# Lattice visualizer engine, modelled in Dafny

The lattice visualizer is a React component that lets a user pick a dimension
`d`, a `d x d` basis and a sum limit `L`, and draws the lattice points
`c . B` for every integer coefficient vector `c` in `[-L, L]^d`. It can also
shade a parallelepiped: it picks a random integer offset and lists the `2^d`
vertices built from that offset and the basis rows. The drawing code wraps a
small computation engine. This project models that engine and proves what
it computes:

- `enumeration.dfy` (module `Enumeration`): the range `[-L..L]` and its
  `d`-fold Cartesian product. The product is built as the source builds it:
  a left fold (`reduce`) that extends every partial vector by each entry of
  the next range (`flatMap` of `map`).
- `points.dfy` (module `PointGeneration`): the `MAX_POINTS` = 50000 cap. The
  specification function `LatticePoints` gives the expected points. The
  method `GenerateLatticePoints` runs the source's nested loops
  (`point[j] += coeff[i] * basis[i][j]`) on an array and is proved equal to it.
- `projection.dfy` (module `Projection`): `projectTo3D`.
- `parallelepiped.dfy` (module `Parallelepiped`): the offset formula and the
  vertex loop of `shadeRandomParallelepiped`. The loop is the method
  `ShadeVertices`, proved against the function `FlatVertices`. The corrected
  loop `ShadeCorners` is described under Findings.
- `state.dfy` (module `VisualizerState`): the class `LatticeVisualizer`.
  Its fields are `dimension`, `basis` and `sumLimit`. It has the dimension,
  basis-cell and sum-limit handlers, plus two methods that run the engine on
  the current state.
- `matrices.dfy` (module `Matrices`): shared helpers (matrix type, identity,
  powers).

Basis entries are `real`. Coefficients and offsets are `int`. All formulas
are exact over these types.

Three places where the model follows JavaScript rather than the UI's
`min`/`max` hints:

- `Array.from({length: n})` clamps a negative `n` to 0. So a negative sum
  limit gives an empty range, and a negative dimension gives an empty basis
  (`Range`, `InitializeBasis`).
- The dimension handler has no lower bound. The state can therefore hold a
  negative dimension. Generating points then needs `dimension >= 0`, because
  `Array(dimension)` throws for a negative length.
- `i & (1 << j)` is modelled as bit `j` of `i` (`MaskBit`). This is exact
  only for `d <= 30`, which the vertex loop requires.

## Model

| member | source | states |
|---|---|---|
| `Enumeration.Range` | src/LatticeVisualizer.js:23 | the range has 2L+1 entries (0 if L < 0), strictly increasing, and contains exactly the integers in [-L, L] |
| `Enumeration.CartesianProductLength` | src/LatticeVisualizer.js:25 | the product has as many vectors as the product of the array lengths |
| `Enumeration.CartesianProductMembers` | src/LatticeVisualizer.js:25 | a vector is in the product if and only if it takes its i-th entry from the i-th array, for every i |
| `Enumeration.CartesianProductSorted` | src/LatticeVisualizer.js:25 | if every array is strictly increasing, the product lists its vectors in strictly increasing lexicographic order, first coordinate most significant |
| `Enumeration.CoefficientCount` | src/LatticeVisualizer.js:23-27 | there are exactly (2L+1)^d coefficient vectors |
| `Enumeration.CoefficientMembers` | src/LatticeVisualizer.js:23-27 | the coefficient vectors are exactly the vectors of length d with every entry in [-L, L] |
| `Enumeration.CoefficientsSortedAndDistinct` | src/LatticeVisualizer.js:23-27 | the coefficient vectors appear in strict lexicographic order, so no vector appears twice |
| `Enumeration.DegenerateCoefficients` | src/LatticeVisualizer.js:23-27 | L = 0 gives the single all-zero vector; d = 0 gives one empty vector |
| `Enumeration.CoefficientsTwoByOne` | src/LatticeVisualizer.js:23-27 | d = 2, L = 1 enumerates the nine vectors from [-1,-1] to [1,1] in lexicographic order |
| `PointGeneration.GenerateLatticePoints` | src/LatticeVisualizer.js:20-42 | the nested loops return exactly `LatticePoints`: one point per capped coefficient vector, in order, with point[j] = sum over i of coeff[i] * basis[i][j] |
| `PointGeneration.PointCountAndPrefix` | src/LatticeVisualizer.js:29-38 | there are min((2L+1)^d, 50000) points; point k has d coordinates and is the image of the k-th coefficient vector |
| `PointGeneration.NoCapAtDimensionThreeLimitTen` | src/LatticeVisualizer.js:6-29 | d = 3, L = 10 keeps all 9261 candidates |
| `PointGeneration.LatticePointLinear` | src/LatticeVisualizer.js:31-37 | the point of c1 + c2 is the coordinate-wise sum of the points of c1 and c2 |
| `PointGeneration.ZeroToOrigin` | src/LatticeVisualizer.js:31-37 | the zero coefficient vector maps to the origin |
| `PointGeneration.IdentityPointIsCoefficient` | src/LatticeVisualizer.js:31-37 | under the identity basis, every point equals its coefficient vector |
| `PointGeneration.ScaledBasisPoints` | src/LatticeVisualizer.js:20-42 | basis [[2,0],[0,1]] with L = 1 gives the nine points {-2,0,2} x {-1,0,1}, listed in order |
| `Projection.ProjectPoint` | src/LatticeVisualizer.js:46-47 | a projected point has exactly 3 coordinates: the first min(d,3) coordinates of the point, then zeros |
| `Projection.ProjectTo3D` | src/LatticeVisualizer.js:44-49 | one projected point per input point, in order, each as in `ProjectPoint` |
| `Projection.ProjectDropsTail` | src/LatticeVisualizer.js:44-49 | a point with 3 or more coordinates projects to its first three |
| `Projection.ProjectPadsWithZeros` | src/LatticeVisualizer.js:44-49 | a point with at most 3 coordinates projects to itself padded with zeros |
| `Projection.ProjectIdempotent` | src/LatticeVisualizer.js:44-49 | projecting twice gives the same result as projecting once |
| `Projection.ProjectExamples` | src/LatticeVisualizer.js:44-49 | [1,2,3,4,5] projects to [1,2,3] and [7,9] projects to [7,9,0] |
| `Parallelepiped.RandomOffsets` | src/LatticeVisualizer.js:156 | given draws in [0,1), there is one offset per draw, and for L >= 0 each offset lies in [-L, L] |
| `Parallelepiped.ShadeVertices` | src/LatticeVisualizer.js:159-170 | the loop as written returns exactly `FlatVertices` over all 2^d masks: for each mask, the vertex with coordinate k = offset[k] + the sum of basis[j][k] over selected rows j >= k, cut to 3 coordinates |
| `Parallelepiped.VertexCount` | src/LatticeVisualizer.js:159-170 | the flat list has 2^d * min(d,3) numbers, and the numbers of mask m are at positions [m*w, (m+1)*w) |
| `Parallelepiped.MaskZeroIsOffset` | src/LatticeVisualizer.js:159-169 | the mask-0 vertex is the offset, and the flat list starts with the offset cut to 3 coordinates |
| `Parallelepiped.AddBit` | src/LatticeVisualizer.js:163 | adding 2^j to a mask whose bit j is clear sets bit j and changes no other bit |
| `Parallelepiped.WrittenEdge` | src/LatticeVisualizer.js:161-167 | as written, adding row j to a mask moves coordinate k by basis[j][k] when k <= j, and does not move it when k > j |
| `Parallelepiped.TriangularBasisGivesCorners` | src/LatticeVisualizer.js:160-167 | if basis[j][k] = 0 for all j < k, each vertex equals the offset plus the selected rows |
| `Parallelepiped.TriangularBasisSameOutput` | src/LatticeVisualizer.js:159-170 | on such a basis, the loop as written and the corrected loop give the same flat list |
| `Parallelepiped.IdentityUnitSquare` | src/LatticeVisualizer.js:159-170 | the identity basis at d = 2 with offset 0 gives the vertices (0,0), (1,0), (0,1), (1,1) |
| `Parallelepiped.ResetLosesUpperEntries` | src/LatticeVisualizer.js:162 | with basis [[1,1],[0,1]] and offset 0, the code gives [1,0] for mask 1, but the intended corner is [1,1] |
| `Parallelepiped.ShadeCorners` | src/LatticeVisualizer.js:159-170 | the corrected loop, which copies the offset once before adding rows, returns the intended corners: offset plus all selected rows |
| `Parallelepiped.IntendedEdge` | src/LatticeVisualizer.js:159-169 | for the intended corners, adding row j to a mask moves the corner by exactly basis row j |
| `VisualizerState.InitializeBasis` | src/LatticeVisualizer.js:190-195 | the new basis is the dim x dim identity (empty when dim <= 0) |
| `VisualizerState.UpdateCell` | src/LatticeVisualizer.js:197-202 | the edited basis keeps its shape, cell (i,j) becomes the value when that cell exists, and every other cell is unchanged |
| `VisualizerState.UpdateCellUndo` | src/LatticeVisualizer.js:197-202 | writing back a cell's old value restores the original basis |
| `VisualizerState.UpdateCellOutside` | src/LatticeVisualizer.js:197-202 | editing a cell outside the basis changes nothing |
| `VisualizerState.UpdateCellLastWins` | src/LatticeVisualizer.js:197-202 | when the same cell is edited twice, only the second edit counts |
| `VisualizerState.InitialBasisPointsAreCoefficients` | src/LatticeVisualizer.js:190-195 | after a dimension change, every generated point equals its coefficient vector |
| `VisualizerState.LatticeVisualizer.constructor` | src/LatticeVisualizer.js:9-14 | the initial state is d = 2, the 2x2 identity basis and L = 5 |
| `VisualizerState.LatticeVisualizer.HandleDimensionChange` | src/LatticeVisualizer.js:180-188 | a value above 400 is rejected and changes nothing; any other value (no lower bound) becomes the dimension and resets the basis to that identity; the basis stays square |
| `VisualizerState.LatticeVisualizer.HandleBasisChange` | src/LatticeVisualizer.js:197-202 | the basis becomes `UpdateCell` of the old basis; dimension and limit are unchanged |
| `VisualizerState.LatticeVisualizer.HandleSumLimitChange` | src/LatticeVisualizer.js:229 | the limit takes the new value; dimension and basis are unchanged |
| `VisualizerState.LatticeVisualizer.CurrentLatticePoints` | src/LatticeVisualizer.js:20-42 | the state yields `LatticePoints(dimension, basis, sumLimit)`, which has min((2L+1)^d, 50000) points |
| `VisualizerState.LatticeVisualizer.ShadeRandomParallelepiped` | src/LatticeVisualizer.js:150-170 | given the random draws, the state yields the vertex list of the offsets built from those draws, with 2^d * min(d,3) numbers |

## Findings

| source | as written | input that shows it | evidently intended | confidence | as-written member | corrected member |
|---|---|---|---|---|---|---|
| src/LatticeVisualizer.js:162 | `vertex[j] = randomOffsets[j]` runs inside the row loop. Step j therefore overwrites what rows j' < j had already added to coordinate j. Coordinate k only collects the selected rows j >= k | d = 2, basis [[1,1],[0,1]], offset [0,0], mask 1: the vertex is [1,0] | each vertex is the offset plus every selected basis row, here [1,1]; edges from the offset corner are the basis vectors | high (proved; not executed) | `Parallelepiped.ResetLosesUpperEntries` (and `Parallelepiped.WrittenEdge`) | `Parallelepiped.ShadeCorners` with `Parallelepiped.IntendedEdge` |

The two loops agree on every basis with zeros above the diagonal
(`Parallelepiped.TriangularBasisSameOutput`). The identity is one such
basis, so the initial state is not affected. The state's
`ShadeRandomParallelepiped` models the component as it is, so it calls the
loop as written.

## Left out

- Rendering: the D3/SVG drawing with its scales and extents (lines 51-96),
  the three.js scene, camera, renderer, orbit controls and animation loop
  (lines 98-137 and 172-177), and the mesh add/remove in
  `handleUnshadeParallelepiped` (lines 209-216). These are calls into
  foreign libraries.
- React plumbing: `useState` setters (modelled as field updates),
  `useMemo`, the `useEffect` dispatch by dimension (lines 139-148) and the
  JSX form.
- `Math.random` (line 156): its draws are a parameter, `samples`, with each
  draw in [0, 1).
- Parsing: `parseInt`/`parseFloat` and NaN inputs. Inputs are already-parsed
  integers and reals. The `alert` on a rejected dimension is the returned
  `accepted = false`.
- IEEE floating point, `Float32Array` conversion, and the `x || 0` coercion
  of NaN or -0 in `projectTo3D`. Numbers are exact reals, so `x || 0` only
  matters for a missing coordinate.
- Parallelepiped.ShadeVertices: requires d <= 30. For d >= 31, JavaScript's
  32-bit `1 << d` wraps (negative at d = 31, so no vertices). The model does
  not describe that.
- VisualizerState.LatticeVisualizer.CurrentLatticePoints: requires a
  dimension >= 0, because for a negative dimension `Array(dimension)` throws
  a RangeError. The model does not describe that exception.
- VisualizerState.LatticeVisualizer.ShadeRandomParallelepiped: requires
  0 <= dimension <= 30. For a negative dimension the source computes
  `1 << dimension` on 32 bits. The model does not describe that case.
- Memory: the source materializes the whole Cartesian product before
  slicing; the model does the same, as a sequence.
