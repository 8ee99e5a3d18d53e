/** The component's state: the dimension, the basis and the sum limit, with
    the handlers that change them and the two computations that read them. */
module VisualizerState {
  import opened Matrices
  import opened Enumeration
  import opened PointGeneration
  import opened Parallelepiped

  /** Largest dimension the dimension handler accepts. */
  const MAX_DIMENSION: int := 400

  /** An array length: `Array.from` clamps a negative length to 0. */
  function Length(n: int): nat {
    if n < 0 then 0 else n
  }

  /** `initializeBasis(dim)`: the identity of size dim (empty when dim <= 0). */
  function InitializeBasis(dim: int): (b: Matrix)
    ensures IsSquare(b, Length(dim))
    ensures forall i :: 0 <= i < |b| ==> b[i][i] == 1.0
    ensures forall i, j :: 0 <= i < |b| && 0 <= j < |b| && i != j ==> b[i][j] == 0.0
  {
    Identity(Length(dim))
  }

  /** The new basis `handleBasisChange(i, j, value)` builds with a nested map:
      same shape, cell (i, j) replaced by value when it exists, every other
      cell kept. */
  function UpdateCell(basis: Matrix, i: int, j: int, value: real): (b: Matrix)
    ensures |b| == |basis| && forall r :: 0 <= r < |b| ==> |b[r]| == |basis[r]|
    ensures 0 <= i < |basis| && 0 <= j < |basis[i]| ==> b[i][j] == value
    ensures forall r, c :: 0 <= r < |b| && 0 <= c < |b[r]| && (r != i || c != j) ==> b[r][c] == basis[r][c]
  {
    seq(|basis|, r requires 0 <= r < |basis| =>
      seq(|basis[r]|, c requires 0 <= c < |basis[r]| => if r == i && c == j then value else basis[r][c]))
  }

  /** Writing back the old value of a cell undoes an edit. */
  lemma UpdateCellUndo(basis: Matrix, i: int, j: int, value: real)
    requires 0 <= i < |basis| && 0 <= j < |basis[i]|
    ensures UpdateCell(UpdateCell(basis, i, j, value), i, j, basis[i][j]) == basis
  {
    var b := UpdateCell(UpdateCell(basis, i, j, value), i, j, basis[i][j]);
    forall r | 0 <= r < |basis|
      ensures b[r] == basis[r]
    {
    }
  }

  /** An edit of a cell outside the basis changes nothing. */
  lemma UpdateCellOutside(basis: Matrix, i: int, j: int, value: real)
    requires !(0 <= i < |basis| && 0 <= j < |basis[i]|)
    ensures UpdateCell(basis, i, j, value) == basis
  {
    var b := UpdateCell(basis, i, j, value);
    forall r | 0 <= r < |basis|
      ensures b[r] == basis[r]
    {
    }
  }

  /** Of two edits of one cell, the second wins. */
  lemma UpdateCellLastWins(basis: Matrix, i: int, j: int, v: real, w: real)
    ensures UpdateCell(UpdateCell(basis, i, j, v), i, j, w) == UpdateCell(basis, i, j, w)
  {
    var b1 := UpdateCell(UpdateCell(basis, i, j, v), i, j, w);
    var b2 := UpdateCell(basis, i, j, w);
    forall r | 0 <= r < |basis|
      ensures b1[r] == b2[r]
    {
    }
  }

  /** Right after a dimension change the basis is the identity, so every
      lattice point is its own coefficient vector. */
  lemma InitialBasisPointsAreCoefficients(dimension: nat, limit: int)
    ensures forall k :: 0 <= k < |LatticePoints(dimension, InitializeBasis(dimension), limit)| ==>
              |Coefficients(dimension, limit)[k]| == dimension &&
              LatticePoints(dimension, InitializeBasis(dimension), limit)[k] == ToReal(Coefficients(dimension, limit)[k])
  {
    var b := InitializeBasis(dimension);
    PointCountAndPrefix(dimension, b, limit);
    forall k | 0 <= k < |LatticePoints(dimension, b, limit)|
      ensures LatticePoints(dimension, b, limit)[k] == ToReal(Coefficients(dimension, limit)[k])
    {
      IdentityPointIsCoefficient(Coefficients(dimension, limit)[k]);
    }
  }

  class LatticeVisualizer {
    var dimension: int
    var basis: Matrix
    var sumLimit: int

    /** The basis is always square, of the current dimension. */
    ghost predicate Valid()
      reads this
    {
      IsSquare(basis, Length(dimension))
    }

    /** Initial state: d = 2, the 2x2 identity, L = 5. */
    constructor ()
      ensures Valid()
      ensures dimension == 2 && basis == [[1.0, 0.0], [0.0, 1.0]] && sumLimit == 5
    {
      dimension := 2;
      basis := [[1.0, 0.0], [0.0, 1.0]];
      sumLimit := 5;
    }

    /** `handleDimensionChange`: a value above 400 is rejected (the alert) and
        nothing changes; any other value becomes the dimension and resets the
        basis to the identity of that size. There is no lower bound. */
    method HandleDimensionChange(newDimension: int) returns (accepted: bool)
      requires Valid()
      modifies this
      ensures Valid()
      ensures accepted <==> newDimension <= MAX_DIMENSION
      ensures accepted ==> dimension == newDimension && basis == InitializeBasis(newDimension)
      ensures !accepted ==> dimension == old(dimension) && basis == old(basis)
      ensures sumLimit == old(sumLimit)
    {
      if newDimension > MAX_DIMENSION {
        return false;
      }
      dimension := newDimension;
      basis := InitializeBasis(newDimension);
      accepted := true;
    }

    /** `handleBasisChange(i, j, value)`: only cell (i, j) changes. */
    method HandleBasisChange(i: int, j: int, value: real)
      requires Valid()
      modifies this
      ensures Valid()
      ensures basis == UpdateCell(old(basis), i, j, value)
      ensures dimension == old(dimension) && sumLimit == old(sumLimit)
    {
      basis := UpdateCell(basis, i, j, value);
    }

    /** The sum-limit field's change handler. */
    method HandleSumLimitChange(newLimit: int)
      requires Valid()
      modifies this
      ensures Valid()
      ensures sumLimit == newLimit
      ensures dimension == old(dimension) && basis == old(basis)
    {
      sumLimit := newLimit;
    }

    /** `generateLatticePoints` over the current state. `Array(dimension)`
        throws for a negative dimension, so the dimension must be at least 0. */
    method CurrentLatticePoints() returns (points: seq<seq<real>>)
      requires Valid() && dimension >= 0
      ensures points == LatticePoints(dimension, basis, sumLimit)
      ensures |points| == Min(Pow(RangeLength(sumLimit), dimension), MAX_POINTS)
    {
      points := GenerateLatticePoints(dimension, basis, sumLimit);
      PointCountAndPrefix(dimension, basis, sumLimit);
    }

    /** The vertex computation of `shadeRandomParallelepiped` over the current
        state, with the draws of `Math.random()` given as `samples`. */
    method ShadeRandomParallelepiped(samples: seq<real>) returns (vertices: seq<real>)
      requires Valid() && 0 <= dimension <= 30 && |samples| == dimension
      requires forall k :: 0 <= k < |samples| ==> 0.0 <= samples[k] < 1.0
      ensures vertices == FlatVertices(basis, RandomOffsets(samples, sumLimit), Pow2(dimension))
      ensures |vertices| == Pow2(dimension) * Min(dimension, 3)
    {
      var randomOffsets := RandomOffsets(samples, sumLimit);
      vertices := ShadeVertices(dimension, basis, randomOffsets);
      VertexCount(basis, randomOffsets);
    }
  }
}
