/** The vertex loop of `shadeRandomParallelepiped`: for each of the 2^d masks
    a vertex is built from the random offset and the basis rows whose bit is
    set, cut to its first three coordinates and appended to a flat list.

    As written, the loop resets `vertex[j]` to the offset at step j, after
    rows j' < j may already have added to coordinate j. Coordinate k of a
    vertex therefore only collects the selected rows j >= k. `Vertex` models
    that; `IntendedVertex` is the corner "offset + selected rows". */
module Parallelepiped {
  import opened Matrices

  /** `i & (1 << j)` is non-zero. For j <= 30 the 32-bit shift is exact, so
      this is bit j of the mask: halve j times, then test the low bit. */
  predicate MaskBit(mask: nat, j: nat) {
    if j == 0 then mask % 2 == 1 else MaskBit(mask / 2, j - 1)
  }

  /** Sum of basis[j][k] over the rows lo <= j < hi whose bit is set in mask. */
  function SelectedSum(mask: nat, basis: Matrix, k: nat, lo: nat, hi: nat): real
    requires hi <= |basis| && forall j :: 0 <= j < hi ==> k < |basis[j]|
  {
    if hi <= lo then 0.0
    else SelectedSum(mask, basis, k, lo, hi - 1) + (if MaskBit(mask, hi - 1) then basis[hi - 1][k] else 0.0)
  }

  /** The vertex the loop builds for `mask`, before truncation:
      vertex[k] = offset[k] + sum of basis[j][k] over selected rows j >= k. */
  function Vertex(mask: nat, basis: Matrix, offsets: seq<int>): seq<real>
    requires IsSquare(basis, |offsets|)
  {
    var d := |offsets|;
    seq(d, k requires 0 <= k < d => offsets[k] as real + SelectedSum(mask, basis, k, k, d))
  }

  /** The corner of the cell for `mask`: offset plus every selected row. */
  function IntendedVertex(mask: nat, basis: Matrix, offsets: seq<int>): seq<real>
    requires IsSquare(basis, |offsets|)
  {
    var d := |offsets|;
    seq(d, k requires 0 <= k < d => offsets[k] as real + SelectedSum(mask, basis, k, 0, d))
  }

  /** `vertex.slice(0, 3)`. */
  function Truncate3(v: seq<real>): seq<real> {
    v[..Min(|v|, 3)]
  }

  /** The flat list after the first `count` masks have been pushed. */
  function FlatVertices(basis: Matrix, offsets: seq<int>, count: nat): seq<real>
    requires IsSquare(basis, |offsets|)
  {
    if count == 0 then []
    else FlatVertices(basis, offsets, count - 1) + Truncate3(Vertex(count - 1, basis, offsets))
  }

  /** `Math.floor(Math.random() * (2 * sumLimit + 1)) - sumLimit` per coordinate,
      with the random draws given as `samples`. */
  function RandomOffsets(samples: seq<real>, limit: int): (offsets: seq<int>)
    requires forall k :: 0 <= k < |samples| ==> 0.0 <= samples[k] < 1.0
    ensures |offsets| == |samples|
    ensures limit >= 0 ==> forall k :: 0 <= k < |offsets| ==> -limit <= offsets[k] <= limit
  {
    var offsets := seq(|samples|, k requires 0 <= k < |samples| => (samples[k] * ((2 * limit + 1) as real)).Floor - limit);
    assert limit >= 0 ==> forall k :: 0 <= k < |offsets| ==> -limit <= offsets[k] <= limit by {
      if limit >= 0 {
        forall k | 0 <= k < |offsets|
          ensures -limit <= offsets[k] <= limit
        {
          ScaledFloorBounds(samples[k], 2 * limit + 1);
        }
      }
    }
    offsets
  }

  lemma ScaledFloorBounds(u: real, n: nat)
    requires 0.0 <= u < 1.0 && n >= 1
    ensures 0 <= (u * (n as real)).Floor < n
  {
    assert u * (n as real) < n as real by {
      assert (1.0 - u) * (n as real) > 0.0;
    }
  }

  /** The vertex loop: 2^d masks, for each a fresh vertex filled row by row,
      its first three coordinates appended to the flat list. */
  method ShadeVertices(dimension: nat, basis: Matrix, randomOffsets: seq<int>) returns (parallelepipedVertices: seq<real>)
    requires dimension <= 30
    requires |randomOffsets| == dimension && IsSquare(basis, dimension)
    ensures parallelepipedVertices == FlatVertices(basis, randomOffsets, Pow2(dimension))
  {
    parallelepipedVertices := [];
    var i := 0;
    while i < Pow2(dimension)
      invariant 0 <= i <= Pow2(dimension)
      invariant parallelepipedVertices == FlatVertices(basis, randomOffsets, i)
    {
      var vertex := new real[dimension](_ => 0.0);
      for j := 0 to dimension
        invariant forall k :: 0 <= k < dimension ==>
          vertex[k] == if k < j then randomOffsets[k] as real + SelectedSum(i, basis, k, k, j)
                       else SelectedSum(i, basis, k, 0, j)
      {
        vertex[j] := randomOffsets[j] as real;
        if MaskBit(i, j) {
          for k := 0 to dimension
            invariant forall m :: 0 <= m < k ==>
              vertex[m] == (if m <= j then randomOffsets[m] as real + SelectedSum(i, basis, m, m, j)
                            else SelectedSum(i, basis, m, 0, j)) + basis[j][m]
            invariant forall m :: k <= m < dimension ==>
              vertex[m] == if m <= j then randomOffsets[m] as real + SelectedSum(i, basis, m, m, j)
                           else SelectedSum(i, basis, m, 0, j)
          {
            vertex[k] := vertex[k] + basis[j][k];
          }
        }
      }
      assert vertex[..] == Vertex(i, basis, randomOffsets);
      parallelepipedVertices := parallelepipedVertices + vertex[..Min(dimension, 3)];
      i := i + 1;
    }
  }

  /** The flat list of intended corners after the first `count` masks. */
  function IntendedFlatVertices(basis: Matrix, offsets: seq<int>, count: nat): seq<real>
    requires IsSquare(basis, |offsets|)
  {
    if count == 0 then []
    else IntendedFlatVertices(basis, offsets, count - 1) + Truncate3(IntendedVertex(count - 1, basis, offsets))
  }

  /** The vertex loop with the offset copied into the vertex once, before the
      rows are added, so that no row's contribution is overwritten. */
  method ShadeCorners(dimension: nat, basis: Matrix, randomOffsets: seq<int>) returns (parallelepipedVertices: seq<real>)
    requires dimension <= 30
    requires |randomOffsets| == dimension && IsSquare(basis, dimension)
    ensures parallelepipedVertices == IntendedFlatVertices(basis, randomOffsets, Pow2(dimension))
  {
    parallelepipedVertices := [];
    var i := 0;
    while i < Pow2(dimension)
      invariant 0 <= i <= Pow2(dimension)
      invariant parallelepipedVertices == IntendedFlatVertices(basis, randomOffsets, i)
    {
      var vertex := new real[dimension](k requires 0 <= k < dimension => randomOffsets[k] as real);
      for j := 0 to dimension
        invariant forall k :: 0 <= k < dimension ==>
          vertex[k] == randomOffsets[k] as real + SelectedSum(i, basis, k, 0, j)
      {
        if MaskBit(i, j) {
          for k := 0 to dimension
            invariant forall m :: 0 <= m < k ==>
              vertex[m] == randomOffsets[m] as real + SelectedSum(i, basis, m, 0, j) + basis[j][m]
            invariant forall m :: k <= m < dimension ==>
              vertex[m] == randomOffsets[m] as real + SelectedSum(i, basis, m, 0, j)
          {
            vertex[k] := vertex[k] + basis[j][k];
          }
        }
      }
      assert vertex[..] == IntendedVertex(i, basis, randomOffsets);
      parallelepipedVertices := parallelepipedVertices + vertex[..Min(dimension, 3)];
      i := i + 1;
    }
  }

  // ------------------------------------------------------------- properties

  lemma {:induction false} FlatVerticesLength(basis: Matrix, offsets: seq<int>, count: nat)
    requires IsSquare(basis, |offsets|)
    ensures |FlatVertices(basis, offsets, count)| == count * Min(|offsets|, 3)
  {
    if count > 0 {
      FlatVerticesLength(basis, offsets, count - 1);
      var w := Min(|offsets|, 3);
      assert (count - 1) * w + w == count * w;
    }
  }

  lemma SliceOfPrefix(prev: seq<real>, tail: seq<real>, a: nat, b: nat)
    requires a <= b <= |prev|
    ensures (prev + tail)[a..b] == prev[a..b]
  {
  }

  /** After `count` masks, the numbers of mask m sit at [m * w, (m + 1) * w)
      of the flat list, where w = min(d, 3). */
  lemma {:induction false} FlatVerticesAt(basis: Matrix, offsets: seq<int>, count: nat, m: nat, w: nat)
    requires IsSquare(basis, |offsets|) && w == Min(|offsets|, 3) && m < count
    ensures (m + 1) * w <= |FlatVertices(basis, offsets, count)|
    ensures FlatVertices(basis, offsets, count)[m * w..(m + 1) * w] == Truncate3(Vertex(m, basis, offsets))
  {
    var prev := FlatVertices(basis, offsets, count - 1);
    var tail := Truncate3(Vertex(count - 1, basis, offsets));
    FlatVerticesLength(basis, offsets, count - 1);
    assert |prev| == (count - 1) * w && |tail| == w;
    assert (count - 1) * w + w == count * w;
    var lo, hi := m * w, (m + 1) * w;
    assert hi == lo + w;
    if m < count - 1 {
      FlatVerticesAt(basis, offsets, count - 1, m, w);
      SliceOfPrefix(prev, tail, lo, hi);
    } else {
      assert lo == |prev|;
    }
  }

  /** The loop produces exactly 2^d vertices: 2^d * min(d, 3) numbers in all. */
  lemma VertexCount(basis: Matrix, offsets: seq<int>)
    requires IsSquare(basis, |offsets|)
    ensures |FlatVertices(basis, offsets, Pow2(|offsets|))| == Pow2(|offsets|) * Min(|offsets|, 3)
    ensures forall m :: 0 <= m < Pow2(|offsets|) ==>
              FlatVertices(basis, offsets, Pow2(|offsets|))[m * Min(|offsets|, 3)..(m + 1) * Min(|offsets|, 3)]
                == Truncate3(Vertex(m, basis, offsets))
  {
    FlatVerticesLength(basis, offsets, Pow2(|offsets|));
    forall m | 0 <= m < Pow2(|offsets|)
      ensures (m + 1) * Min(|offsets|, 3) <= |FlatVertices(basis, offsets, Pow2(|offsets|))|
      ensures FlatVertices(basis, offsets, Pow2(|offsets|))[m * Min(|offsets|, 3)..(m + 1) * Min(|offsets|, 3)]
                == Truncate3(Vertex(m, basis, offsets))
    {
      FlatVerticesAt(basis, offsets, Pow2(|offsets|), m, Min(|offsets|, 3));
    }
  }

  lemma {:induction false} SelectedSumOfEmptyMask(basis: Matrix, k: nat, lo: nat, hi: nat)
    requires hi <= |basis| && forall j :: 0 <= j < hi ==> k < |basis[j]|
    ensures SelectedSum(0, basis, k, lo, hi) == 0.0
  {
    if hi > lo {
      SelectedSumOfEmptyMask(basis, k, lo, hi - 1);
      ZeroMaskHasNoBits(hi - 1);
    }
  }

  /** Mask 0 selects no row, so the first vertex is the offset itself, and it
      opens the flat list (cut to three coordinates). */
  lemma MaskZeroIsOffset(basis: Matrix, offsets: seq<int>)
    requires IsSquare(basis, |offsets|)
    ensures Vertex(0, basis, offsets) == ToReal(offsets)
    ensures IntendedVertex(0, basis, offsets) == ToReal(offsets)
    ensures FlatVertices(basis, offsets, Pow2(|offsets|))[..Min(|offsets|, 3)] == Truncate3(ToReal(offsets))
  {
    forall k | 0 <= k < |offsets|
      ensures Vertex(0, basis, offsets)[k] == offsets[k] as real
      ensures IntendedVertex(0, basis, offsets)[k] == offsets[k] as real
    {
      SelectedSumOfEmptyMask(basis, k, k, |offsets|);
      SelectedSumOfEmptyMask(basis, k, 0, |offsets|);
    }
    assert Vertex(0, basis, offsets) == ToReal(offsets);
    var w := Min(|offsets|, 3);
    var flat := FlatVertices(basis, offsets, Pow2(|offsets|));
    FlatVerticesAt(basis, offsets, Pow2(|offsets|), 0, w);
    assert 0 * w == 0 && (0 + 1) * w == w;
    assert flat[..w] == flat[0..w];
  }

  lemma {:induction false} SelectedSumSplit(mask: nat, basis: Matrix, k: nat, lo: nat, mid: nat, hi: nat)
    requires lo <= mid <= hi
    requires hi <= |basis| && forall j :: 0 <= j < hi ==> k < |basis[j]|
    ensures SelectedSum(mask, basis, k, lo, hi) == SelectedSum(mask, basis, k, lo, mid) + SelectedSum(mask, basis, k, mid, hi)
    decreases hi
  {
    if hi > mid {
      SelectedSumSplit(mask, basis, k, lo, mid, hi - 1);
    }
  }

  lemma {:induction false} SelectedSumAboveDiagonalZero(mask: nat, basis: Matrix, k: nat, hi: nat)
    requires hi <= k && k < |basis| && forall j :: 0 <= j < |basis| ==> k < |basis[j]|
    requires forall j :: 0 <= j < k ==> basis[j][k] == 0.0
    ensures SelectedSum(mask, basis, k, 0, hi) == 0.0
  {
    if hi > 0 {
      SelectedSumAboveDiagonalZero(mask, basis, k, hi - 1);
    }
  }

  /** When basis[j][k] = 0 for all j < k, the reset at step j discards nothing,
      and each vertex is the intended corner, offset plus the selected rows. */
  lemma TriangularBasisGivesCorners(mask: nat, basis: Matrix, offsets: seq<int>)
    requires IsSquare(basis, |offsets|)
    requires forall j, k :: 0 <= j < k < |offsets| ==> basis[j][k] == 0.0
    ensures Vertex(mask, basis, offsets) == IntendedVertex(mask, basis, offsets)
  {
    var d := |offsets|;
    forall k | 0 <= k < d
      ensures Vertex(mask, basis, offsets)[k] == IntendedVertex(mask, basis, offsets)[k]
    {
      SelectedSumSplit(mask, basis, k, 0, k, d);
      SelectedSumAboveDiagonalZero(mask, basis, k, k);
    }
  }

  /** On a basis with zeros above the diagonal the loop as written and the
      corrected loop produce the same flat list. */
  lemma {:induction false} TriangularBasisSameOutput(basis: Matrix, offsets: seq<int>, count: nat)
    requires IsSquare(basis, |offsets|)
    requires forall j, k :: 0 <= j < k < |offsets| ==> basis[j][k] == 0.0
    ensures FlatVertices(basis, offsets, count) == IntendedFlatVertices(basis, offsets, count)
  {
    if count > 0 {
      TriangularBasisSameOutput(basis, offsets, count - 1);
      TriangularBasisGivesCorners(count - 1, basis, offsets);
    }
  }

  // ------------------------------------------------- single-bit masks (edges)

  lemma {:induction false} ZeroMaskHasNoBits(j: nat)
    ensures !MaskBit(0, j)
  {
    if j > 0 {
      ZeroMaskHasNoBits(j - 1);
    }
  }

  /** Setting a clear bit j of a mask sets bit j and changes no other bit. */
  lemma {:induction false} AddBit(mask: nat, j: nat, i: nat)
    requires !MaskBit(mask, j)
    ensures MaskBit(mask + Pow2(j), i) <==> MaskBit(mask, i) || i == j
  {
    if j == 0 {
      if i > 0 {
        assert (mask + 1) / 2 == mask / 2;
      }
    } else if i > 0 {
      assert (mask + Pow2(j)) / 2 == mask / 2 + Pow2(j - 1);
      AddBit(mask / 2, j - 1, i - 1);
    } else {
      assert (mask + Pow2(j)) % 2 == mask % 2;
    }
  }

  lemma {:induction false} SelectedSumAddRow(mask: nat, j: nat, basis: Matrix, k: nat, lo: nat, hi: nat)
    requires !MaskBit(mask, j)
    requires hi <= |basis| && forall r :: 0 <= r < hi ==> k < |basis[r]|
    ensures SelectedSum(mask + Pow2(j), basis, k, lo, hi)
              == SelectedSum(mask, basis, k, lo, hi) + (if lo <= j < hi then basis[j][k] else 0.0)
  {
    if hi > lo {
      SelectedSumAddRow(mask, j, basis, k, lo, hi - 1);
      AddBit(mask, j, hi - 1);
    }
  }

  /** Corrected: adding row j to a mask moves its corner by exactly basis
      row j, so every edge of the cell along direction j is row j. */
  lemma IntendedEdge(mask: nat, j: nat, basis: Matrix, offsets: seq<int>)
    requires IsSquare(basis, |offsets|) && j < |offsets| && !MaskBit(mask, j)
    ensures forall k :: 0 <= k < |offsets| ==>
              IntendedVertex(mask + Pow2(j), basis, offsets)[k] == IntendedVertex(mask, basis, offsets)[k] + basis[j][k]
  {
    forall k | 0 <= k < |offsets|
      ensures IntendedVertex(mask + Pow2(j), basis, offsets)[k] == IntendedVertex(mask, basis, offsets)[k] + basis[j][k]
    {
      SelectedSumAddRow(mask, j, basis, k, 0, |offsets|);
    }
  }

  /** As written: adding row j to a mask moves its vertex only by the entries
      k <= j of row j; entries after j are wiped by the later resets. */
  lemma WrittenEdge(mask: nat, j: nat, basis: Matrix, offsets: seq<int>)
    requires IsSquare(basis, |offsets|) && j < |offsets| && !MaskBit(mask, j)
    ensures forall k :: 0 <= k < |offsets| ==>
              Vertex(mask + Pow2(j), basis, offsets)[k]
                == Vertex(mask, basis, offsets)[k] + (if k <= j then basis[j][k] else 0.0)
  {
    forall k | 0 <= k < |offsets|
      ensures Vertex(mask + Pow2(j), basis, offsets)[k]
                == Vertex(mask, basis, offsets)[k] + (if k <= j then basis[j][k] else 0.0)
    {
      SelectedSumAddRow(mask, j, basis, k, k, |offsets|);
    }
  }

  /** With basis [[1,1],[0,1]] and offset 0, mask 1 (row 0 alone) yields
      [1, 0] as written, where the corner is row 0 itself, [1, 1]. */
  lemma ResetLosesUpperEntries()
    ensures Vertex(1, [[1.0, 1.0], [0.0, 1.0]], [0, 0]) == [1.0, 0.0]
    ensures IntendedVertex(1, [[1.0, 1.0], [0.0, 1.0]], [0, 0]) == [1.0, 1.0]
  {
    var b: Matrix := [[1.0, 1.0], [0.0, 1.0]];
    ZeroMaskHasNoBits(0);
    MaskZeroIsOffset(b, [0, 0]);
    WrittenEdge(0, 0, b, [0, 0]);
    IntendedEdge(0, 0, b, [0, 0]);
  }

  /** Identity basis at d = 2 with offset 0: the corners (0,0), (1,0), (0,1), (1,1). */
  lemma IdentityUnitSquare()
    ensures FlatVertices(Identity(2), [0, 0], Pow2(2)) == [0.0, 0.0, 1.0, 0.0, 0.0, 1.0, 1.0, 1.0]
  {
    var b := Identity(2);
    var o := [0, 0];
    assert Pow2(2) == 4;
    MaskZeroIsOffset(b, o);
    assert Pow2(0) == 1 && Pow2(1) == 2;
    assert !MaskBit(0, 0) && !MaskBit(0, 1) && !MaskBit(1, 1);
    WrittenEdge(0, 0, b, o);
    WrittenEdge(0, 1, b, o);
    WrittenEdge(1, 1, b, o);
    assert Vertex(0, b, o) == [0.0, 0.0];
    assert Vertex(1, b, o) == [1.0, 0.0];
    assert Vertex(2, b, o) == [0.0, 1.0];
    assert Vertex(3, b, o) == [1.0, 1.0];
  }
}
