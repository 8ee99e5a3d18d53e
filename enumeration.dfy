/** Coefficient enumeration: the range [-L..L] and its d-fold Cartesian
    product, built exactly as `generateLatticePoints` builds it, by a
    left fold (`reduce`) whose step maps every partial vector to its
    extensions by one more entry (`flatMap` of `map`). */
module Enumeration {
  import opened Matrices

  /** Strictly increasing integers. */
  predicate Increasing(r: seq<int>) {
    forall a, b :: 0 <= a < b < |r| ==> r[a] < r[b]
  }

  /** Lexicographic order, first coordinate most significant. */
  predicate LexLess(a: seq<int>, b: seq<int>)
    decreases |a|
  {
    a != [] && b != [] && (a[0] < b[0] || (a[0] == b[0] && LexLess(a[1..], b[1..])))
  }

  /** Every vector strictly precedes every later one; hence no duplicates. */
  predicate StrictlySorted(vs: seq<seq<int>>) {
    forall a, b :: 0 <= a < b < |vs| ==> LexLess(vs[a], vs[b])
  }

  /** `2 * limit + 1` as an array length: `Array.from` clamps a negative
      length to 0. */
  function RangeLength(limit: int): nat {
    if limit < 0 then 0 else 2 * limit + 1
  }

  /** `Array.from({ length: 2 * sumLimit + 1 }, (_, i) => i - sumLimit)`:
      the integers -limit..limit in increasing order (none when limit < 0). */
  function Range(limit: int): (r: seq<int>)
    ensures |r| == RangeLength(limit)
    ensures Increasing(r)
    ensures forall x :: x in r <==> -limit <= x <= limit
  {
    var r := seq(RangeLength(limit), i => i - limit);
    assert forall x :: x in r <==> -limit <= x <= limit by {
      forall x | -limit <= x <= limit
        ensures x in r
      {
        assert r[x + limit] == x;
      }
    }
    r
  }

  /** `array.map(y => [...x, y])`: x extended by each element of r, in r's order. */
  function AppendEach(x: seq<int>, r: seq<int>): seq<seq<int>> {
    seq(|r|, k requires 0 <= k < |r| => x + [r[k]])
  }

  /** `acc.flatMap(x => array.map(y => [...x, y]))`. */
  function Extend(acc: seq<seq<int>>, r: seq<int>): seq<seq<int>>
    decreases |acc|
  {
    if acc == [] then [] else AppendEach(acc[0], r) + Extend(acc[1..], r)
  }

  /** `arrays.reduce(step, [[]])`: the fold applies the last array last. */
  function CartesianProduct(arrays: seq<seq<int>>): seq<seq<int>>
    decreases |arrays|
  {
    if arrays == [] then [[]]
    else Extend(CartesianProduct(arrays[..|arrays| - 1]), arrays[|arrays| - 1])
  }

  /** The coefficient vectors: `cartesianProduct(...Array(dimension).fill(range))`. */
  function Coefficients(dimension: nat, limit: int): seq<seq<int>> {
    CartesianProduct(seq(dimension, _ => Range(limit)))
  }

  /** Product of the lengths of the arrays. */
  function ProductOfLengths(arrays: seq<seq<int>>): nat
    decreases |arrays|
  {
    if arrays == [] then 1 else ProductOfLengths(arrays[..|arrays| - 1]) * |arrays[|arrays| - 1]|
  }

  /** v is one combination of the arrays: one entry from each, in order. */
  predicate IsCombination(v: seq<int>, arrays: seq<seq<int>>) {
    |v| == |arrays| && forall i :: 0 <= i < |v| ==> v[i] in arrays[i]
  }

  // ---------------------------------------------------------------- counting

  lemma {:induction false} ExtendLength(acc: seq<seq<int>>, r: seq<int>)
    ensures |Extend(acc, r)| == |acc| * |r|
    decreases |acc|
  {
    if acc != [] {
      ExtendLength(acc[1..], r);
      calc {
        |Extend(acc, r)|;
        |r| + |Extend(acc[1..], r)|;
        |r| + (|acc| - 1) * |r|;
        |acc| * |r|;
      }
    }
  }

  /** The product has as many vectors as the product of the array lengths. */
  lemma {:induction false} CartesianProductLength(arrays: seq<seq<int>>)
    ensures |CartesianProduct(arrays)| == ProductOfLengths(arrays)
    decreases |arrays|
  {
    if arrays != [] {
      var init := arrays[..|arrays| - 1];
      CartesianProductLength(init);
      ExtendLength(CartesianProduct(init), arrays[|arrays| - 1]);
    }
  }

  lemma {:induction false} ProductOfEqualLengths(d: nat, r: seq<int>)
    ensures ProductOfLengths(seq(d, _ => r)) == Pow(|r|, d)
  {
    if d > 0 {
      assert seq(d, _ => r)[..d - 1] == seq(d - 1, _ => r);
      ProductOfEqualLengths(d - 1, r);
    }
  }

  /** There are exactly (2L+1)^d coefficient vectors. */
  lemma CoefficientCount(dimension: nat, limit: int)
    ensures |Coefficients(dimension, limit)| == Pow(RangeLength(limit), dimension)
  {
    CartesianProductLength(seq(dimension, _ => Range(limit)));
    ProductOfEqualLengths(dimension, Range(limit));
  }

  // ------------------------------------------------------------- membership

  /** Every vector of an extension is an old vector plus one entry of r. */
  lemma {:induction false} ExtendMemberShape(acc: seq<seq<int>>, r: seq<int>, v: seq<int>)
    requires v in Extend(acc, r)
    ensures v != [] && v[..|v| - 1] in acc && v[|v| - 1] in r
    decreases |acc|
  {
    if v in AppendEach(acc[0], r) {
      var k :| 0 <= k < |r| && AppendEach(acc[0], r)[k] == v;
      assert v[..|v| - 1] == acc[0];
    } else {
      ExtendMemberShape(acc[1..], r, v);
    }
  }

  /** Every old vector plus every entry of r is in the extension. */
  lemma {:induction false} ExtendHasMember(acc: seq<seq<int>>, r: seq<int>, a: seq<int>, y: int)
    requires a in acc && y in r
    ensures a + [y] in Extend(acc, r)
    decreases |acc|
  {
    if a == acc[0] {
      var k :| 0 <= k < |r| && r[k] == y;
      assert AppendEach(acc[0], r)[k] == a + [y];
    } else {
      ExtendHasMember(acc[1..], r, a, y);
    }
  }

  lemma {:induction false} ProductMemberIsCombination(arrays: seq<seq<int>>, v: seq<int>)
    requires v in CartesianProduct(arrays)
    ensures IsCombination(v, arrays)
    decreases |arrays|
  {
    if arrays != [] {
      var n := |arrays| - 1;
      ExtendMemberShape(CartesianProduct(arrays[..n]), arrays[n], v);
      ProductMemberIsCombination(arrays[..n], v[..|v| - 1]);
    }
  }

  lemma {:induction false} CombinationIsProductMember(arrays: seq<seq<int>>, v: seq<int>)
    requires IsCombination(v, arrays)
    ensures v in CartesianProduct(arrays)
    decreases |arrays|
  {
    if arrays == [] {
      assert v == [];
    } else {
      var n := |arrays| - 1;
      assert IsCombination(v[..n], arrays[..n]);
      CombinationIsProductMember(arrays[..n], v[..n]);
      ExtendHasMember(CartesianProduct(arrays[..n]), arrays[n], v[..n], v[n]);
      assert v[..n] + [v[n]] == v;
    }
  }

  /** The product holds exactly the combinations: every vector it lists takes
      its i-th entry from the i-th array, and every such vector is listed. */
  lemma CartesianProductMembers(arrays: seq<seq<int>>, v: seq<int>)
    ensures v in CartesianProduct(arrays) <==> IsCombination(v, arrays)
  {
    if v in CartesianProduct(arrays) {
      ProductMemberIsCombination(arrays, v);
    }
    if IsCombination(v, arrays) {
      CombinationIsProductMember(arrays, v);
    }
  }

  /** Every coefficient vector has length d and entries in [-L, L]; every
      such vector is a coefficient vector. */
  lemma CoefficientMembers(dimension: nat, limit: int, v: seq<int>)
    ensures v in Coefficients(dimension, limit) <==>
              |v| == dimension && forall i :: 0 <= i < |v| ==> -limit <= v[i] <= limit
  {
    CartesianProductMembers(seq(dimension, _ => Range(limit)), v);
  }

  // --------------------------------------------------------------- ordering

  lemma {:induction false} LexLessIrreflexive(a: seq<int>)
    ensures !LexLess(a, a)
    decreases |a|
  {
    if a != [] {
      LexLessIrreflexive(a[1..]);
    }
  }

  /** Appending one entry to each side keeps a strict lexicographic order. */
  lemma {:induction false} LexLessAppend(a: seq<int>, b: seq<int>, x: int, y: int)
    requires LexLess(a, b)
    ensures LexLess(a + [x], b + [y])
    decreases |a|
  {
    assert (a + [x])[0] == a[0] && (b + [y])[0] == b[0];
    if a[0] == b[0] && !(a[0] < b[0]) {
      assert (a + [x])[1..] == a[1..] + [x];
      assert (b + [y])[1..] == b[1..] + [y];
      LexLessAppend(a[1..], b[1..], x, y);
    }
  }

  /** Two extensions of the same prefix are ordered by their last entry. */
  lemma {:induction false} LexLessLast(a: seq<int>, x: int, y: int)
    requires x < y
    ensures LexLess(a + [x], a + [y])
    decreases |a|
  {
    if a != [] {
      assert (a + [x])[1..] == a[1..] + [x];
      assert (a + [y])[1..] == a[1..] + [y];
      LexLessLast(a[1..], x, y);
    }
  }

  lemma {:induction false} ExtendAbove(v: seq<int>, x: int, acc: seq<seq<int>>, r: seq<int>)
    requires forall i :: 0 <= i < |acc| ==> LexLess(v, acc[i])
    ensures forall t :: 0 <= t < |Extend(acc, r)| ==> LexLess(v + [x], Extend(acc, r)[t])
    decreases |acc|
  {
    if acc != [] {
      ExtendAbove(v, x, acc[1..], r);
      var head := AppendEach(acc[0], r);
      forall k | 0 <= k < |head|
        ensures LexLess(v + [x], head[k])
      {
        LexLessAppend(v, acc[0], x, r[k]);
      }
    }
  }

  lemma {:induction false} ExtendSorted(acc: seq<seq<int>>, r: seq<int>)
    requires StrictlySorted(acc) && Increasing(r)
    ensures StrictlySorted(Extend(acc, r))
    decreases |acc|
  {
    if acc != [] {
      var head, tail := AppendEach(acc[0], r), Extend(acc[1..], r);
      ExtendSorted(acc[1..], r);
      ExtendAbove(acc[0], 0, acc[1..], r);
      forall a, b | 0 <= a < b < |head + tail|
        ensures LexLess((head + tail)[a], (head + tail)[b])
      {
        if b < |head| {
          LexLessLast(acc[0], r[a], r[b]);
        } else if a < |head| {
          ExtendAbove(acc[0], r[a], acc[1..], r);
          assert LexLess(acc[0] + [r[a]], tail[b - |head|]);
        } else {
          assert LexLess(tail[a - |head|], tail[b - |head|]);
        }
      }
    }
  }

  /** If every array is strictly increasing, the product lists its vectors in
      strictly increasing lexicographic order, first coordinate most significant. */
  lemma {:induction false} CartesianProductSorted(arrays: seq<seq<int>>)
    requires forall i :: 0 <= i < |arrays| ==> Increasing(arrays[i])
    ensures StrictlySorted(CartesianProduct(arrays))
    decreases |arrays|
  {
    if arrays != [] {
      var n := |arrays| - 1;
      CartesianProductSorted(arrays[..n]);
      ExtendSorted(CartesianProduct(arrays[..n]), arrays[n]);
    }
  }

  /** The coefficient vectors appear in strict lexicographic order, and so
      no vector appears twice. */
  lemma CoefficientsSortedAndDistinct(dimension: nat, limit: int)
    ensures StrictlySorted(Coefficients(dimension, limit))
    ensures forall a, b :: 0 <= a < b < |Coefficients(dimension, limit)| ==>
              Coefficients(dimension, limit)[a] != Coefficients(dimension, limit)[b]
  {
    var cs := Coefficients(dimension, limit);
    CartesianProductSorted(seq(dimension, _ => Range(limit)));
    forall a, b | 0 <= a < b < |cs|
      ensures cs[a] != cs[b]
    {
      LexLessIrreflexive(cs[a]);
    }
  }

  /** L = 0 yields the single all-zero vector; d = 0 yields one empty vector. */
  lemma DegenerateCoefficients(dimension: nat, limit: int)
    ensures Coefficients(dimension, 0) == [Zeros(dimension)]
    ensures Coefficients(0, limit) == [[]]
  {
    var cs := Coefficients(dimension, 0);
    CoefficientCount(dimension, 0);
    assert Pow(1, dimension) == 1 by { PowOne(dimension); }
    CoefficientMembers(dimension, 0, cs[0]);
    assert cs[0] in cs;
    assert cs[0] == Zeros(dimension);
  }

  lemma {:induction false} PowOne(n: nat)
    ensures Pow(1, n) == 1
  {
    if n > 0 {
      PowOne(n - 1);
    }
  }

  lemma AppendEachOfThree(x: seq<int>, r: seq<int>)
    requires r == [-1, 0, 1]
    ensures AppendEach(x, r) == [x + [-1], x + [0], x + [1]]
  {
  }

  lemma ExtendSingletons(r: seq<int>)
    requires r == [-1, 0, 1]
    ensures Extend([[]], r) == [[-1], [0], [1]]
  {
    AppendEachOfThree([], r);
    assert [] + [-1] == [-1] && [] + [0] == [0] && [] + [1] == [1];
    assert Extend([[]], r) == AppendEach([], r) + Extend([], r);
  }

  lemma ExtendPairs(r: seq<int>)
    requires r == [-1, 0, 1]
    ensures Extend([[-1], [0], [1]], r) ==
      [[-1, -1], [-1, 0], [-1, 1], [0, -1], [0, 0], [0, 1], [1, -1], [1, 0], [1, 1]]
  {
    var one: seq<seq<int>> := [[-1], [0], [1]];
    AppendEachOfThree([-1], r);
    AppendEachOfThree([0], r);
    AppendEachOfThree([1], r);
    assert [-1] + [-1] == [-1, -1] && [-1] + [0] == [-1, 0] && [-1] + [1] == [-1, 1];
    assert [0] + [-1] == [0, -1] && [0] + [0] == [0, 0] && [0] + [1] == [0, 1];
    assert [1] + [-1] == [1, -1] && [1] + [0] == [1, 0] && [1] + [1] == [1, 1];
    assert Extend(one[2..], r) == AppendEach([1], r) by {
      assert |one[2..][1..]| == 0;
    }
    assert Extend(one[1..], r) == AppendEach([0], r) + AppendEach([1], r) by {
      assert one[1..][1..] == one[2..];
    }
  }

  /** d = 2, L = 1: the nine coefficient vectors in lexicographic order. */
  lemma CoefficientsTwoByOne()
    ensures Coefficients(2, 1) ==
      [[-1, -1], [-1, 0], [-1, 1], [0, -1], [0, 0], [0, 1], [1, -1], [1, 0], [1, 1]]
  {
    var r := Range(1);
    assert r == [-1, 0, 1];
    var arrays := seq(2, _ => Range(1));
    assert arrays[..1][..0] == [] && arrays[..1][0] == r && arrays[1] == r && arrays[..1] != [];
    ExtendSingletons(r);
    assert CartesianProduct(arrays[..1]) == [[-1], [0], [1]];
    ExtendPairs(r);
  }
}
