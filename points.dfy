/** Lattice point generation: each of the first MAX_POINTS coefficient
    vectors c is mapped to the point c . B, i.e. point[j] = sum_i c[i] * B[i][j]. */
module PointGeneration {
  import opened Matrices
  import opened Enumeration

  /** Hard cap on the number of points produced by one generation. */
  const MAX_POINTS: nat := 50000

  /** sum_{i < n} coeff[i] * basis[i][j]: coordinate j after n basis rows. */
  function ColumnSum(coeff: seq<int>, basis: Matrix, j: nat, n: nat): real
    requires n <= |coeff| && n <= |basis|
    requires forall i :: 0 <= i < n ==> j < |basis[i]|
  {
    if n == 0 then 0.0 else ColumnSum(coeff, basis, j, n - 1) + (coeff[n - 1] as real) * basis[n - 1][j]
  }

  /** The lattice point with coefficient vector `coeff`. */
  function LatticePoint(coeff: seq<int>, basis: Matrix): seq<real>
    requires IsSquare(basis, |coeff|)
  {
    seq(|coeff|, j requires 0 <= j < |coeff| => ColumnSum(coeff, basis, j, |coeff|))
  }

  /** `coefficients.slice(0, MAX_POINTS)`. */
  function LimitedCoefficients(dimension: nat, limit: int): seq<seq<int>> {
    var cs := Coefficients(dimension, limit);
    cs[..Min(|cs|, MAX_POINTS)]
  }

  lemma LimitedCoefficientShape(dimension: nat, limit: int)
    ensures forall k :: 0 <= k < |LimitedCoefficients(dimension, limit)| ==>
              |LimitedCoefficients(dimension, limit)[k]| == dimension
  {
    var cs := Coefficients(dimension, limit);
    forall k | 0 <= k < |LimitedCoefficients(dimension, limit)|
      ensures |LimitedCoefficients(dimension, limit)[k]| == dimension
    {
      assert cs[k] in cs;
      CoefficientMembers(dimension, limit, cs[k]);
    }
  }

  /** The points `generateLatticePoints` returns, in enumeration order. */
  function LatticePoints(dimension: nat, basis: Matrix, limit: int): seq<seq<real>>
    requires IsSquare(basis, dimension)
  {
    var lc := LimitedCoefficients(dimension, limit);
    LimitedCoefficientShape(dimension, limit);
    seq(|lc|, k requires 0 <= k < |lc| => LatticePoint(lc[k], basis))
  }

  /** The body of `generateLatticePoints`: enumerate, cap, and accumulate each
      point coordinate by coordinate, row by row. */
  method GenerateLatticePoints(dimension: nat, basis: Matrix, limit: int) returns (points: seq<seq<real>>)
    requires IsSquare(basis, dimension)
    ensures points == LatticePoints(dimension, basis, limit)
  {
    var range := Range(limit);
    var coefficients := CartesianProduct(seq(dimension, _ => range));
    assert coefficients == Coefficients(dimension, limit);
    var limitedCoefficients := coefficients[..Min(|coefficients|, MAX_POINTS)];
    LimitedCoefficientShape(dimension, limit);
    assert limitedCoefficients == LimitedCoefficients(dimension, limit);
    points := [];
    for t := 0 to |limitedCoefficients|
      invariant |points| == t
      invariant forall k :: 0 <= k < t ==> points[k] == LatticePoint(limitedCoefficients[k], basis)
    {
      var coeff := limitedCoefficients[t];
      assert |coeff| == dimension;
      var point := new real[dimension](_ => 0.0);
      for i := 0 to dimension
        invariant forall j :: 0 <= j < dimension ==> point[j] == ColumnSum(coeff, basis, j, i)
      {
        for j := 0 to dimension
          invariant forall jj :: 0 <= jj < j ==> point[jj] == ColumnSum(coeff, basis, jj, i + 1)
          invariant forall jj :: j <= jj < dimension ==> point[jj] == ColumnSum(coeff, basis, jj, i)
        {
          point[j] := point[j] + (coeff[i] as real) * basis[i][j];
        }
      }
      assert point[..] == LatticePoint(coeff, basis);
      points := points + [point[..]];
    }
  }

  // ------------------------------------------------------------- properties

  /** The number of points is min((2L+1)^d, MAX_POINTS); point k is the image
      of the k-th coefficient vector and has d coordinates. */
  lemma PointCountAndPrefix(dimension: nat, basis: Matrix, limit: int)
    requires IsSquare(basis, dimension)
    ensures |LatticePoints(dimension, basis, limit)| == Min(Pow(RangeLength(limit), dimension), MAX_POINTS)
    ensures forall k :: 0 <= k < |LatticePoints(dimension, basis, limit)| ==>
              |Coefficients(dimension, limit)[k]| == dimension &&
              LatticePoints(dimension, basis, limit)[k] == LatticePoint(Coefficients(dimension, limit)[k], basis) &&
              |LatticePoints(dimension, basis, limit)[k]| == dimension
  {
    CoefficientCount(dimension, limit);
    LimitedCoefficientShape(dimension, limit);
  }

  /** d = 3, L = 10: all 21^3 = 9261 candidates fit under the cap. */
  lemma NoCapAtDimensionThreeLimitTen(basis: Matrix)
    requires IsSquare(basis, 3)
    ensures |LatticePoints(3, basis, 10)| == 9261
  {
    PointCountAndPrefix(3, basis, 10);
    assert Pow(RangeLength(10), 3) == 9261;
  }

  function VecAdd(a: seq<int>, b: seq<int>): (r: seq<int>)
    requires |a| == |b|
    ensures |r| == |a| && forall k :: 0 <= k < |a| ==> r[k] == a[k] + b[k]
  {
    seq(|a|, k requires 0 <= k < |a| => a[k] + b[k])
  }

  function RealAdd(a: seq<real>, b: seq<real>): (r: seq<real>)
    requires |a| == |b|
    ensures |r| == |a| && forall k :: 0 <= k < |a| ==> r[k] == a[k] + b[k]
  {
    seq(|a|, k requires 0 <= k < |a| => a[k] + b[k])
  }

  lemma {:induction false} ColumnSumAdditive(c1: seq<int>, c2: seq<int>, basis: Matrix, j: nat, n: nat)
    requires |c1| == |c2| && n <= |c1| && n <= |basis|
    requires forall i :: 0 <= i < n ==> j < |basis[i]|
    ensures ColumnSum(VecAdd(c1, c2), basis, j, n) == ColumnSum(c1, basis, j, n) + ColumnSum(c2, basis, j, n)
  {
    if n > 0 {
      ColumnSumAdditive(c1, c2, basis, j, n - 1);
      var x := basis[n - 1][j];
      assert ((c1[n - 1] + c2[n - 1]) as real) * x == (c1[n - 1] as real) * x + (c2[n - 1] as real) * x;
    }
  }

  /** The point map is linear: the point of c1 + c2 is the sum of the points. */
  lemma LatticePointLinear(c1: seq<int>, c2: seq<int>, basis: Matrix)
    requires |c1| == |c2| && IsSquare(basis, |c1|)
    ensures LatticePoint(VecAdd(c1, c2), basis) == RealAdd(LatticePoint(c1, basis), LatticePoint(c2, basis))
  {
    forall j | 0 <= j < |c1|
      ensures LatticePoint(VecAdd(c1, c2), basis)[j] == LatticePoint(c1, basis)[j] + LatticePoint(c2, basis)[j]
    {
      ColumnSumAdditive(c1, c2, basis, j, |c1|);
    }
  }

  lemma {:induction false} ColumnSumOfZeros(c: seq<int>, basis: Matrix, j: nat, n: nat)
    requires n <= |c| && n <= |basis| && forall i :: 0 <= i < n ==> j < |basis[i]|
    requires forall i :: 0 <= i < |c| ==> c[i] == 0
    ensures ColumnSum(c, basis, j, n) == 0.0
  {
    if n > 0 {
      ColumnSumOfZeros(c, basis, j, n - 1);
    }
  }

  /** The zero coefficient vector is sent to the origin. */
  lemma ZeroToOrigin(dimension: nat, basis: Matrix)
    requires IsSquare(basis, dimension)
    ensures LatticePoint(Zeros(dimension), basis) == seq(dimension, _ => 0.0)
  {
    forall j | 0 <= j < dimension
      ensures LatticePoint(Zeros(dimension), basis)[j] == 0.0
    {
      ColumnSumOfZeros(Zeros(dimension), basis, j, dimension);
    }
  }

  lemma {:induction false} ColumnSumIdentity(c: seq<int>, j: nat, n: nat)
    requires n <= |c| && j < |c|
    ensures ColumnSum(c, Identity(|c|), j, n) == if j < n then c[j] as real else 0.0
  {
    if n > 0 {
      ColumnSumIdentity(c, j, n - 1);
    }
  }

  /** Under the identity basis every point equals its coefficient vector. */
  lemma IdentityPointIsCoefficient(c: seq<int>)
    ensures LatticePoint(c, Identity(|c|)) == ToReal(c)
  {
    forall j | 0 <= j < |c|
      ensures LatticePoint(c, Identity(|c|))[j] == c[j] as real
    {
      ColumnSumIdentity(c, j, |c|);
    }
  }

  lemma ScaledBasisPoint(c: seq<int>)
    requires |c| == 2
    ensures LatticePoint(c, [[2.0, 0.0], [0.0, 1.0]]) == [2.0 * (c[0] as real), c[1] as real]
  {
    var b: Matrix := [[2.0, 0.0], [0.0, 1.0]];
    assert b[0][0] == 2.0 && b[1][0] == 0.0 && b[0][1] == 0.0 && b[1][1] == 1.0;
    assert ColumnSum(c, b, 0, 1) == 2.0 * (c[0] as real);
    assert ColumnSum(c, b, 0, 2) == 2.0 * (c[0] as real);
    assert ColumnSum(c, b, 1, 1) == 0.0;
    assert ColumnSum(c, b, 1, 2) == c[1] as real;
  }

  /** Basis [[2,0],[0,1]] with L = 1 gives the nine points {-2,0,2} x {-1,0,1}. */
  lemma ScaledBasisPoints()
    ensures LatticePoints(2, [[2.0, 0.0], [0.0, 1.0]], 1) ==
      [[-2.0, -1.0], [-2.0, 0.0], [-2.0, 1.0], [0.0, -1.0], [0.0, 0.0], [0.0, 1.0],
       [2.0, -1.0], [2.0, 0.0], [2.0, 1.0]]
  {
    var b: Matrix := [[2.0, 0.0], [0.0, 1.0]];
    CoefficientsTwoByOne();
    var cs := Coefficients(2, 1);
    assert LimitedCoefficients(2, 1) == cs;
    var ps := LatticePoints(2, b, 1);
    assert |ps| == 9;
    forall k | 0 <= k < 9
      ensures ps[k] == [2.0 * (cs[k][0] as real), cs[k][1] as real]
    {
      ScaledBasisPoint(cs[k]);
    }
  }
}
