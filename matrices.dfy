/** Shared vocabulary of the lattice engine: basis matrices as rows of reals,
    the identity basis, and the small numeric helpers the other modules use. */
module Matrices {

  /** A basis: row i is the i-th basis vector. */
  type Matrix = seq<seq<real>>

  function Min(a: int, b: int): int {
    if a <= b then a else b
  }

  /** `m` is an n-by-n matrix. */
  predicate IsSquare(m: Matrix, n: nat) {
    |m| == n && forall i :: 0 <= i < n ==> |m[i]| == n
  }

  /** The n-by-n identity: ones on the diagonal, zeros elsewhere. */
  function Identity(n: nat): (m: Matrix)
    ensures IsSquare(m, n)
    ensures forall i, j :: 0 <= i < n && 0 <= j < n ==> m[i][j] == (if i == j then 1.0 else 0.0)
  {
    seq(n, i => seq(n, j => if i == j then 1.0 else 0.0))
  }

  /** Integer vector seen as a real vector. */
  function ToReal(v: seq<int>): (r: seq<real>)
    ensures |r| == |v| && forall k :: 0 <= k < |v| ==> r[k] == v[k] as real
  {
    seq(|v|, k requires 0 <= k < |v| => v[k] as real)
  }

  /** The vector of n zeros. */
  function Zeros(n: nat): (z: seq<int>)
    ensures |z| == n && forall k :: 0 <= k < n ==> z[k] == 0
  {
    seq(n, _ => 0)
  }

  /** 2 to the power n. */
  function Pow2(n: nat): (p: nat)
    ensures p >= 1
  {
    if n == 0 then 1 else 2 * Pow2(n - 1)
  }

  /** b to the power n. */
  function Pow(b: nat, n: nat): nat {
    if n == 0 then 1 else b * Pow(b, n - 1)
  }
}
