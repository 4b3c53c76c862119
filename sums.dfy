/**
 * Finite double sums of vectors, `sum over i < k of sum over j < n of
 * w(i, j)`, and the fact that a square double sum of an antisymmetric
 * table is zero.  The gravity model uses it with `w(i, j)` the mass of
 * body `i` times the pull of body `j` on it.
 */
module Sums {
  import opened Vectors

  /** `w(i, 0) + ... + w(i, n - 1)`. */
  function Row(w: (nat, nat) -> Vec3, i: nat, n: nat): Vec3 {
    if n == 0 then Zero else Add(Row(w, i, n - 1), w(i, n - 1))
  }

  /** `w(0, j) + ... + w(k - 1, j)`. */
  function Col(w: (nat, nat) -> Vec3, j: nat, k: nat): Vec3 {
    if k == 0 then Zero else Add(Col(w, j, k - 1), w(k - 1, j))
  }

  /** `Row(w, 0, n) + ... + Row(w, k - 1, n)`. */
  function Rows(w: (nat, nat) -> Vec3, k: nat, n: nat): Vec3 {
    if k == 0 then Zero else Add(Rows(w, k - 1, n), Row(w, k - 1, n))
  }

  /** `w(i, j) == -w(j, i)` for every pair of indices below `n`. */
  ghost predicate Antisymmetric(w: (nat, nat) -> Vec3, n: nat) {
    forall i: nat, j: nat :: i < n && j < n ==> w(i, j) == Neg(w(j, i))
  }

  /** In an antisymmetric table, a column prefix cancels the matching row prefix. */
  lemma {:induction false} ColOpposesRow(w: (nat, nat) -> Vec3, n: nat, j: nat, k: nat)
    requires Antisymmetric(w, n) && j < n && k <= n
    ensures Col(w, j, k) == Neg(Row(w, j, k))
  {
    if k > 0 {
      ColOpposesRow(w, n, j, k - 1);
      assert w(k - 1, j) == Neg(w(j, k - 1));
    }
  }

  /** Widening every row by one column adds that column to the total. */
  lemma {:induction false} RowsExtend(w: (nat, nat) -> Vec3, k: nat, n: nat)
    ensures Rows(w, k, n + 1) == Add(Rows(w, k, n), Col(w, n, k))
  {
    if k > 0 {
      RowsExtend(w, k - 1, n);
    }
  }

  /** The square double sum of an antisymmetric table is zero. */
  lemma {:induction false} AntisymmetricSumZero(w: (nat, nat) -> Vec3, n: nat)
    requires Antisymmetric(w, n)
    ensures Rows(w, n, n) == Zero
  {
    if n > 0 {
      var m := n - 1;
      assert Antisymmetric(w, m);
      AntisymmetricSumZero(w, m);
      RowsExtend(w, m, m);
      ColOpposesRow(w, n, m, m);
      assert w(m, m) == Neg(w(m, m));
    }
  }
}
