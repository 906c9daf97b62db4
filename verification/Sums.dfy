/** Sums of natural numbers over a range of indices. */
module Sums {

  ghost function SumOf(k: nat, n: nat, g: nat -> nat): nat
    decreases n - k
  {
    if k >= n then 0 else g(k) + SumOf(k + 1, n, g)
  }

  ghost function SumOfSums(n: nat, m: nat, g: (nat, nat) -> nat): nat { SumOf(0, n, i => SumOf(0, m, j => g(i, j))) }

  lemma {:induction false} SameTerms(k: nat, n: nat, g: nat -> nat, h: nat -> nat)
    requires forall i :: k <= i < n ==> g(i) == h(i)
    ensures SumOf(k, n, g) == SumOf(k, n, h)
    decreases n - k
  {
    if k < n {
      SameTerms(k + 1, n, g, h);
    }
  }

  /** A sum with one term that may be positive. */
  lemma {:induction false} OneTerm(k: nat, n: nat, g: nat -> nat, m: nat)
    requires forall i :: k <= i < n && i != m ==> g(i) == 0
    ensures SumOf(k, n, g) == if k <= m < n then g(m) else 0
    decreases n - k
  {
    if k < n {
      OneTerm(k + 1, n, g, m);
    }
  }

  lemma {:induction false} SumOfBoth(k: nat, n: nat, g: nat -> nat, h: nat -> nat, both: nat -> nat)
    requires forall i :: k <= i < n ==> both(i) == g(i) + h(i)
    ensures SumOf(k, n, both) == SumOf(k, n, g) + SumOf(k, n, h)
    decreases n - k
  {
    if k < n {
      SumOfBoth(k + 1, n, g, h, both);
    }
  }

  /** Rows first or columns first. */
  lemma {:induction false} Exchange(n: nat, m: nat, g: (nat, nat) -> nat, h: (nat, nat) -> nat)
    requires forall i, j :: 0 <= i < n && 0 <= j < m ==> g(i, j) == h(j, i)
    ensures SumOfSums(n, m, g) == SumOfSums(m, n, h)
  {
    ExchangeFrom(0, n, m, g, h);
  }

  lemma {:induction false} ExchangeFrom(k: nat, n: nat, m: nat, g: (nat, nat) -> nat, h: (nat, nat) -> nat)
    requires k <= n && forall i, j :: 0 <= i < n && 0 <= j < m ==> g(i, j) == h(j, i)
    ensures SumOf(k, n, i => SumOf(0, m, j => g(i, j))) == SumOf(0, m, j => SumOf(k, n, i => h(j, i)))
    decreases n - k
  {
    if k == n {
      OneTerm(0, m, j => SumOf(k, n, i => h(j, i)), m);
    } else {
      ExchangeFrom(k + 1, n, m, g, h);
      SameTerms(0, m, j => g(k, j), j => h(j, k));
      SumOfBoth(0, m, j => h(j, k), j => SumOf(k + 1, n, i => h(j, i)), j => SumOf(k, n, i => h(j, i)));
    }
  }
}
