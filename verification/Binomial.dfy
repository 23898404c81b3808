/** `math.comb` by Pascal's rule, and the tail sums the exact sign test adds up. */
module Binomial {
  import opened Common

  function Comb(n: nat, k: int): nat {
    if k < 0 then 0
    else if n == 0 then (if k == 0 then 1 else 0)
    else Comb(n - 1, k) + Comb(n - 1, k - 1)
  }

  /** The number of ways to pick at most `a` of `k` things. */
  function Tail(k: nat, a: int): nat
    decreases if a < 0 then 0 else a + 1
  {
    if a < 0 then 0 else Comb(k, a) + Tail(k, a - 1)
  }

  lemma {:induction false} TailPascal(k: nat, a: int)
    requires k > 0
    ensures Tail(k, a) == Tail(k - 1, a) + Tail(k - 1, a - 1)
    decreases if a < 0 then 0 else a + 1
  {
    if a >= 0 {
      TailPascal(k, a - 1);
    }
  }

  lemma {:induction false} TailZero(a: int)
    ensures Tail(0, a) == if a < 0 then 0 else 1
    decreases if a < 0 then 0 else a + 1
  {
    if a >= 0 { TailZero(a - 1); }
  }

  /** Picking at most `a` and picking at least `a + 1` are complementary, and by
      symmetry the latter is picking at most `k - 1 - a`. */
  lemma {:induction false} TailComplement(k: nat, a: int)
    ensures Tail(k, a) + Tail(k, k - 1 - a) == Pow2(k)
  {
    if k == 0 {
      TailZero(a);
      TailZero(-1 - a);
    } else {
      TailPascal(k, a);
      TailPascal(k, k - 1 - a);
      TailComplement(k - 1, a);
      TailComplement(k - 1, a - 1);
    }
  }

  lemma {:induction false} TailMonotone(k: nat, a: int, b: int)
    requires a <= b
    ensures Tail(k, a) <= Tail(k, b)
    decreases b - a
  {
    if a < b {
      TailMonotone(k, a, b - 1);
    }
  }

  lemma {:induction false} CombZero(n: nat)
    ensures Comb(n, 0) == 1
  {
    if n > 0 { CombZero(n - 1); }
  }

  lemma {:induction false} CombPositive(n: nat, k: nat)
    requires k <= n
    ensures Comb(n, k) >= 1
  {
    if n == 0 {
    } else if k == n {
      CombPositive(n - 1, k - 1);
    } else {
      CombPositive(n - 1, k);
    }
  }

  lemma {:induction false} CombOutside(n: nat, k: int)
    requires k > n
    ensures Comb(n, k) == 0
  {
    if n > 0 {
      CombOutside(n - 1, k);
      CombOutside(n - 1, k - 1);
    }
  }
}
