/** How many different resamples a bootstrap can draw: the number `_distinct_resamples` of
    `interstellar/stats.py` reports beside every interval. */
module Resamples {
  import opened Common
  import opened Binomial

  /** What is reported for `n` samples. */
  function DistinctResamples(n: nat): Option<nat> { if n == 0 then None else Some(Comb(2 * n - 1, n)) }

  /** `k` draws with replacement from `m` samples. */
  predicate IsDraw(draw: seq<nat>, m: nat, k: nat) { |draw| == k && forall i | 0 <= i < k :: draw[i] < m }

  /** Some sequence of draws yields the outcome. */
  ghost predicate Drawn(m: nat, k: nat, s: multiset<nat>) {
    exists draw: seq<nat> :: IsDraw(draw, m, k) && multiset(draw) == s
  }

  function WithOne(s: multiset<nat>, x: nat): multiset<nat> { s + multiset{x} }

  /** Each outcome with sample `x` drawn once more. */
  ghost function Extended(sets: set<multiset<nat>>, x: nat): set<multiset<nat>> { set s | s in sets :: WithOne(s, x) }

  /** The outcomes of `k` draws from `m` samples, the order of the draws forgotten: those that never
      draw the last sample, and those that draw it once more than one with a draw less. */
  ghost function Outcomes(m: nat, k: nat): set<multiset<nat>> {
    if k == 0 then {multiset{}}
    else if m == 0 then {}
    else Outcomes(m - 1, k) + Extended(Outcomes(m, k - 1), m - 1)
  }

  lemma ExtendedMembers(sets: set<multiset<nat>>, x: nat, s: multiset<nat>)
    ensures s in Extended(sets, x) <==> x in s && s - multiset{x} in sets
  {
    if x in s { assert s == WithOne(s - multiset{x}, x); }
    if s in Extended(sets, x) {
      var t :| t in sets && s == WithOne(t, x);
      assert s - multiset{x} == t;
    }
  }

  ghost predicate IsOutcome(s: multiset<nat>, m: nat, k: nat) { |s| == k && forall x | x in s :: x < m }

  lemma OutcomeStep(s: multiset<nat>, m: nat, k: nat)
    requires m > 0 && k > 0
    ensures IsOutcome(s, m, k) <==> IsOutcome(s, m - 1, k) || (m - 1 in s && IsOutcome(s - multiset{m - 1}, m, k - 1))
  {
    if m - 1 in s { assert s == WithOne(s - multiset{m - 1}, m - 1); }
  }

  lemma OutcomesUnfold(m: nat, k: nat)
    requires m > 0 && k > 0
    ensures Outcomes(m, k) == Outcomes(m - 1, k) + Extended(Outcomes(m, k - 1), m - 1)
  {
  }

  lemma OutcomesBase(m: nat, k: nat, s: multiset<nat>)
    requires m == 0 || k == 0
    ensures |Outcomes(m, k)| == if k == 0 then 1 else 0
    ensures s in Outcomes(m, k) <==> IsOutcome(s, m, k)
  {
    if |s| == k > 0 { var x :| x in s; }
  }

  lemma {:induction false} OutcomeMembers(m: nat, k: nat, s: multiset<nat>)
    ensures s in Outcomes(m, k) <==> IsOutcome(s, m, k)
  {
    hide Outcomes, Extended, IsOutcome;
    if k == 0 || m == 0 {
      OutcomesBase(m, k, s);
    } else {
      OutcomeMembers(m - 1, k, s);
      OutcomeMembers(m, k - 1, s - multiset{m - 1});
      ExtendedMembers(Outcomes(m, k - 1), m - 1, s);
      OutcomeStep(s, m, k);
      OutcomesUnfold(m, k);
    }
  }

  lemma {:induction false} Arranged(s: multiset<nat>) returns (draw: seq<nat>)
    ensures multiset(draw) == s
    decreases |s|
  {
    if s == multiset{} {
      draw := [];
    } else {
      var x :| x in s;
      var rest := Arranged(s - multiset{x});
      draw := rest + [x];
    }
  }

  /** The outcomes are exactly what some sequence of draws yields. */
  lemma {:induction false} OutcomesAreDrawn(m: nat, k: nat, s: multiset<nat>)
    ensures s in Outcomes(m, k) <==> Drawn(m, k, s)
  {
    OutcomeMembers(m, k, s);
    if s in Outcomes(m, k) {
      var draw := Arranged(s);
      assert |draw| == |multiset(draw)| == k;
      forall i | 0 <= i < k ensures draw[i] < m { assert draw[i] in multiset(draw); }
      assert IsDraw(draw, m, k);
    }
    if Drawn(m, k, s) {
      var draw: seq<nat> :| IsDraw(draw, m, k) && multiset(draw) == s;
      forall x | x in s ensures x < m { assert x in draw; }
    }
  }

  /** Drawing one sample once more is undone by taking it out. */
  lemma {:induction false} ExtendedCount(sets: set<multiset<nat>>, x: nat)
    ensures |Extended(sets, x)| == |sets|
  {
    if sets == {} {
      ExtendedNone(x);
    } else {
      hide Extended;
      var one :| one in sets;
      var rest := sets - {one};
      ExtendedCount(rest, x);
      ExtendedNew(rest, one, x);
      assert sets == rest + {one};
    }
  }

  lemma ExtendedNone(x: nat)
    ensures Extended({}, x) == {}
  {
  }

  lemma ExtendedNew(rest: set<multiset<nat>>, one: multiset<nat>, x: nat)
    requires one !in rest
    ensures WithOne(one, x) !in Extended(rest, x)
    ensures Extended(rest + {one}, x) == Extended(rest, x) + {WithOne(one, x)}
  {
    ExtendedMembers(rest, x, WithOne(one, x));
    assert WithOne(one, x) - multiset{x} == one;
  }

  lemma DisjointSize<T>(a: set<T>, b: set<T>)
    requires a !! b
    ensures |a + b| == |a| + |b|
  {
  }

  lemma LastIsNew(m: nat, k: nat)
    requires m > 0 && k > 0
    ensures Outcomes(m - 1, k) !! Extended(Outcomes(m, k - 1), m - 1)
  {
    hide Outcomes, Extended;
    var without, extended := Outcomes(m - 1, k), Extended(Outcomes(m, k - 1), m - 1);
    forall s | s in without ensures s !in extended {
      OutcomeMembers(m - 1, k, s);
      ExtendedMembers(Outcomes(m, k - 1), m - 1, s);
    }
  }

  lemma Pascal(n: nat, k: nat)
    requires n > 0
    ensures Comb(n, k) == Comb(n - 1, k) + Comb(n - 1, k - 1)
  {
  }

  lemma {:induction false} OutcomeCount(m: nat, k: nat)
    ensures |Outcomes(m, k)| == if m > 0 then Comb(m + k - 1, k) else if k == 0 then 1 else 0
  {
    hide Outcomes, Extended, Comb;
    if k == 0 || m == 0 {
      OutcomesBase(m, k, multiset{});
      if m > 0 { CombZero(m - 1); }
    } else {
      OutcomeCount(m - 1, k);
      OutcomeCount(m, k - 1);
      ExtendedCount(Outcomes(m, k - 1), m - 1);
      LastIsNew(m, k);
      DisjointSize(Outcomes(m - 1, k), Extended(Outcomes(m, k - 1), m - 1));
      OutcomesUnfold(m, k);
      if m == 1 { CombOutside(k - 1, k); }
      Pascal(m + k - 1, k);
    }
  }

  /** The reported number is the number of different resamples: multisets of `n` draws from `n`
      samples. Nothing is reported without samples. */
  lemma {:induction false} DistinctResamplesCounted(n: nat)
    ensures n > 0 ==> DistinctResamples(n) == Some(|Outcomes(n, n)|)
    ensures forall s :: s in Outcomes(n, n) <==> Drawn(n, n, s)
    ensures DistinctResamples(n).None? <==> n == 0
  {
    OutcomeCount(n, n);
    forall s ensures s in Outcomes(n, n) <==> Drawn(n, n, s) {
      OutcomesAreDrawn(n, n, s);
    }
  }
}
