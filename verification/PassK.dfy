/** The combinatorial `pass^k` estimator of `interstellar/stats.py`. */
module PassK {
  import opened Common
  import opened Binomial

  datatype Note = NoNote | InsufficientSamples | KExceedsN | NEqualsK

  datatype PassResult = PassResult(value: Option<real>, n: nat, c: nat, k: nat, degenerate: bool, note: Note)

  function Successes(trials: seq<bool>): nat {
    if trials == [] then 0 else Successes(trials[..|trials| - 1]) + if trials[|trials| - 1] then 1 else 0
  }

  /** `C(c,k) / C(n,k)`; `k` defaults to the number of trials. */
  function PassK(trials: seq<bool>, k: Option<nat>): PassResult {
    var n, c := |trials|, Successes(trials);
    var kk := if k.None? then n else k.value;
    if n == 0 then PassResult(None, n, c, kk, false, InsufficientSamples)
    else if kk > n then PassResult(None, n, c, kk, false, KExceedsN)
    else
      CombPositive(n, kk);
      PassResult(Some(Comb(c, kk) as real / Comb(n, kk) as real), n, c, kk, n == kk, if n == kk then NEqualsK else NoNote)
  }

  // --- what the estimator means ------------------------------------------------

  /** All `k`-element subsets. */
  ghost function KSubsets(s: set<nat>, k: nat): set<set<nat>> { set a | a <= s && |a| == k }

  ghost function Trials(n: nat): (r: set<nat>)
    ensures |r| == n
    ensures forall i: nat :: i in r <==> i < n
  {
    if n == 0 then {} else Trials(n - 1) + {n - 1}
  }

  ghost function Passed(trials: seq<bool>): set<nat> { set i: nat | i < |trials| && trials[i] :: i }

  /** The `k`-element subsets of the trials in which every trial succeeded. */
  ghost function AllPassing(trials: seq<bool>, k: nat): set<set<nat>> {
    set a | a in KSubsets(Trials(|trials|), k) && forall i | i in a :: i < |trials| && trials[i]
  }

  ghost function AddToAll(x: nat, ss: set<set<nat>>): set<set<nat>> { set a | a in ss :: a + {x} }

  lemma {:induction false} AddToAllSize(x: nat, ss: set<set<nat>>)
    requires forall a | a in ss :: x !in a
    ensures |AddToAll(x, ss)| == |ss|
  {
    if ss != {} {
      var a :| a in ss;
      var rest := ss - {a};
      AddToAllSize(x, rest);
      forall b | b in rest ensures b + {x} != a + {x} { AddInjective(x, a, b); }
      assert a + {x} !in AddToAll(x, rest);
      assert AddToAll(x, ss) == AddToAll(x, rest) + {a + {x}};
    }
  }

  lemma {:induction false} KSubsetsSplit(s: set<nat>, x: nat, k: nat)
    requires x in s && k > 0
    ensures KSubsets(s, k) == KSubsets(s - {x}, k) + AddToAll(x, KSubsets(s - {x}, k - 1))
    ensures KSubsets(s - {x}, k) !! AddToAll(x, KSubsets(s - {x}, k - 1))
  {
    var with, without := AddToAll(x, KSubsets(s - {x}, k - 1)), KSubsets(s - {x}, k);
    forall a
      ensures a in KSubsets(s, k) <==> a in without + with
    {
      if a in KSubsets(s, k) && x in a {
        assert a - {x} in KSubsets(s - {x}, k - 1) && a == (a - {x}) + {x};
      }
    }
  }

  lemma {:induction false} KSubsetsPascal(s: set<nat>, x: nat, k: nat)
    requires x in s && k > 0
    ensures |KSubsets(s, k)| == |KSubsets(s - {x}, k)| + |KSubsets(s - {x}, k - 1)|
  {
    KSubsetsSplit(s, x, k);
    AddToAllSize(x, KSubsets(s - {x}, k - 1));
  }

  lemma {:induction false} KSubsetsBase(s: set<nat>, k: nat)
    requires k == 0 || s == {}
    ensures |KSubsets(s, k)| == if k == 0 then 1 else 0
  {
    assert KSubsets(s, k) == if k == 0 then {{}} else {};
  }

  lemma {:induction false} KSubsetsCount(s: set<nat>, k: nat)
    ensures |KSubsets(s, k)| == Comb(|s|, k)
    decreases |s|
  {
    if k == 0 || s == {} {
      KSubsetsBase(s, k);
      if k == 0 { CombZero(|s|); }
    } else {
      var x :| x in s;
      KSubsetsCount(s - {x}, k);
      KSubsetsCount(s - {x}, k - 1);
      KSubsetsPascal(s, x, k);
    }
  }

  lemma {:induction false} TrialCounts(trials: seq<bool>)
    ensures |Passed(trials)| == Successes(trials) <= |trials|
  {
    if trials == [] {
      assert Passed(trials) == {};
    } else {
      var n := |trials| - 1;
      var init := trials[..n];
      TrialCounts(init);
      assert Passed(trials) == Passed(init) + if trials[n] then {n} else {};
    }
  }

  /** The estimate is the fraction of `k`-element subsets of the trials that all succeeded. */
  lemma {:induction false} PassKIsSubsetFraction(trials: seq<bool>, k: nat)
    requires 0 < |trials| && k <= |trials|
    ensures |KSubsets(Trials(|trials|), k)| > 0
    ensures PassK(trials, Some(k)).value
         == Some(|AllPassing(trials, k)| as real / |KSubsets(Trials(|trials|), k)| as real)
  {
    TrialCounts(trials);
    KSubsetsCount(Trials(|trials|), k);
    KSubsetsCount(Passed(trials), k);
    CombPositive(|trials|, k);
    assert AllPassing(trials, k) == KSubsets(Passed(trials), k);
  }

  /** The other fields: how many trials were run and how many passed, and when there is no estimate. The
      estimate is flagged exactly when as many trials were asked for as were run. */
  lemma PassKReports(trials: seq<bool>, k: Option<nat>)
    ensures var r := PassK(trials, k);
            && r.n == |trials| && r.c == CountIf((passed: bool) => passed, trials)
            && r.k == (match k case Some(asked) => asked case None => |trials|)
            && (r.value.None? <==> trials == [] || r.k > |trials|)
            && (r.degenerate <==> r.value.Some? && r.k == |trials|)
            && (r.note == InsufficientSamples <==> trials == [])
            && (r.note == KExceedsN <==> trials != [] && r.k > |trials|)
            && (r.note == NEqualsK <==> r.degenerate)
  {
    SuccessesCounted(trials);
  }

  lemma {:induction false} SuccessesCounted(trials: seq<bool>)
    ensures Successes(trials) == CountIf((passed: bool) => passed, trials)
  {
    if trials != [] { SuccessesCounted(trials[..|trials| - 1]); }
  }

  // --- against the plug-in estimator -----------------------------------------------

  function Power(x: real, k: nat): real { if k == 0 then 1.0 else x * Power(x, k - 1) }

  lemma AbsorptionArithmetic(n: int, k: int, x: int, y: int, z: int)
    requires (k + 1) * x == (n - 1 - k) * y && k * y == (n - k) * z
    ensures (k + 1) * (x + y) == (n - k) * (y + z)
  {
    assert (k + 1) * (x + y) == (k + 1) * x + k * y + y;
    assert (n - k) * (y + z) == (n - 1 - k) * y + y + (n - k) * z;
  }

  lemma {:induction false} Absorption(n: nat, k: nat)
    ensures (k + 1) * Comb(n, k + 1) == (n - k) * Comb(n, k)
  {
    if n > 0 {
      Absorption(n - 1, k);
      if k > 0 { Absorption(n - 1, k - 1); }
      AbsorptionArithmetic(n, k, Comb(n - 1, k + 1), Comb(n - 1, k), Comb(n - 1, k - 1));
    } else if k == 0 {
      assert Comb(0, 1) == 0;
    }
  }

  function Ratio(c: nat, n: nat, k: nat): real
    requires k <= n
  {
    CombPositive(n, k);
    Comb(c, k) as real / Comb(n, k) as real
  }

  lemma {:induction false} RatioStep(c: nat, n: nat, k: nat)
    requires k < n
    ensures Ratio(c, n, k + 1) * (n - k) as real == Ratio(c, n, k) * (c - k) as real
  {
    CombPositive(n, k);
    CombPositive(n, k + 1);
    Absorption(c, k);
    Absorption(n, k);
    RatioStepInts(Comb(c, k), Comb(c, k + 1), Comb(n, k), Comb(n, k + 1), k + 1, c - k, n - k);
  }

  lemma {:induction false} RatioStepInts(a: nat, a': nat, b: nat, b': nat, k: int, u: int, v: int)
    requires b > 0 && b' > 0 && k > 0 && k * a' == u * a && k * b' == v * b
    ensures a' as real / b' as real * v as real == a as real / b as real * u as real
  {
    RealProduct(k, a');
    RealProduct(u, a);
    RealProduct(k, b');
    RealProduct(v, b);
    RatioStepReal(a as real, a' as real, b as real, b' as real, k as real, u as real, v as real);
  }

  lemma {:induction false} RatioStepReal(a: real, a': real, b: real, b': real, k: real, u: real, v: real)
    requires b > 0.0 && b' > 0.0 && k > 0.0 && k * a' == u * a && k * b' == v * b
    ensures a' / b' * v == a / b * u
  {
    var r, r' := a / b, a' / b';
    assert r * b == a && r' * b' == a';
    assert k * (r' * b') == u * (r * b);
    assert r' * (k * b') == (r * u) * b;
    assert (r' * v) * b == (r * u) * b;
    assert (r' * v - r * u) * b == 0.0;
  }

  lemma {:induction false} PowerSign(x: real, k: nat)
    requires x >= 0.0
    ensures Power(x, k) >= 0.0
    ensures x > 0.0 ==> Power(x, k) > 0.0
  {
    if k > 0 { PowerSign(x, k - 1); }
  }

  /** One more trial multiplies the estimate by at most `c / n`, by less once a trial is used up. */
  lemma {:induction false} ShrinkStep(r: real, r': real, rho: real, c: real, n: real, k: real)
    requires n > k >= 0.0 && 0.0 <= c <= n && rho * n == c && r >= 0.0
    requires r' * (n - k) == r * (c - k)
    ensures r' <= rho * r
    ensures r > 0.0 && k > 0.0 && c < n ==> r' < rho * r
  {
    assert (rho * r - r') * (n - k) == rho * r * n - rho * r * k - r * (c - k);
    assert rho * r * n == r * c;
    var gap := (1.0 - rho) * (r * k);
    assert (rho * r - r') * (n - k) == r * k - rho * r * k == gap;
    assert rho <= 1.0 && (c < n ==> rho < 1.0) by { assert (1.0 - rho) * n == n - c; }
    assert r * k >= 0.0;
    assert gap >= 0.0;
    SignOfFactor(rho * r - r', n - k, gap);
    if r > 0.0 && k > 0.0 && c < n {
      assert r * k > 0.0;
      assert gap > 0.0;
    }
  }

  lemma SignOfFactor(x: real, y: real, z: real)
    requires y > 0.0 && x * y == z
    ensures z >= 0.0 ==> x >= 0.0
    ensures z > 0.0 ==> x > 0.0
  {
  }

  /** Anything that shrinks like the estimate stays below the powers of `c / n`. */
  lemma {:induction false} RecurrenceBelowPower(f: nat -> real, c: nat, n: nat, rho: real, k: nat)
    requires c <= n && k <= n && rho * n as real == c as real && rho >= 0.0
    requires f(0) == 1.0 && forall j: nat | j <= k :: f(j) >= 0.0
    requires forall j: nat | j < k :: Shrinks(f(j), f(j + 1), c, n, j)
    ensures f(k) <= Power(rho, k)
    ensures k >= 2 && 0 < c < n ==> f(k) < Power(rho, k)
  {
    if k > 0 {
      RecurrenceBelowPower(f, c, n, rho, k - 1);
      var j: nat := k - 1;
      assert Shrinks(f(j), f(j + 1), c, n, j);
      PowerStepInts(c, n, j, f(j), f(j + 1), rho);
    }
  }

  ghost predicate Shrinks(r: real, r': real, c: nat, n: nat, j: nat) {
    r' * (n - j) as real == r * (c - j) as real
  }

  lemma {:induction false} RatioBelowPower(c: nat, n: nat, rho: real, k: nat)
    requires c <= n && k <= n && rho * n as real == c as real && rho >= 0.0
    ensures 0.0 <= Ratio(c, n, k) <= Power(rho, k)
    ensures k >= 2 && 0 < c < n ==> Ratio(c, n, k) < Power(rho, k)
  {
    var f := (j: nat) => if j <= n then Ratio(c, n, j) else 0.0;
    RatioZero(c, n);
    forall j: nat | j <= k ensures f(j) >= 0.0 { RatioNonnegative(c, n, j); }
    forall j: nat | j < k ensures Shrinks(f(j), f(j + 1), c, n, j) { RatioStep(c, n, j); }
    RecurrenceBelowPower(f, c, n, rho, k);
  }

  lemma RatioZero(c: nat, n: nat)
    ensures Ratio(c, n, 0) == 1.0
  {
    CombZero(n);
    CombZero(c);
  }

  lemma {:induction false} PowerStepInts(c: nat, n: nat, j: nat, r: real, r': real, rho: real)
    requires j < n && c <= n && rho * n as real == c as real && rho >= 0.0
    requires Shrinks(r, r', c, n, j) && 0.0 <= r <= Power(rho, j)
    ensures r' <= Power(rho, j + 1)
    ensures j > 0 && 0 < c < n ==> r' < Power(rho, j + 1)
  {
    PowerSign(rho, j);
    PowerStep(r, r', rho, Power(rho, j), c as real, n as real, j as real, (c - j) as real, (n - j) as real);
    if 0 < c { assert rho != 0.0; }
  }

  lemma RatioNonnegative(c: nat, n: nat, k: nat)
    requires k <= n
    ensures Ratio(c, n, k) >= 0.0
  {
    CombPositive(n, k);
  }

  lemma {:induction false} PowerStep(r: real, r': real, rho: real, w: real, c: real, n: real, k: real, ck: real, nk: real)
    requires n > k >= 0.0 && 0.0 <= c <= n && rho * n == c && rho >= 0.0 && ck == c - k && nk == n - k
    requires r' * nk == r * ck && 0.0 <= r <= w
    ensures r' <= rho * w
    ensures rho > 0.0 && w > 0.0 && k > 0.0 && c < n ==> r' < rho * w
  {
    ShrinkStep(r, r', rho, c, n, k);
    assert rho * (w - r) >= 0.0;
    if rho > 0.0 && w > 0.0 && r == 0.0 { assert rho * w > 0.0; }
  }

  lemma {:induction false} CombFull(n: nat)
    ensures Comb(n, n) == 1
  {
    if n > 0 {
      CombFull(n - 1);
      CombOutside(n - 1, n);
    }
  }

  lemma {:induction false} PowerOne(k: nat)
    ensures Power(1.0, k) == 1.0
  {
    if k > 0 { PowerOne(k - 1); }
  }

  lemma SelfRatio(x: real)
    requires x > 0.0
    ensures x / x == 1.0
  {
    var q := x / x;
    assert q * x == x;
    assert (q - 1.0) * x == 0.0;
  }

  lemma {:induction false} RatioFull(n: nat, k: nat)
    requires k <= n
    ensures Ratio(n, n, k) == 1.0
  {
    CombPositive(n, k);
    SelfRatio(Comb(n, k) as real);
  }

  lemma {:induction false} RatioNone(n: nat, k: nat)
    requires 0 < k <= n
    ensures Ratio(0, n, k) == 0.0 == Power(0.0, k)
  {
    CombPositive(n, k);
    CombOutside(0, k);
    ZeroRatio(Comb(n, k) as real);
  }

  lemma ZeroRatio(x: real)
    requires x > 0.0
    ensures 0.0 / x == 0.0
  {
    var q := 0.0 / x;
    assert q * x == 0.0;
  }

  lemma {:induction false} RatioFirst(c: nat, n: nat)
    requires 0 < n
    ensures Ratio(c, n, 1) == c as real / n as real == Power(c as real / n as real, 1)
  {
    CombPositive(n, 1);
    CombOne(n);
    CombOne(c);
    assert Power(c as real / n as real, 0) == 1.0;
  }

  lemma {:induction false} CombOne(n: nat)
    ensures Comb(n, 1) == n
  {
    if n > 0 {
      CombOne(n - 1);
      CombZero(n - 1);
    }
  }

  lemma AddInjective(x: nat, a: set<nat>, b: set<nat>)
    requires x !in a && x !in b && a != b
    ensures a + {x} != b + {x}
  {
    assert b == (b + {x}) - {x} && a == (a + {x}) - {x};
  }

  /** The plug-in `(c/n)^k` is never below the estimate, and is strictly above it exactly when
      at least two trials are asked for and the outcomes are mixed. */
  lemma {:induction false} PlugInIsOptimistic(trials: seq<bool>, k: nat)
    requires 0 < |trials| && k <= |trials|
    ensures var v := PassK(trials, Some(k)).value.value;
            var plugIn := Power(Successes(trials) as real / |trials| as real, k);
            && 0.0 <= v <= plugIn
            && (v < plugIn <==> k >= 2 && 0 < Successes(trials) < |trials|)
  {
    hide Comb, Power, Successes;
    TrialCounts(trials);
    var c, n := Successes(trials), |trials|;
    var rho := c as real / n as real;
    QuotientNonnegative(c, n);
    RatioBelowPower(c, n, rho, k);
    if k < 2 || c == 0 || c == n { RatioMeetsPower(c, n, rho, k); }
  }

  lemma QuotientNonnegative(c: nat, n: nat)
    requires n > 0
    ensures c as real / n as real >= 0.0 && c as real / n as real * n as real == c as real
  {
  }

  lemma {:induction false} RatioMeetsPower(c: nat, n: nat, rho: real, k: nat)
    requires 0 < n && c <= n && k <= n && rho * n as real == c as real
    requires k < 2 || c == 0 || c == n
    ensures Ratio(c, n, k) == Power(rho, k)
  {
    if k == 0 {
      CombZero(n);
      CombZero(c);
    } else if k == 1 {
      RatioFirst(c, n);
    } else if c == 0 {
      RatioNone(n, k);
      assert rho == 0.0;
    } else {
      RatioFull(n, k);
      PowerOne(k);
      assert rho == 1.0;
    }
  }

  /** Asking for as many trials as were run gives the all-or-nothing indicator, whether `k` is
      given or left to its default. */
  lemma {:induction false} DegenerateIsIndicator(trials: seq<bool>)
    requires 0 < |trials|
    ensures var r := PassK(trials, None);
            && r == PassK(trials, Some(|trials|)) && r.degenerate
            && r.value == Some(if forall i | 0 <= i < |trials| :: trials[i] then 1.0 else 0.0)
  {
    var n, c := |trials|, Successes(trials);
    TrialCounts(trials);
    CombFull(n);
    AllSuccessful(trials);
    if c < n { CombOutside(c, n); }
  }

  lemma {:induction false} AllSuccessful(trials: seq<bool>)
    ensures Successes(trials) == |trials| <==> forall i | 0 <= i < |trials| :: trials[i]
  {
    if trials != [] {
      var init := trials[..|trials| - 1];
      AllSuccessful(init);
      TrialCounts(init);
      assert forall i | 0 <= i < |init| :: init[i] == trials[i];
    }
  }
}
