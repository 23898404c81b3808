/** The exact sign-flip permutation test and the exact sign test of `interstellar/stats.py`.

    Deltas are reals (rounding is not modelled). `CountSums(d, 0.0, p)` is the number of sign
    assignments to `d` whose signed sum satisfies `p`; the enumeration over bitmasks is proved
    to compute it. */
module SignFlip {
  import opened Common
  import opened Binomial

  /** The slack the code subtracts from the observed statistic. */
  const EPS := 0.000000001

  function Abs(x: real): real { if x < 0.0 then -x else x }

  function Sum(d: seq<real>): real {
    if d == [] then 0.0 else Sum(d[..|d| - 1]) + d[|d| - 1]
  }

  function Mean(d: seq<real>): real
    requires |d| > 0
  {
    Sum(d) / |d| as real
  }

  function Nonzero(d: seq<real>): nat {
    if d == [] then 0 else Nonzero(d[..|d| - 1]) + if d[|d| - 1] != 0.0 then 1 else 0
  }

  function Positive(d: seq<real>): nat {
    if d == [] then 0 else Positive(d[..|d| - 1]) + if d[|d| - 1] > 0.0 then 1 else 0
  }

  lemma {:induction false} Counts(d: seq<real>)
    ensures Positive(d) <= Nonzero(d) <= |d|
  {
    if d != [] { Counts(d[..|d| - 1]); }
  }

  // --- the reference semantics: all sign assignments ------------------------

  /** How many of the `Pow2(|d|)` sign assignments make `acc` plus the signed sum satisfy `p`. */
  function CountSums(d: seq<real>, acc: real, p: real -> bool): nat {
    if d == [] then (if p(acc) then 1 else 0)
    else
      var init, last := d[..|d| - 1], d[|d| - 1];
      CountSums(init, acc + last, p) + CountSums(init, acc - last, p)
  }

  /** The enumerated statistic is at least as extreme as the observed mean, up to `eps`. */
  function Extreme(d: seq<real>, eps: real): real -> bool
    requires |d| > 0
  {
    (x: real) => Abs(x / |d| as real) >= Abs(Mean(d)) - eps
  }

  /** The fraction of sign assignments at least as extreme as the observed one. */
  function ExactP(d: seq<real>, eps: real): real
    requires |d| > 0
  {
    CountSums(d, 0.0, Extreme(d, eps)) as real / Pow2(|d|) as real
  }

  /** `2 * 0.5 ** k`, the documented floor for `k` nonzero deltas. */
  function Floor(k: nat): real { 2.0 / Pow2(k) as real }

  /** `min(1, 2 * tail)`. */
  function Clamped(tail: real): real { if 2.0 * tail <= 1.0 then 2.0 * tail else 1.0 }

  /** Two-sided exact binomial p-value with its clamp. */
  function SignTestP(d: seq<real>): real {
    var n := Nonzero(d);
    var pos := Positive(d);
    Clamped(Tail(n, Min(pos, n - pos)) as real / Pow2(n) as real)
  }

  // --- counting laws ---------------------------------------------------------

  lemma {:induction false} CountAll(d: seq<real>, acc: real, p: real -> bool)
    requires forall x :: p(x)
    ensures CountSums(d, acc, p) == Pow2(|d|)
  {
    if d != [] {
      CountAll(d[..|d| - 1], acc + d[|d| - 1], p);
      CountAll(d[..|d| - 1], acc - d[|d| - 1], p);
    }
  }

  lemma {:induction false} CountImplies(d: seq<real>, acc: real, p: real -> bool, q: real -> bool)
    requires forall x :: p(x) ==> q(x)
    ensures CountSums(d, acc, p) <= CountSums(d, acc, q)
  {
    if d != [] {
      CountImplies(d[..|d| - 1], acc + d[|d| - 1], p, q);
      CountImplies(d[..|d| - 1], acc - d[|d| - 1], p, q);
    }
  }

  lemma {:induction false} CountBound(d: seq<real>, acc: real, p: real -> bool)
    ensures CountSums(d, acc, p) <= Pow2(|d|)
  {
    CountAll(d, acc, (x: real) => true);
    CountImplies(d, acc, p, (x: real) => true);
  }

  lemma {:induction false} CountSame(d: seq<real>, acc: real, p: real -> bool, q: real -> bool)
    requires forall x :: p(x) == q(x)
    ensures CountSums(d, acc, p) == CountSums(d, acc, q)
  {
    CountImplies(d, acc, p, q);
    CountImplies(d, acc, q, p);
  }

  /** Disjoint events add up. */
  lemma {:induction false} CountSplit(d: seq<real>, acc: real, p: real -> bool, q: real -> bool, r: real -> bool)
    requires forall x :: !(p(x) && q(x))
    requires forall x :: p(x) || q(x) ==> r(x)
    ensures CountSums(d, acc, p) + CountSums(d, acc, q) <= CountSums(d, acc, r)
    ensures (forall x :: r(x) ==> p(x) || q(x)) ==> CountSums(d, acc, p) + CountSums(d, acc, q) == CountSums(d, acc, r)
  {
    if d != [] {
      CountSplit(d[..|d| - 1], acc + d[|d| - 1], p, q, r);
      CountSplit(d[..|d| - 1], acc - d[|d| - 1], p, q, r);
    }
  }

  /** Flipping every sign is a bijection on assignments. */
  lemma {:induction false} CountMirror(d: seq<real>, acc: real, p: real -> bool, q: real -> bool)
    requires forall x :: q(x) == p(-x)
    ensures CountSums(d, -acc, q) == CountSums(d, acc, p)
  {
    if d == [] {
      assert q(-acc) == p(-(-acc));
    } else {
      var init, last := d[..|d| - 1], d[|d| - 1];
      CountMirror(init, acc + last, p, q);
      CountMirror(init, acc - last, p, q);
      assert -(acc + last) == -acc - last && -(acc - last) == -acc + last;
    }
  }

  /** Only magnitudes matter to the set of signed sums. */
  function Magnitudes(d: seq<real>): (r: seq<real>)
    ensures |r| == |d|
    ensures forall i | 0 <= i < |d| :: r[i] == Abs(d[i])
  {
    seq(|d|, i requires 0 <= i < |d| => Abs(d[i]))
  }

  lemma {:induction false} CountMagnitudes(d: seq<real>, acc: real, p: real -> bool)
    ensures CountSums(Magnitudes(d), acc, p) == CountSums(d, acc, p)
    ensures Nonzero(Magnitudes(d)) == Nonzero(d)
  {
    if d != [] {
      var init, last := d[..|d| - 1], d[|d| - 1];
      assert Magnitudes(d)[..|d| - 1] == Magnitudes(init);
      CountMagnitudes(init, acc + last, p);
      CountMagnitudes(init, acc - last, p);
    }
  }

  /** The observed assignment is hit once for each choice of signs on the zero deltas. */
  lemma {:induction false} CountObserved(d: seq<real>, acc: real, p: real -> bool)
    requires p(acc + Sum(d))
    ensures Nonzero(d) <= |d|
    ensures CountSums(d, acc, p) >= Pow2(|d| - Nonzero(d))
  {
    if d != [] {
      var init, last := d[..|d| - 1], d[|d| - 1];
      assert acc + Sum(d) == (acc + last) + Sum(init);
      CountObserved(init, acc + last, p);
      if last == 0.0 {
        CountObserved(init, acc - last, p);
      }
    }
  }

  lemma {:induction false} CountMirrored(d: seq<real>, p: real -> bool)
    requires p(-Sum(d))
    ensures Nonzero(d) <= |d|
    ensures CountSums(d, 0.0, p) >= Pow2(|d| - Nonzero(d))
  {
    hide CountSums, Pow2, Sum, Nonzero;
    var q := (x: real) => p(-x);
    assert q(0.0 + Sum(d));
    CountObserved(d, 0.0, q);
    CountMirror(d, 0.0, q, p);
    assert -0.0 == 0.0;
  }

  lemma {:induction false} ExtremeScaled(d: seq<real>, eps: real, x: real)
    requires |d| > 0
    ensures Extreme(d, eps)(x) <==> Abs(x) >= Abs(Sum(d)) - |d| as real * eps
  {
    var n := |d| as real;
    AbsDiv(x, n);
    AbsDiv(Sum(d), n);
    var a, b := Abs(x), Abs(Sum(d));
    assert Extreme(d, eps)(x) <==> a / n >= b / n - eps;
    ScaleInequality(a, b, n, eps);
  }

  lemma {:induction false} ScaleInequality(a: real, b: real, n: real, eps: real)
    requires n > 0.0
    ensures a / n >= b / n - eps <==> a >= b - n * eps
  {
    var u, v := a / n, b / n;
    assert a == u * n && b == v * n;
    assert a - b + n * eps == n * (u - v + eps);
    if u - v + eps >= 0.0 {
      assert n * (u - v + eps) >= 0.0;
    } else {
      assert n * (u - v + eps) < 0.0;
    }
  }

  lemma {:induction false} AbsDiv(x: real, n: real)
    requires n > 0.0
    ensures Abs(x / n) == Abs(x) / n
  {
    var u := x / n;
    assert x == u * n;
    if x >= 0.0 { assert u >= 0.0; } else { assert u < 0.0; assert (-x) / n == -u; }
  }

  // --- the documented floor ----------------------------------------------------

  /** `|x| >= t`, the two-sided tail beyond `t`. */
  function Beyond(t: real): real -> bool { (x: real) => Abs(x) >= t }

  /** The enumerated count after clearing the division by `n`: `slack` is `n * eps`. */
  function TailCount(d: seq<real>, slack: real): nat {
    CountSums(d, 0.0, Beyond(Abs(Sum(d)) - slack))
  }

  lemma {:induction false} ExactCount(d: seq<real>, eps: real)
    requires |d| > 0
    ensures CountSums(d, 0.0, Extreme(d, eps)) == TailCount(d, |d| as real * eps)
  {
    var p, q := Extreme(d, eps), Beyond(Abs(Sum(d)) - |d| as real * eps);
    forall x ensures p(x) == q(x) { ExtremeScaled(d, eps, x); }
    CountSame(d, 0.0, p, q);
  }

  lemma {:induction false} ObservedAndMirror(d: seq<real>, slack: real)
    requires slack >= 0.0 && Nonzero(d) > 0
    ensures Nonzero(d) <= |d|
    ensures TailCount(d, slack) >= 2 * Pow2(|d| - Nonzero(d))
  {
    Counts(d);
    var s := Sum(d);
    var t := Beyond(Abs(s) - slack);
    if s == 0.0 {
      CountAll(d, 0.0, t);
      Pow2Monotone(1 + |d| - Nonzero(d), |d|);
    } else {
      var p, q := (x: real) => x == s, (x: real) => x == -s;
      CountObserved(d, 0.0, p);
      CountMirrored(d, q);
      CountSplit(d, 0.0, p, q, t);
    }
  }

  lemma {:induction false} Pow2Monotone(a: nat, b: nat)
    requires a <= b
    ensures Pow2(a) <= Pow2(b)
  {
    if a < b { Pow2Monotone(a, b - 1); }
  }

  lemma {:induction false} RatioCleared(count: real, z: real, m: real, t: real)
    requires m > 0.0 && t > 0.0 && t == z * m
    ensures count / t >= 2.0 / m <==> count >= 2.0 * z
    ensures count / t == 2.0 / m <==> count == 2.0 * z
  {
    var c, f := count / t, 2.0 / m;
    assert c * t == count && f * m == 2.0;
    assert f * t == (f * m) * z;
    assert (c - f) * t == count - 2.0 * z;
    if c > f { assert (c - f) * t > 0.0; }
    if c < f { assert (c - f) * t < 0.0; }
  }

  /** `count / 2^n` against `2 / 2^k`, cleared of denominators. */
  lemma {:induction false} FloorCleared(count: nat, n: nat, k: nat)
    requires k <= n
    ensures count as real / Pow2(n) as real >= Floor(k) <==> count >= 2 * Pow2(n - k)
    ensures count as real / Pow2(n) as real == Floor(k) <==> count == 2 * Pow2(n - k)
  {
    hide Pow2;
    Pow2Add(n - k, k);
    var z, m := Pow2(n - k), Pow2(k);
    assert (z * m) as real == z as real * m as real;
    RatioCleared(count as real, z as real, m as real, Pow2(n) as real);
  }

  /** The p-value floor: no delta list with a nonzero entry can report less. */
  lemma {:induction false} PValueFloor(d: seq<real>, eps: real)
    requires |d| > 0 && eps >= 0.0 && Nonzero(d) > 0
    ensures ExactP(d, eps) >= Floor(Nonzero(d))
  {
    ExactCount(d, eps);
    assert |d| as real * eps >= 0.0;
    ObservedAndMirror(d, |d| as real * eps);
    FloorCleared(TailCount(d, |d| as real * eps), |d|, Nonzero(d));
  }

  // --- when the floor is attained ------------------------------------------------

  ghost predicate SameSign(d: seq<real>) {
    (forall i | 0 <= i < |d| :: d[i] >= 0.0) || (forall i | 0 <= i < |d| :: d[i] <= 0.0)
  }

  /** No nonzero delta is small enough for the slack to hide its flip. */
  ghost predicate Resolved(d: seq<real>, slack: real) {
    forall i | 0 <= i < |d| && d[i] != 0.0 :: 2.0 * Abs(d[i]) > slack
  }

  ghost predicate Nonnegative(d: seq<real>) { forall i | 0 <= i < |d| :: d[i] >= 0.0 }

  lemma {:induction false} SumNonnegative(d: seq<real>)
    requires Nonnegative(d)
    ensures Sum(d) >= 0.0
    ensures forall i | 0 <= i < |d| :: d[i] <= Sum(d)
    ensures Nonzero(d) > 0 ==> Sum(d) > 0.0
    ensures Nonzero(d) >= 2 ==> forall i | 0 <= i < |d| :: d[i] < Sum(d)
  {
    if d != [] {
      SumNonnegative(d[..|d| - 1]);
    }
  }

  lemma {:induction false} CountNone(d: seq<real>, acc: real, p: real -> bool)
    requires Nonnegative(d)
    requires forall x :: x <= acc + Sum(d) ==> !p(x)
    ensures CountSums(d, acc, p) == 0
  {
    if d != [] {
      CountNone(d[..|d| - 1], acc + d[|d| - 1], p);
      CountNone(d[..|d| - 1], acc - d[|d| - 1], p);
    }
  }

  /** Near the top of the range only the all-positive assignment is found. */
  lemma {:induction false} CountTop(d: seq<real>, acc: real, delta: real, p: real -> bool)
    requires Nonnegative(d) && delta >= 0.0
    requires forall i | 0 <= i < |d| && d[i] != 0.0 :: d[i] > delta
    requires forall x :: p(x) <==> x >= acc + Sum(d) - 2.0 * delta
    ensures Nonzero(d) <= |d|
    ensures CountSums(d, acc, p) == Pow2(|d| - Nonzero(d))
  {
    if d == [] {
    } else {
      var init, last := d[..|d| - 1], d[|d| - 1];
      assert acc + Sum(d) == (acc + last) + Sum(init);
      CountTop(init, acc + last, delta, p);
      if last == 0.0 {
        CountTop(init, acc - last, delta, p);
      } else {
        CountNone(init, acc - last, p);
      }
    }
  }

  lemma {:induction false} CountFlipOne(d: seq<real>, acc: real, j: nat, p: real -> bool)
    requires j < |d| && p(acc + Sum(d) - 2.0 * d[j])
    ensures CountSums(d, acc, p) >= 1
  {
    var init, last := d[..|d| - 1], d[|d| - 1];
    if j == |d| - 1 {
      assert acc + Sum(d) - 2.0 * d[j] == (acc - last) + Sum(init);
      CountObserved(init, acc - last, p);
    } else {
      assert acc + Sum(d) - 2.0 * d[j] == (acc + last) + Sum(init) - 2.0 * init[j];
      CountFlipOne(init, acc + last, j, p);
    }
  }

  lemma {:induction false} SumMagnitudes(d: seq<real>)
    ensures Abs(Sum(d)) <= Sum(Magnitudes(d))
    ensures Nonnegative(d) ==> Sum(d) == Sum(Magnitudes(d))
    ensures (forall i | 0 <= i < |d| :: d[i] <= 0.0) ==> -Sum(d) == Sum(Magnitudes(d))
    ensures (exists i | 0 <= i < |d| :: d[i] > 0.0) ==> Sum(d) > -Sum(Magnitudes(d))
    ensures (exists i | 0 <= i < |d| :: d[i] < 0.0) ==> Sum(d) < Sum(Magnitudes(d))
  {
    if d != [] {
      var init, last := d[..|d| - 1], d[|d| - 1];
      assert Magnitudes(d)[..|d| - 1] == Magnitudes(init);
      SumMagnitudes(init);
    }
  }

  /** Exactly the sum `v`. */
  function At(v: real): real -> bool { (x: real) => x == v }

  /** Three different sums in the tail. */
  lemma {:induction false} CountThree(d: seq<real>, u: real, v: real, w: real, t: real -> bool)
    requires u != v && u != w && v != w && t(u) && t(v) && t(w)
    ensures CountSums(d, 0.0, At(u)) + CountSums(d, 0.0, At(v)) + CountSums(d, 0.0, At(w)) <= CountSums(d, 0.0, t)
  {
    hide CountSums;
    var ends := (x: real) => x == u || x == v;
    CountSplit(d, 0.0, At(u), At(v), ends);
    CountSplit(d, 0.0, ends, At(w), t);
  }

  /** The all-positive and the all-negative assignment, on magnitudes. */
  lemma {:induction false} CountEnds(m: seq<real>)
    ensures Nonzero(m) <= |m|
    ensures CountSums(m, 0.0, At(Sum(m))) >= Pow2(|m| - Nonzero(m))
    ensures CountSums(m, 0.0, At(-Sum(m))) >= Pow2(|m| - Nonzero(m))
  {
    hide CountSums, Pow2, Sum, Nonzero;
    CountObserved(m, 0.0, At(Sum(m)));
    CountMirrored(m, At(-Sum(m)));
  }

  /** Mixed signs: the all-positive and all-negative assignments beat the observed one. */
  lemma {:induction false} MixedSignsAboveFloor(d: seq<real>, slack: real)
    requires slack >= 0.0 && !SameSign(d)
    ensures Nonzero(d) <= |d|
    ensures TailCount(d, slack) > 2 * Pow2(|d| - Nonzero(d))
  {
    hide CountSums, Pow2, Sum, Magnitudes, Nonzero;
    var m, s := Magnitudes(d), Sum(d);
    var a := Sum(m);
    SumMagnitudes(d);
    assert -a < s < a;
    CountMagnitudes(d, 0.0, At(a));
    CountMagnitudes(d, 0.0, At(-a));
    CountEnds(m);
    CountObserved(d, 0.0, At(s));
    CountThree(d, a, -a, s, Beyond(Abs(s) - slack));
  }

  lemma {:induction false} SameSignTotal(d: seq<real>)
    requires SameSign(d)
    ensures Abs(Sum(d)) == Sum(Magnitudes(d))
  {
    SumMagnitudes(d);
    SumNonnegative(Magnitudes(d));
  }

  /** A delta hidden by the slack puts one more assignment in the tail. */
  lemma {:induction false} HiddenFlipAboveFloor(d: seq<real>, slack: real, j: nat)
    requires SameSign(d) && Nonzero(d) >= 2
    requires j < |d| && d[j] != 0.0 && 2.0 * Abs(d[j]) <= slack
    ensures Nonzero(d) <= |d|
    ensures TailCount(d, slack) > 2 * Pow2(|d| - Nonzero(d))
  {
    hide CountSums, Nonzero, Pow2, Sum;
    Counts(d);
    var m := Magnitudes(d);
    var a := Sum(m);
    var t := Beyond(a - slack);
    SameSignTotal(d);
    CountMagnitudes(d, 0.0, t);
    SumNonnegative(m);
    var f := a - 2.0 * m[j];
    CountEnds(m);
    CountFlipOne(m, 0.0, j, At(f));
    CountThree(m, a, -a, f, t);
  }

  lemma {:induction false} ResolvedAtFloor(d: seq<real>, slack: real)
    requires slack >= 0.0 && SameSign(d) && Nonzero(d) >= 2 && Resolved(d, slack)
    ensures Nonzero(d) <= |d|
    ensures TailCount(d, slack) == 2 * Pow2(|d| - Nonzero(d))
  {
    hide CountSums, Nonzero, Pow2, Sum;
    Counts(d);
    var m := Magnitudes(d);
    var a, delta := Sum(m), slack / 2.0;
    var t := Beyond(a - slack);
    SameSignTotal(d);
    CountMagnitudes(d, 0.0, t);
    TwoLarge(m, delta);
    var top, bottom := (x: real) => x >= a - slack, (x: real) => x <= -(a - slack);
    CountTop(m, 0.0, delta, top);
    CountMirror(m, 0.0, top, bottom);
    assert -0.0 == 0.0;
    CountSplit(m, 0.0, top, bottom, t);
  }

  /** Two deltas above `delta` add up to more than twice `delta`. */
  lemma {:induction false} TwoLarge(m: seq<real>, delta: real)
    requires Nonnegative(m) && delta >= 0.0
    requires forall i | 0 <= i < |m| && m[i] != 0.0 :: m[i] > delta
    ensures Nonzero(m) >= 1 ==> Sum(m) > delta
    ensures Nonzero(m) >= 2 ==> Sum(m) > 2.0 * delta
  {
    if m != [] {
      SumNonnegative(m[..|m| - 1]);
      TwoLarge(m[..|m| - 1], delta);
    }
  }

  /** Exactly when the floor is attained: with one nonzero delta always; otherwise when all
      nonzero deltas agree in sign and none is below the resolution of `eps`. */
  lemma {:induction false} FloorAttained(d: seq<real>, eps: real)
    requires |d| > 0 && eps >= 0.0 && Nonzero(d) > 0
    ensures ExactP(d, eps) == Floor(Nonzero(d)) <==>
            Nonzero(d) == 1 || (SameSign(d) && Resolved(d, |d| as real * eps))
    ensures eps == 0.0 ==> (ExactP(d, eps) == Floor(Nonzero(d)) <==> SameSign(d))
  {
    var slack := |d| as real * eps;
    assert slack >= 0.0;
    Counts(d);
    ExactCount(d, eps);
    FloorCleared(TailCount(d, slack), |d|, Nonzero(d));
    OneNonzero(d);
    if Nonzero(d) == 1 {
      ObservedAndMirror(d, slack);
      CountBound(d, 0.0, Beyond(Abs(Sum(d)) - slack));
    } else if !SameSign(d) {
      MixedSignsAboveFloor(d, slack);
    } else if Resolved(d, slack) {
      ResolvedAtFloor(d, slack);
    } else {
      var j :| 0 <= j < |d| && d[j] != 0.0 && 2.0 * Abs(d[j]) <= slack;
      HiddenFlipAboveFloor(d, slack, j);
    }
  }

  lemma TwoEqual(x: real)
    requires x > 0.0
    ensures Nonzero([x, x]) == 2 && Positive([x, x]) == 2
  {
    assert [x, x][..1] == [x] && [x][..0] == [];
    assert Nonzero([x]) == 1 && Positive([x]) == 1;
  }

  /** Two deltas as small as the slack: both point the same way, and the p-value is above the floor. */
  lemma {:induction false} HiddenDeltasMissFloor(eps: real)
    requires eps > 0.0
    ensures SameSign([eps, eps]) && ExactP([eps, eps], eps) > Floor(2)
  {
    var d := [eps, eps];
    TwoEqual(eps);
    assert d[0] == eps && |d| as real * eps == 2.0 * eps;
    assert !Resolved(d, 2.0 * eps);
    FloorAttained(d, eps);
    PValueFloor(d, eps);
  }

  lemma {:induction false} OneNonzero(d: seq<real>)
    ensures Nonzero(d) == 0 ==> forall i | 0 <= i < |d| :: d[i] == 0.0
    ensures Nonzero(d) == 1 ==> SameSign(d)
  {
    if d != [] {
      OneNonzero(d[..|d| - 1]);
      assert forall i | 0 <= i < |d| - 1 :: d[i] == d[..|d| - 1][i];
    }
  }

  // --- agreement with the sign test ------------------------------------------------

  /** Every nonzero delta has magnitude `m`. */
  ghost predicate Uniform(d: seq<real>, m: real) {
    m > 0.0 && forall i | 0 <= i < |d| && d[i] != 0.0 :: Abs(d[i]) == m
  }

  /** `j` steps of size `m` away from zero. */
  function Steps(m: real, j: int): real
    decreases if j < 0 then -j else j
  {
    if j == 0 then 0.0 else if j > 0 then Steps(m, j - 1) + m else Steps(m, j + 1) - m
  }

  lemma {:induction false} StepsNegate(m: real, j: int)
    requires j >= 0
    ensures Steps(m, -j) == -Steps(m, j)
  {
    if j > 0 { StepsNegate(m, j - 1); }
  }

  lemma {:induction false} StepsSign(m: real, j: int)
    requires m > 0.0
    ensures j > 0 ==> Steps(m, j) >= m
    ensures j > 1 ==> Steps(m, j) >= 2.0 * m
    ensures j < 0 ==> Steps(m, j) <= -m
    decreases if j < 0 then -j else j
  {
    if j > 0 { StepsSign(m, j - 1); } else if j < 0 { StepsSign(m, j + 1); }
  }

  lemma {:induction false} UniformSum(d: seq<real>, m: real)
    requires Uniform(d, m)
    ensures Sum(d) == Steps(m, 2 * Positive(d) - Nonzero(d))
  {
    if d != [] {
      UniformSum(d[..|d| - 1], m);
      var k := 2 * Positive(d[..|d| - 1]) - Nonzero(d[..|d| - 1]);
      assert Steps(m, k + 1) == Steps(m, k) + m && Steps(m, k - 1) == Steps(m, k) - m;
    }
  }

  /** `x` doubled `z` times. */
  function Doubled(z: nat, x: nat): nat {
    if z == 0 then x else 2 * Doubled(z - 1, x)
  }

  lemma {:induction false} DoubledAdd(z: nat, x: nat, y: nat)
    ensures Doubled(z, x) + Doubled(z, y) == Doubled(z, x + y)
  {
    if z > 0 { DoubledAdd(z - 1, x, y); }
  }

  lemma {:induction false} DoubledLess(z: nat, x: nat, y: nat)
    requires x < y
    ensures Doubled(z, x) < Doubled(z, y)
  {
    if z > 0 { DoubledLess(z - 1, x, y); }
  }

  lemma {:induction false} DoubledPow2(z: nat, k: nat)
    ensures Doubled(z, Pow2(k)) == Pow2(z + k)
  {
    if z > 0 { DoubledPow2(z - 1, k); }
  }

  lemma {:induction false} DoubledIsProduct(z: nat, x: nat)
    ensures Doubled(z, x) == Pow2(z) * x
  {
    if z > 0 { DoubledIsProduct(z - 1, x); }
  }

  lemma StepDown(m: real, j: int)
    ensures Steps(m, j - 1) == Steps(m, j) - m
  {
  }

  lemma {:induction false} CountLast(d: seq<real>, acc: real, m: real, p: real -> bool)
    requires d != [] && Abs(d[|d| - 1]) == m
    ensures CountSums(d, acc, p) == CountSums(d[..|d| - 1], acc - m, p) + CountSums(d[..|d| - 1], acc + m, p)
  {
    assert d[|d| - 1] == m || d[|d| - 1] == -m;
    assert acc - (-m) == acc + m && acc + (-m) == acc - m;
  }

  lemma {:induction false} CountZeroLast(d: seq<real>, acc: real, p: real -> bool)
    requires d != [] && d[|d| - 1] == 0.0
    ensures CountSums(d, acc, p) == 2 * CountSums(d[..|d| - 1], acc, p)
  {
    assert acc + d[|d| - 1] == acc && acc - d[|d| - 1] == acc;
  }

  /** The two signs of one more nonzero delta, by Pascal's rule. */
  lemma {:induction false} CountLowLast(d: seq<real>, acc: real, m: real, p: real -> bool, z: nat, k: nat, a: int)
    requires d != [] && Abs(d[|d| - 1]) == m
    requires CountSums(d[..|d| - 1], acc - m, p) == Doubled(z, Tail(k, a))
    requires CountSums(d[..|d| - 1], acc + m, p) == Doubled(z, Tail(k, a - 1))
    ensures CountSums(d, acc, p) == Doubled(z, Tail(k + 1, a))
  {
    hide CountSums, Tail, Doubled;
    CountLast(d, acc, m, p);
    TailPascal(k + 1, a);
    DoubledAdd(z, Tail(k, a), Tail(k, a - 1));
  }

  lemma NonzeroLast(d: seq<real>)
    requires d != []
    ensures Nonzero(d) == Nonzero(d[..|d| - 1]) + if d[|d| - 1] != 0.0 then 1 else 0
    ensures Nonzero(d) <= |d|
  {
    Counts(d);
  }

  lemma {:induction false} CountLowNone(acc: real, m: real, a: int, b: real, p: real -> bool)
    requires m > 0.0 && forall x :: p(x) <==> x <= b
    requires acc + Steps(m, 2 * a) <= b < acc + Steps(m, 2 * a + 2)
    ensures CountSums([], acc, p) == Tail(0, a)
  {
    TailZero(a);
    StepsSign(m, 2 * a);
    StepsSign(m, 2 * a + 2);
  }

  /** Sums at most `b` are those with at most `a` positive signs. */
  lemma {:induction false} CountLow(d: seq<real>, acc: real, m: real, a: int, b: real, p: real -> bool)
    requires Uniform(d, m)
    requires forall x :: p(x) <==> x <= b
    requires acc + Steps(m, 2 * a - Nonzero(d)) <= b < acc + Steps(m, 2 * a + 2 - Nonzero(d))
    ensures Nonzero(d) <= |d|
    ensures CountSums(d, acc, p) == Doubled(|d| - Nonzero(d), Tail(Nonzero(d), a))
  {
    hide CountSums, Tail, Abs, Steps;
    if d == [] {
      CountLowNone(acc, m, a, b, p);
    } else {
      var init, last := d[..|d| - 1], d[|d| - 1];
      var k: int := Nonzero(init);
      NonzeroLast(d);
      if last == 0.0 {
        CountLow(init, acc, m, a, b, p);
        CountZeroLast(d, acc, p);
      } else {
        StepDown(m, 2 * a - k);
        StepDown(m, 2 * a + 2 - k);
        StepDown(m, 2 * a + 1 - k);
        StepDown(m, 2 * a - 1 - k);
        CountLow(init, acc - m, m, a, b, p);
        CountLow(init, acc + m, m, a - 1, b, p);
        CountLowLast(d, acc, m, p, |init| - k, k, a);
      }
    }
  }

  /** The two tails together, for a positive threshold between two sign-count levels. */
  lemma {:induction false} CountTwoTails(d: seq<real>, m: real, a: nat, t: real)
    requires Uniform(d, m) && t > 0.0
    requires Steps(m, Nonzero(d) - 2 * a - 2) < t <= Steps(m, Nonzero(d) - 2 * a)
    ensures Nonzero(d) <= |d|
    ensures CountSums(d, 0.0, Beyond(t)) == Doubled(|d| - Nonzero(d), 2 * Tail(Nonzero(d), a))
  {
    Counts(d);
    var k := Nonzero(d);
    var low, high := (x: real) => x <= -t, (x: real) => x >= t;
    StepsSign(m, k - 2 * a);
    StepsNegate(m, k - 2 * a);
    assert -(k - 2 * a) == 2 * a - k;
    if k - 2 * a - 2 >= 0 {
      StepsNegate(m, k - 2 * a - 2);
      assert -(k - 2 * a - 2) == 2 * a + 2 - k;
    } else {
      assert k - 2 * a == 1;
      assert Steps(m, -1) == Steps(m, 0) - m && Steps(m, 1) == Steps(m, 0) + m;
    }
    CountLow(d, 0.0, m, a, -t, low);
    CountMirror(d, 0.0, low, high);
    assert -0.0 == 0.0;
    CountSplit(d, 0.0, low, high, Beyond(t));
    DoubledAdd(|d| - k, Tail(k, a), Tail(k, a));
  }

  /** The smaller of the two sign counts. */
  function Minority(d: seq<real>): nat
  {
    Counts(d);
    Min(Positive(d), Nonzero(d) - Positive(d))
  }

  lemma {:induction false} UniformObserved(d: seq<real>, m: real)
    requires Uniform(d, m)
    ensures Nonzero(d) - 2 * Minority(d) >= 0
    ensures Abs(Sum(d)) == Steps(m, Nonzero(d) - 2 * Minority(d))
  {
    UniformSum(d, m);
    Counts(d);
    var j := 2 * Positive(d) - Nonzero(d);
    StepsSign(m, j);
    if j < 0 { StepsNegate(m, -j); }
  }

  /** With the slack below the gap between sign-count levels, or with the signs balanced up to
      one, the enumerated count is the clamped binomial one. */
  lemma {:induction false} UniformCount(d: seq<real>, m: real, slack: real)
    requires Uniform(d, m) && slack >= 0.0
    requires slack < 2.0 * m || Nonzero(d) - 2 * Minority(d) <= 1
    ensures Nonzero(d) <= |d|
    ensures TailCount(d, slack) ==
            Doubled(|d| - Nonzero(d), Min(Pow2(Nonzero(d)), 2 * Tail(Nonzero(d), Minority(d))))
  {
    hide CountSums, Sum, Nonzero, Tail, Pow2;
    Counts(d);
    var k: int, a: int, z := Nonzero(d), Minority(d), |d| - Nonzero(d);
    var t := Abs(Sum(d)) - slack;
    UniformObserved(d, m);
    TailComplement(k, a);
    DoubledPow2(z, k);
    StepsSign(m, k - 2 * a);
    if t <= 0.0 {
      assert k - 2 * a <= 1;
      TailMonotone(k, k - 1 - a, a);
      CountAll(d, 0.0, Beyond(t));
    } else {
      assert k - 2 * a >= 1;
      assert Steps(m, k - 2 * a - 2) == Steps(m, k - 2 * a - 1) - m;
      assert Steps(m, k - 2 * a) == Steps(m, k - 2 * a - 1) + m;
      CountTwoTails(d, m, a, t);
      TailMonotone(k, a, k - 1 - a);
    }
  }

  /** Past the gap, a neighbouring sign-count level leaks into the tail. */
  lemma {:induction false} UniformLeak(d: seq<real>, m: real, slack: real)
    requires Uniform(d, m) && slack >= 2.0 * m && Nonzero(d) - 2 * Minority(d) >= 2
    ensures Nonzero(d) <= |d|
    ensures TailCount(d, slack) > Doubled(|d| - Nonzero(d), 2 * Tail(Nonzero(d), Minority(d)))
    ensures 2 * Tail(Nonzero(d), Minority(d)) < Pow2(Nonzero(d))
  {
    hide Comb, CountSums, Doubled, Nonzero, Positive, Pow2, Sum;
    Counts(d);
    var k: int, a: int, z := Nonzero(d), Minority(d), |d| - Nonzero(d);
    var t := Abs(Sum(d)) - slack;
    UniformObserved(d, m);
    CombPositive(k, a + 1);
    assert Tail(k, a + 1) == Comb(k, a + 1) + Tail(k, a);
    TailComplement(k, a);
    TailMonotone(k, a + 1, k - 1 - a);
    DoubledPow2(z, k);
    var level := Steps(m, k - 2 * a - 2);
    assert Steps(m, k - 2 * a) == Steps(m, k - 2 * a - 1) + m;
    assert Steps(m, k - 2 * a - 1) == level + m;
    DoubledLess(z, 2 * Tail(k, a), Pow2(k));
    if k - 2 * a == 2 {
      CountAll(d, 0.0, Beyond(t));
    } else {
      StepsSign(m, k - 2 * a - 2);
      assert level == Steps(m, k - 2 * a - 3) + m;
      assert Steps(m, k - 2 * a - 4) == Steps(m, k - 2 * a - 3) - m;
      assert k - 2 * (a + 1) - 2 == k - 2 * a - 4;
      CountTwoTails(d, m, a + 1, level);
      CountImplies(d, 0.0, Beyond(level), Beyond(t));
      DoubledLess(z, 2 * Tail(k, a), 2 * Tail(k, a + 1));
    }
  }

  lemma {:induction false} ClampedScaled(tail: real, m: real)
    requires m > 0.0
    ensures Clamped(tail / m) * m == if 2.0 * tail <= m then 2.0 * tail else m
  {
    var q := tail / m;
    assert q * m == tail;
    if 2.0 * q <= 1.0 { assert (1.0 - 2.0 * q) * m >= 0.0; } else { assert (2.0 * q - 1.0) * m > 0.0; }
  }

  lemma {:induction false} ScaledEquality(c: real, s: real, count: real, z: real, m: real, t: real, w: real)
    requires t == z * m && s * m == w && t > 0.0 && c == count / t
    ensures c == s <==> count == z * w
  {
    assert c * t == count;
    assert s * t == z * w by { assert s * t == (s * m) * z; }
    assert (c - s) * t == count - z * w;
  }

  lemma {:induction false} SignRatioCleared(count: real, tail: real, z: real, m: real, t: real, w: real, zw: real)
    requires m > 0.0 && t > 0.0 && t == z * m
    requires w == (if 2.0 * tail <= m then 2.0 * tail else m) && zw == z * w
    ensures count / t == Clamped(tail / m) <==> count == zw
  {
    ClampedScaled(tail, m);
    ScaledEquality(count / t, Clamped(tail / m), count, z, m, t, w);
  }

  lemma {:induction false} SignRatioInts(count: nat, tail: nat, z: nat, m: nat, t: nat, w: nat, zw: nat)
    requires m > 0 && t > 0 && t == z * m
    requires w == Min(m, 2 * tail) && zw == z * w
    ensures count as real / t as real == Clamped(tail as real / m as real) <==> count == zw
  {
    RealProduct(z, m);
    RealProduct(z, w);
    SignRatioCleared(count as real, tail as real, z as real, m as real, t as real, w as real, zw as real);
  }

  /** `count / 2^n` against the sign test's clamped `2 * tail / 2^k`. */
  lemma {:induction false} SignRatio(count: nat, n: nat, k: nat, tail: nat)
    requires k <= n
    ensures count as real / Pow2(n) as real == Clamped(tail as real / Pow2(k) as real)
            <==> count == Doubled(n - k, Min(Pow2(k), 2 * tail))
  {
    var w := Min(Pow2(k), 2 * tail);
    Pow2Add(n - k, k);
    DoubledIsProduct(n - k, w);
    SignRatioInts(count, tail, Pow2(n - k), Pow2(k), Pow2(n), w, Doubled(n - k, w));
  }

  /** The permutation test and the sign test report the same p-value on deltas of one magnitude
      exactly when `n * eps` stays below the gap `2 * m` or the signs are balanced up to one. */
  lemma {:induction false} UniformAgreesWithSignTest(d: seq<real>, m: real, eps: real)
    requires |d| > 0 && eps >= 0.0 && Uniform(d, m) && Nonzero(d) > 0
    ensures ExactP(d, eps) == SignTestP(d) <==>
            |d| as real * eps < 2.0 * m || Nonzero(d) - 2 * Minority(d) <= 1
  {
    var slack := |d| as real * eps;
    assert slack >= 0.0;
    Counts(d);
    ExactCount(d, eps);
    SignRatio(TailCount(d, slack), |d|, Nonzero(d), Tail(Nonzero(d), Minority(d)));
    if slack < 2.0 * m || Nonzero(d) - 2 * Minority(d) <= 1 {
      UniformCount(d, m, slack);
    } else {
      UniformLeak(d, m, slack);
    }
  }

  /** The same two deltas: the permutation test and the sign test disagree. */
  lemma {:induction false} HiddenDeltasDisagree(eps: real)
    requires eps > 0.0
    ensures ExactP([eps, eps], eps) != SignTestP([eps, eps])
  {
    var d := [eps, eps];
    TwoEqual(eps);
    assert |d| as real * eps == 2.0 * eps && Uniform(d, eps);
    UniformAgreesWithSignTest(d, eps, eps);
  }

  // --- error control -----------------------------------------------------------------

  /** The share of assignments of `d` at least as extreme as a signed sum of `x`. */
  function ShareAt(d: seq<real>, slack: real, x: real): real {
    CountSums(d, 0.0, Beyond(Abs(x) - slack)) as real / Pow2(|d|) as real
  }

  lemma ExactIsObserved(d: seq<real>, eps: real, slack: real)
    requires |d| > 0 && slack == |d| as real * eps
    ensures ExactP(d, eps) == ShareAt(d, slack, Sum(d))
  {
    ExactCount(d, eps);
  }

  lemma OnlyMagnitudes(a: seq<real>, b: seq<real>, slack: real, x: real)
    requires Magnitudes(a) == Magnitudes(b)
    ensures ShareAt(a, slack, x) == ShareAt(b, slack, x)
  {
    hide CountSums, Beyond, Magnitudes;
    assert |a| == |Magnitudes(a)| && |b| == |Magnitudes(b)|;
    var t := Beyond(Abs(x) - slack);
    CountMagnitudes(a, 0.0, t);
    CountMagnitudes(b, 0.0, t);
  }

  function Rejects(d: seq<real>, slack: real, alpha: real): real -> bool { (x: real) => ShareAt(d, slack, x) <= alpha }

  function AtLeast(p: real -> bool, x: real): real -> bool { (y: real) => p(y) && Abs(y) >= Abs(x) }

  /** Of the signed sums that satisfy `p`, one that is least extreme. */
  lemma {:induction false} LeastExtreme(d: seq<real>, acc: real, p: real -> bool) returns (x: real)
    requires CountSums(d, acc, p) > 0
    ensures p(x) && CountSums(d, acc, p) == CountSums(d, acc, AtLeast(p, x))
  {
    if d == [] {
      x := acc;
    } else {
      var init, last := d[..|d| - 1], d[|d| - 1];
      var u, v := acc + last, acc - last;
      hide CountSums;
      CountTwo(d, acc, p);
      if CountSums(init, u, p) == 0 {
        x := LeastExtreme(init, v, p);
        CountImplies(init, u, AtLeast(p, x), p);
      } else if CountSums(init, v, p) == 0 {
        x := LeastExtreme(init, u, p);
        CountImplies(init, v, AtLeast(p, x), p);
      } else {
        var a := LeastExtreme(init, u, p);
        var b := LeastExtreme(init, v, p);
        x := if Abs(a) <= Abs(b) then a else b;
        Loosened(init, u, p, a, x);
        Loosened(init, v, p, b, x);
      }
      CountTwo(d, acc, AtLeast(p, x));
    }
  }

  lemma CountTwo(d: seq<real>, acc: real, p: real -> bool)
    requires d != []
    ensures var init, last := d[..|d| - 1], d[|d| - 1];
            CountSums(d, acc, p) == CountSums(init, acc + last, p) + CountSums(init, acc - last, p)
  {
  }

  lemma Loosened(d: seq<real>, acc: real, p: real -> bool, a: real, x: real)
    requires Abs(x) <= Abs(a) && CountSums(d, acc, p) == CountSums(d, acc, AtLeast(p, a))
    ensures CountSums(d, acc, p) == CountSums(d, acc, AtLeast(p, x))
  {
    hide CountSums;
    CountImplies(d, acc, AtLeast(p, a), AtLeast(p, x));
    CountImplies(d, acc, AtLeast(p, x), p);
  }

  lemma ShareCleared(count: nat, total: nat, alpha: real)
    requires total > 0 && count as real / total as real <= alpha
    ensures count as real <= alpha * total as real
  {
    var q := count as real / total as real;
    assert q * total as real == count as real;
    assert (alpha - q) * total as real >= 0.0;
  }

  /** Of all sign assignments, at most a share of `alpha` has a p-value of at most `alpha`. */
  lemma {:induction false} RejectedShare(d: seq<real>, slack: real, alpha: real)
    requires slack >= 0.0 && alpha >= 0.0
    ensures CountSums(d, 0.0, Rejects(d, slack, alpha)) as real <= alpha * Pow2(|d|) as real
  {
    hide CountSums, Pow2;
    var p := Rejects(d, slack, alpha);
    if CountSums(d, 0.0, p) == 0 {
      assert alpha * Pow2(|d|) as real >= 0.0;
    } else {
      var x := LeastExtreme(d, 0.0, p);
      CountImplies(d, 0.0, AtLeast(p, x), Beyond(Abs(x) - slack));
      ShareCleared(CountSums(d, 0.0, Beyond(Abs(x) - slack)), Pow2(|d|), alpha);
    }
  }
}
