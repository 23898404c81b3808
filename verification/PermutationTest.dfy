/** `permutation_test` and `sign_test` as they run: bitmask enumeration up to a cutoff, coin-flip
    sampling above it. The random generator is an arbitrary table of coin flips. */
module PermutationTest {
  import opened Common
  import opened Binomial
  import opened SignFlip

  datatype Direction = TowardPositive | TowardNegative | Balanced | NoDirection

  datatype PermResult = PermResult(p: Option<real>, n: nat, nonzero: nat, observedMean: Option<real>,
                                   direction: Direction, exact: bool, minAchievableP: Option<real>)

  datatype SignResult = SignResult(p: Option<real>, nonzero: nat, direction: Direction)

  // --- bitmasks as sign assignments --------------------------------------------

  /** `(mask >> i) & 1`. */
  predicate Bit(mask: nat, i: nat) { (mask / Pow2(i)) % 2 == 1 }

  /** The signed sum the inner loop accumulates for one mask. */
  function MaskSum(d: seq<real>, mask: nat): real {
    if d == [] then 0.0
    else
      var last := d[|d| - 1];
      MaskSum(d[..|d| - 1], mask) + if Bit(mask, |d| - 1) then last else -last
  }

  /** How many masks below `hi` give a signed sum that satisfies `p`. */
  function CountMasks(d: seq<real>, acc: real, p: real -> bool, hi: nat): nat {
    if hi == 0 then 0
    else CountMasks(d, acc, p, hi - 1) + if p(acc + MaskSum(d, hi - 1)) then 1 else 0
  }

  lemma {:induction false} LowBits(mask: nat, n: nat, i: nat)
    requires i < n
    ensures Bit(mask + Pow2(n), i) == Bit(mask, i)
  {
    var q, h := Pow2(i), Pow2(n - i - 1);
    SplitPower(n, i);
    DivShift(mask, q, 2 * h);
    EvenShift(mask / q, h);
  }

  lemma SplitPower(n: nat, i: nat)
    requires i < n
    ensures Pow2(n) == (2 * Pow2(n - i - 1)) * Pow2(i)
  {
    Pow2Add(n - i, i);
  }

  lemma EvenShift(x: nat, h: nat)
    ensures (x + 2 * h) % 2 == x % 2
  {
  }

  lemma {:induction false} DivShift(x: nat, q: nat, c: nat)
    requires q > 0
    ensures (x + c * q) / q == x / q + c
  {
    var a, r := x / q, x % q;
    assert x + c * q == (a + c) * q + r;
    QuotientUnique(x + c * q, q, a + c, r);
  }

  lemma {:induction false} QuotientUnique(x: nat, q: nat, a: nat, r: nat)
    requires q > 0 && x == a * q + r && r < q
    ensures x / q == a
  {
    var b, s := x / q, x % q;
    assert x == b * q + s;
    assert (b - a) * q == b * q - a * q == -((a - b) * q);
    if b > a { MulAtLeast(b - a, q); }
    if b < a { MulAtLeast(a - b, q); }
  }

  lemma MulAtLeast(c: nat, q: nat)
    requires c >= 1
    ensures c * q >= q
  {
  }

  lemma TopBit(mask: nat, n: nat)
    requires mask < Pow2(n)
    ensures !Bit(mask, n) && Bit(mask + Pow2(n), n)
  {
    var q := Pow2(n);
    QuotientUnique(mask, q, 0, mask);
    DivShift(mask, q, 1);
  }

  lemma {:induction false} MaskSumLow(d: seq<real>, mask: nat, n: nat)
    requires |d| <= n
    ensures MaskSum(d, mask + Pow2(n)) == MaskSum(d, mask)
  {
    if d != [] {
      MaskSumLow(d[..|d| - 1], mask, n);
      LowBits(mask, n, |d| - 1);
    }
  }

  /** The top bit decides the sign of the last delta. */
  lemma {:induction false} MaskSumTop(d: seq<real>, mask: nat)
    requires d != [] && mask < Pow2(|d| - 1)
    ensures var init, last, h := d[..|d| - 1], d[|d| - 1], Pow2(|d| - 1);
            && MaskSum(d, mask) == MaskSum(init, mask) - last
            && MaskSum(d, h + mask) == MaskSum(init, mask) + last
  {
    hide Bit, Pow2;
    var n := |d| - 1;
    TopBit(mask, n);
    MaskSumLow(d[..n], mask, n);
    assert Pow2(n) + mask == mask + Pow2(n);
  }

  lemma CountMasksNext(d: seq<real>, acc: real, p: real -> bool, hi: nat)
    ensures CountMasks(d, acc, p, hi + 1) == CountMasks(d, acc, p, hi) + if p(acc + MaskSum(d, hi)) then 1 else 0
  {
  }

  lemma CountMasksNone(d: seq<real>, acc: real, p: real -> bool)
    ensures CountMasks(d, acc, p, 0) == 0
  {
  }

  /** The lower half of the masks flips the last delta, the upper half keeps it. */
  lemma {:induction false} CountHalves(d: seq<real>, acc: real, p: real -> bool, j: nat)
    requires d != [] && j <= Pow2(|d| - 1)
    ensures CountMasks(d, acc, p, j) == CountMasks(d[..|d| - 1], acc - d[|d| - 1], p, j)
    ensures CountMasks(d, acc, p, Pow2(|d| - 1) + j)
         == CountMasks(d, acc, p, Pow2(|d| - 1)) + CountMasks(d[..|d| - 1], acc + d[|d| - 1], p, j)
  {
    hide CountMasks, Pow2;
    var init, last, h := d[..|d| - 1], d[|d| - 1], Pow2(|d| - 1);
    if j == 0 {
      CountMasksNone(d, acc, p);
      CountMasksNone(init, acc - last, p);
      CountMasksNone(init, acc + last, p);
      assert h + 0 == h;
    } else {
      var i := j - 1;
      CountHalves(d, acc, p, i);
      CountHalvesStep(d, acc, p, i);
      assert i + 1 == j && h + i + 1 == h + j;
    }
  }

  lemma {:induction false} CountHalvesStep(d: seq<real>, acc: real, p: real -> bool, j: nat)
    requires d != [] && j < Pow2(|d| - 1)
    ensures var init, last, h := d[..|d| - 1], d[|d| - 1], Pow2(|d| - 1);
            && CountMasks(d, acc, p, j + 1) - CountMasks(d, acc, p, j)
               == CountMasks(init, acc - last, p, j + 1) - CountMasks(init, acc - last, p, j)
            && CountMasks(d, acc, p, h + j + 1) - CountMasks(d, acc, p, h + j)
               == CountMasks(init, acc + last, p, j + 1) - CountMasks(init, acc + last, p, j)
  {
    hide MaskSum, CountMasks, Pow2;
    var init, last, h := d[..|d| - 1], d[|d| - 1], Pow2(|d| - 1);
    MaskSumTop(d, j);
    CountMasksNext(d, acc, p, j);
    CountMasksNext(d, acc, p, h + j);
    CountMasksNext(init, acc - last, p, j);
    CountMasksNext(init, acc + last, p, j);
    assert acc + MaskSum(d, j) == (acc - last) + MaskSum(init, j);
    assert acc + MaskSum(d, h + j) == (acc + last) + MaskSum(init, j);
  }

  /** Enumerating all masks is enumerating all sign assignments. */
  lemma {:induction false} MasksAreAssignments(d: seq<real>, acc: real, p: real -> bool)
    ensures CountMasks(d, acc, p, Pow2(|d|)) == CountSums(d, acc, p)
  {
    if d == [] {
      assert CountMasks(d, acc, p, 1) == CountMasks(d, acc, p, 0) + if p(acc + 0.0) then 1 else 0;
    } else {
      var init, last := d[..|d| - 1], d[|d| - 1];
      AllMasks(d, acc, p);
      MasksAreAssignments(init, acc - last, p);
      MasksAreAssignments(init, acc + last, p);
    }
  }

  lemma {:induction false} AllMasks(d: seq<real>, acc: real, p: real -> bool)
    requires d != []
    ensures var init, last, h := d[..|d| - 1], d[|d| - 1], Pow2(|d| - 1);
            CountMasks(d, acc, p, Pow2(|d|)) == CountMasks(init, acc - last, p, h) + CountMasks(init, acc + last, p, h)
  {
    hide CountMasks;
    CountHalves(d, acc, p, Pow2(|d| - 1));
  }

  // --- sampled sign patterns ------------------------------------------------------

  /** The signed sum of one drawn sign pattern (`true` keeps the delta). */
  function CoinSum(d: seq<real>, coins: seq<bool>): real
    requires |coins| == |d|
  {
    if d == [] then 0.0
    else
      var k := |d| - 1;
      CoinSum(d[..k], coins[..k]) + if coins[k] then d[k] else -d[k]
  }

  ghost predicate Draws(d: seq<real>, coins: seq<seq<bool>>) {
    forall k | 0 <= k < |coins| :: |coins[k]| == |d|
  }

  function CountDraws(d: seq<real>, p: real -> bool, coins: seq<seq<bool>>): nat
    requires Draws(d, coins)
  {
    if coins == [] then 0
    else
      var k := |coins| - 1;
      CountDraws(d, p, coins[..k]) + if p(CoinSum(d, coins[k])) then 1 else 0
  }

  function SampledP(d: seq<real>, eps: real, coins: seq<seq<bool>>): real
    requires |d| > 0 && coins != [] && Draws(d, coins)
  {
    CountDraws(d, Extreme(d, eps), coins) as real / |coins| as real
  }

  function MeanDirection(mean: real): Direction {
    if mean > 0.0 then TowardPositive else if mean < 0.0 then TowardNegative else NoDirection
  }

  function MinAchievable(nonzero: nat): real {
    if nonzero == 0 then 1.0 else if Floor(nonzero) <= 1.0 then Floor(nonzero) else 1.0
  }

  // --- the code -------------------------------------------------------------------

  method CountNonzero(deltas: seq<real>) returns (n: nat)
    ensures n == Nonzero(deltas)
  {
    n := 0;
    for i := 0 to |deltas|
      invariant n == Nonzero(deltas[..i])
    {
      assert deltas[..i + 1][..i] == deltas[..i];
      if deltas[i] != 0.0 { n := n + 1; }
    }
    assert deltas[..|deltas|] == deltas;
  }

  method CountExtremeMasks(deltas: seq<real>, threshold: real) returns (count: nat)
    requires |deltas| > 0
    ensures count == CountSums(deltas, 0.0, (x: real) => Abs(x / |deltas| as real) >= threshold)
  {
    var n := |deltas|;
    ghost var p := (x: real) => Abs(x / n as real) >= threshold;
    count := 0;
    var total := Pow2(n);
    for mask := 0 to total
      invariant count == CountMasks(deltas, 0.0, p, mask)
    {
      var s := 0.0;
      for i := 0 to n
        invariant s == MaskSum(deltas[..i], mask)
      {
        assert deltas[..i + 1][..i] == deltas[..i];
        s := s + if (mask / Pow2(i)) % 2 == 1 then deltas[i] else -deltas[i];
      }
      assert deltas[..n] == deltas;
      assert 0.0 + s == s;
      if Abs(s / n as real) >= threshold { count := count + 1; }
    }
    MasksAreAssignments(deltas, 0.0, p);
  }

  method CountExtremeDraws(deltas: seq<real>, threshold: real, coins: seq<seq<bool>>) returns (count: nat)
    requires |deltas| > 0 && Draws(deltas, coins)
    ensures count == CountDraws(deltas, (x: real) => Abs(x / |deltas| as real) >= threshold, coins)
  {
    var n := |deltas|;
    ghost var p := (x: real) => Abs(x / n as real) >= threshold;
    count := 0;
    for k := 0 to |coins|
      invariant count == CountDraws(deltas, p, coins[..k])
    {
      var s := 0.0;
      for i := 0 to n
        invariant s == CoinSum(deltas[..i], coins[k][..i])
      {
        assert deltas[..i + 1][..i] == deltas[..i] && coins[k][..i + 1][..i] == coins[k][..i];
        s := s + if coins[k][i] then deltas[i] else -deltas[i];
      }
      assert deltas[..n] == deltas && coins[k][..n] == coins[k];
      assert coins[..k + 1][..k] == coins[..k];
      if Abs(s / n as real) >= threshold { count := count + 1; }
    }
    assert coins[..|coins|] == coins;
  }

  /** What the test reports: the exact p-value up to the cutoff, the sampled one above it. */
  function TestSpec(deltas: seq<real>, maxExactN: nat, coins: seq<seq<bool>>): PermResult
    requires Draws(deltas, coins) && (|deltas| > maxExactN ==> coins != [])
  {
    if deltas == [] then PermResult(None, 0, 0, None, NoDirection, true, None)
    else
      var exact := |deltas| <= maxExactN;
      PermResult(Some(if exact then ExactP(deltas, EPS) else SampledP(deltas, EPS, coins)), |deltas|, Nonzero(deltas),
                 Some(Mean(deltas)), MeanDirection(Mean(deltas)), exact, Some(MinAchievable(Nonzero(deltas))))
  }

  lemma {:induction false} NonzeroCounts(d: seq<real>)
    ensures Nonzero(d) == CountIf((x: real) => x != 0.0, d)
  {
    if d != [] { NonzeroCounts(d[..|d| - 1]); }
  }

  lemma MeanSign(s: real, n: nat)
    requires n > 0
    ensures s / n as real > 0.0 <==> s > 0.0
    ensures s / n as real < 0.0 <==> s < 0.0
  {
    var q := s / n as real;
    assert q * n as real == s;
  }

  /** What the test reports beside its p-value: the side the deltas lean to, the mean, how many are
      nonzero, whether all assignments were counted, and the smallest p the nonzero ones allow. */
  lemma {:induction false} TestReports(deltas: seq<real>, maxExactN: nat, coins: seq<seq<bool>>)
    requires Draws(deltas, coins) && (|deltas| > maxExactN ==> coins != [])
    ensures var r, nonzero := TestSpec(deltas, maxExactN, coins), CountIf((x: real) => x != 0.0, deltas);
            && r.n == |deltas| && r.nonzero == nonzero && (r.exact <==> |deltas| <= maxExactN)
            && (deltas == [] <==> r.p.None?) && (deltas == [] <==> r.observedMean.None?) && (deltas == [] <==> r.minAchievableP.None?)
            && (r.direction == TowardPositive <==> Sum(deltas) > 0.0) && (r.direction == TowardNegative <==> Sum(deltas) < 0.0)
            && r.direction != Balanced
            && (deltas != [] ==> r.observedMean.value * |deltas| as real == Sum(deltas))
            && (deltas != [] ==> r.minAchievableP.value == if nonzero <= 1 then 1.0 else 2.0 / Pow2(nonzero) as real)
  {
    hide Sum, CountIf;
    NonzeroCounts(deltas);
    if deltas == [] {
      NoSum();
    } else {
      MeanSign(Sum(deltas), |deltas|);
      if Nonzero(deltas) >= 2 { FloorBelowOne(Nonzero(deltas)); }
      assert Pow2(1) == 2 && Pow2(0) == 1;
    }
  }

  lemma NoSum()
    ensures Sum([]) == 0.0 && Nonzero([]) == 0
  {
  }

  /** `coins` stands for the seeded generator of the sampled branch. */
  method Test(deltas: seq<real>, maxExactN: nat, coins: seq<seq<bool>>) returns (r: PermResult)
    requires Draws(deltas, coins)
    requires |deltas| > maxExactN ==> coins != []
    ensures r == TestSpec(deltas, maxExactN, coins)
  {
    var n := |deltas|;
    var nonzero := CountNonzero(deltas);
    if n == 0 {
      return PermResult(None, 0, 0, None, NoDirection, true, None);
    }
    var observed := Mean(deltas);
    var threshold := Abs(observed) - EPS;
    ghost var beyond := (x: real) => Abs(x / n as real) >= threshold;
    var p, exact;
    if n <= maxExactN {
      var count := CountExtremeMasks(deltas, threshold);
      CountSame(deltas, 0.0, beyond, Extreme(deltas, EPS));
      CountBound(deltas, 0.0, beyond);
      p, exact := count as real / Pow2(n) as real, true;
      RatioAtMostOne(count, Pow2(n));
    } else {
      var count := CountExtremeDraws(deltas, threshold, coins);
      DrawsSame(deltas, beyond, Extreme(deltas, EPS), coins);
      p, exact := count as real / |coins| as real, false;
      RatioAtMostOne(count, |coins|);
    }
    r := PermResult(Some(if p <= 1.0 then p else 1.0), n, nonzero, Some(observed),
                    MeanDirection(observed), exact, Some(MinAchievable(nonzero)));
  }

  lemma RatioAtMostOne(count: nat, total: nat)
    requires total > 0 && count <= total
    ensures count as real / total as real <= 1.0
  {
  }

  lemma {:induction false} DrawsSame(d: seq<real>, p: real -> bool, q: real -> bool, coins: seq<seq<bool>>)
    requires Draws(d, coins) && forall x :: p(x) == q(x)
    ensures CountDraws(d, p, coins) == CountDraws(d, q, coins) <= |coins|
  {
    if coins != [] { DrawsSame(d, p, q, coins[..|coins| - 1]); }
  }

  /** `sign_test`. */
  method TestSigns(deltas: seq<real>) returns (r: SignResult)
    ensures r.nonzero == Nonzero(deltas)
    ensures r.p == if Nonzero(deltas) == 0 then None else Some(SignTestP(deltas))
    ensures r.direction ==
      if Nonzero(deltas) == 0 then NoDirection
      else if 2 * Positive(deltas) > Nonzero(deltas) then TowardPositive
      else if 2 * Positive(deltas) < Nonzero(deltas) then TowardNegative
      else Balanced
  {
    var n := CountNonzero(deltas);
    if n == 0 { return SignResult(None, 0, NoDirection); }
    var pos := 0;
    for i := 0 to |deltas|
      invariant pos == Positive(deltas[..i])
    {
      assert deltas[..i + 1][..i] == deltas[..i];
      if deltas[i] > 0.0 { pos := pos + 1; }
    }
    assert deltas[..|deltas|] == deltas;
    Counts(deltas);
    var neg := n - pos;
    var k := if pos <= neg then pos else neg;
    var ways := 0;
    for i := 0 to k + 1
      invariant ways == Tail(n, i - 1)
    {
      ways := ways + Comb(n, i);
    }
    var tail := ways as real / Pow2(n) as real;
    r := SignResult(Some(if 2.0 * tail <= 1.0 then 2.0 * tail else 1.0), n,
                    if pos > neg then TowardPositive else if neg > pos then TowardNegative else Balanced);
  }

  // --- what the sampled branch does not promise ---------------------------------------

  lemma {:induction false} WitnessAssignment(d: seq<real>, acc: real, p: real -> bool) returns (coins: seq<bool>)
    requires CountSums(d, acc, p) < Pow2(|d|)
    ensures |coins| == |d| && !p(acc + CoinSum(d, coins))
  {
    if d == [] {
      coins := [];
      assert acc + 0.0 == acc;
    } else {
      var init, last := d[..|d| - 1], d[|d| - 1];
      var keep := CountSums(init, acc + last, p) < Pow2(|init|);
      var rest := WitnessAssignment(init, if keep then acc + last else acc - last, p);
      coins := rest + [keep];
      assert coins[..|init|] == rest;
    }
  }

  lemma {:induction false} EveryAssignment(d: seq<real>, acc: real, p: real -> bool, coins: seq<bool>)
    requires |coins| == |d| && CountSums(d, acc, p) == Pow2(|d|)
    ensures p(acc + CoinSum(d, coins))
  {
    if d == [] {
      assert acc + 0.0 == acc;
    } else {
      var k := |d| - 1;
      CountBound(d[..k], acc + d[k], p);
      CountBound(d[..k], acc - d[k], p);
      EveryAssignment(d[..k], if coins[k] then acc + d[k] else acc - d[k], p, coins[..k]);
    }
  }

  lemma {:induction false} AllDrawsExtreme(d: seq<real>, p: real -> bool, coins: seq<seq<bool>>)
    requires Draws(d, coins) && CountSums(d, 0.0, p) == Pow2(|d|)
    ensures CountDraws(d, p, coins) == |coins|
  {
    if coins != [] {
      var k := |coins| - 1;
      AllDrawsExtreme(d, p, coins[..k]);
      EveryAssignment(d, 0.0, p, coins[k]);
      assert 0.0 + CoinSum(d, coins[k]) == CoinSum(d, coins[k]);
    }
  }

  lemma {:induction false} NoDrawExtreme(d: seq<real>, p: real -> bool, bad: seq<bool>, n: nat) returns (coins: seq<seq<bool>>)
    requires |bad| == |d| && !p(CoinSum(d, bad))
    ensures |coins| == n && Draws(d, coins) && CountDraws(d, p, coins) == 0
  {
    if n == 0 {
      coins := [];
    } else {
      var fewer := NoDrawExtreme(d, p, bad, n - 1);
      coins := fewer + [bad];
      assert coins[..n - 1] == fewer;
    }
  }

  /** For any number of samples, the reported minimum is a floor for the sampled branch, whatever is
      drawn, exactly when every sign assignment is extreme: otherwise unlucky draws report zero. */
  lemma {:induction false} SampledFloor(d: seq<real>, eps: real, samples: nat)
    requires |d| > 0 && eps >= 0.0 && Nonzero(d) > 0 && samples > 0
    ensures (forall coins: seq<seq<bool>> | |coins| == samples && Draws(d, coins) ::
               SampledP(d, eps, coins) >= Floor(Nonzero(d)))
            <==> ExactP(d, eps) == 1.0
  {
    var p, n := Extreme(d, eps), Pow2(|d|);
    var count := CountSums(d, 0.0, p);
    CountBound(d, 0.0, p);
    RatioOne(count, n);
    FloorRange(Nonzero(d));
    if count == n {
      forall coins: seq<seq<bool>> | |coins| == samples && Draws(d, coins)
        ensures SampledP(d, eps, coins) >= Floor(Nonzero(d))
      {
        AllDrawsExtreme(d, p, coins);
        RatioOne(|coins|, |coins|);
      }
    } else {
      var bad := WitnessAssignment(d, 0.0, p);
      assert 0.0 + CoinSum(d, bad) == CoinSum(d, bad);
      var coins := NoDrawExtreme(d, p, bad, samples);
      assert SampledP(d, eps, coins) == 0.0;
    }
  }

  lemma RatioOne(count: nat, n: nat)
    requires n > 0
    ensures count as real / n as real == 1.0 <==> count == n
  {
    var c := count as real / n as real;
    assert c * n as real == count as real;
  }

  lemma FloorRange(k: nat)
    requires k > 0
    ensures 0.0 < Floor(k) <= 1.0
  {
    assert Pow2(k) >= 2;
    var f, m := Floor(k), Pow2(k) as real;
    assert f * m == 2.0;
  }

  /** Two or more deltas that agree in sign and are not hidden by the slack: some table of draws makes
      the sampled branch report less than the floor. */
  lemma {:induction false} SampledBelowFloor(d: seq<real>, eps: real, samples: nat)
    requires eps >= 0.0 && samples > 0 && SameSign(d) && Nonzero(d) >= 2 && Resolved(d, |d| as real * eps)
    ensures |d| > 0
    ensures exists coins: seq<seq<bool>> :: |coins| == samples && Draws(d, coins) && SampledP(d, eps, coins) < Floor(Nonzero(d))
  {
    Counts(d);
    FloorAttained(d, eps);
    SampledFloor(d, eps, samples);
    FloorBelowOne(Nonzero(d));
  }

  lemma FloorBelowOne(k: nat)
    requires k >= 2
    ensures Floor(k) < 1.0
  {
    assert Pow2(k) == 4 * Pow2(k - 2);
    var f, m := Floor(k), Pow2(k) as real;
    assert f * m == 2.0 && m >= 4.0;
  }

  function Ones(n: nat): (d: seq<real>)
    ensures |d| == n && forall i | 0 <= i < n :: d[i] == 1.0
  {
    seq(n, i => 1.0)
  }

  lemma {:induction false} OnesNonzero(n: nat)
    ensures Nonzero(Ones(n)) == n
  {
    if n > 0 {
      assert Ones(n)[..n - 1] == Ones(n - 1);
      OnesNonzero(n - 1);
    }
  }

  /** Deltas that are all one, too many to enumerate: some table of draws makes the test report a
      p-value below the minimum it reports as achievable. */
  lemma {:induction false} OnesBelowMinimum(n: nat, maxExactN: nat, samples: nat)
    requires 2 <= n && maxExactN < n && n as real * EPS < 2.0 && samples > 0
    ensures exists coins: seq<seq<bool>> | |coins| == samples && Draws(Ones(n), coins) ::
              var r := TestSpec(Ones(n), maxExactN, coins);
              !r.exact && r.p.value < r.minAchievableP.value
  {
    hide Nonzero, Floor, SampledP, ExactP;
    var d := Ones(n);
    OnesNonzero(n);
    SampledBelowFloor(d, EPS, samples);
    FloorBelowOne(n);
    var coins: seq<seq<bool>> :| |coins| == samples && Draws(d, coins) && SampledP(d, EPS, coins) < Floor(n);
    assert TestSpec(d, maxExactN, coins).p == Some(SampledP(d, EPS, coins));
  }

  // --- error control -------------------------------------------------------------------

  /** The deltas with their signs flipped as a mask says. */
  function Flipped(d: seq<real>, mask: nat): (r: seq<real>)
    ensures |r| == |d| && forall i | 0 <= i < |d| :: r[i] == if Bit(mask, i) then d[i] else -d[i]
  {
    seq(|d|, i requires 0 <= i < |d| => if Bit(mask, i) then d[i] else -d[i])
  }

  lemma {:induction false} FlippedSum(d: seq<real>, mask: nat)
    ensures Sum(Flipped(d, mask)) == MaskSum(d, mask)
  {
    hide Bit;
    if d != [] {
      var k := |d| - 1;
      assert Flipped(d, mask)[..k] == Flipped(d[..k], mask);
      FlippedSum(d[..k], mask);
    }
  }

  /** The test on flipped deltas counts the same assignments as on the deltas themselves. */
  lemma {:induction false} FlippedP(d: seq<real>, eps: real, slack: real, mask: nat)
    requires |d| > 0 && slack == |d| as real * eps
    ensures ExactP(Flipped(d, mask), eps) == ShareAt(d, slack, MaskSum(d, mask))
  {
    hide ExactP, ShareAt, Sum, MaskSum, Flipped, Magnitudes;
    ExactIsObserved(Flipped(d, mask), eps, slack);
    FlippedSum(d, mask);
    FlippedMagnitudes(d, mask);
    OnlyMagnitudes(Flipped(d, mask), d, slack, MaskSum(d, mask));
  }

  lemma FlippedMagnitudes(d: seq<real>, mask: nat)
    ensures Magnitudes(Flipped(d, mask)) == Magnitudes(d)
  {
    hide Bit;
  }

  /** How many of the masks below `hi` make the exact test report at most `alpha`. */
  function Rejected(d: seq<real>, eps: real, alpha: real, hi: nat): nat
    requires |d| > 0
  {
    if hi == 0 then 0
    else Rejected(d, eps, alpha, hi - 1) + if ExactP(Flipped(d, hi - 1), eps) <= alpha then 1 else 0
  }

  lemma {:induction false} RejectedMasks(d: seq<real>, eps: real, slack: real, alpha: real, hi: nat)
    requires |d| > 0 && slack == |d| as real * eps
    ensures Rejected(d, eps, alpha, hi) == CountMasks(d, 0.0, Rejects(d, slack, alpha), hi)
  {
    hide ExactP, ShareAt, MaskSum;
    if hi > 0 {
      RejectedMasks(d, eps, slack, alpha, hi - 1);
      FlippedP(d, eps, slack, hi - 1);
      assert 0.0 + MaskSum(d, hi - 1) == MaskSum(d, hi - 1);
    }
  }

  /** Exact error control: when every sign assignment is equally likely, the exact test reports a
      p-value of at most `alpha` with probability at most `alpha`. */
  lemma {:induction false} ErrorControl(d: seq<real>, eps: real, alpha: real)
    requires |d| > 0 && eps >= 0.0 && alpha >= 0.0
    ensures Rejected(d, eps, alpha, Pow2(|d|)) as real <= alpha * Pow2(|d|) as real
  {
    hide Rejected, CountMasks, CountSums, Pow2;
    var slack := |d| as real * eps;
    assert slack >= 0.0;
    RejectedMasks(d, eps, slack, alpha, Pow2(|d|));
    MasksAreAssignments(d, 0.0, Rejects(d, slack, alpha));
    RejectedShare(d, slack, alpha);
  }
}
