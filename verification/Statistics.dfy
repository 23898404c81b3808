/** The statistics block of one patch: `win_rate`, `efficiency_deltas` and `summarize` of
    `interstellar/stats.py`, over every table of random draws. */
module Statistics {
  import opened Common
  import opened Grading
  import opened Bootstrap
  import opened Resamples
  import opened Medians
  import PermutationTest
  import PassK

  // --- win rate ---------------------------------------------------------------------

  datatype WinStats = WinStats(wins: nat, ties: nat, losses: nat, n: nat, rate: Option<real>,
                               lo: Option<real>, hi: Option<real>, note: Note, distinct: Option<nat>)

  /** The verdicts of the judged grades, in order. */
  function Verdicts(grades: seq<Grade>): (r: seq<Verdict>)
    ensures |r| <= |grades|
  {
    if grades == [] then []
    else
      var k := |grades| - 1;
      Verdicts(grades[..k]) + if grades[k].judge.Some? then [grades[k].judge.value.verdict] else []
  }

  function Tally(v: seq<Verdict>, x: Verdict): nat {
    if v == [] then 0 else Tally(v[..|v| - 1], x) + if v[|v| - 1] == x then 1 else 0
  }

  /** `w / (w + l)` for each resample that has a decided pair. */
  function ResampleRates(v: seq<Verdict>, draws: seq<seq<nat>>): seq<real>
    requires ValidDraws(|v|, draws)
  {
    if draws == [] then []
    else
      var k := |draws| - 1;
      var sample := Pick(v, draws[k]);
      var w, l := Tally(sample, ForTreatment), Tally(sample, ForControl);
      ResampleRates(v, draws[..k]) + if w + l > 0 then [w as real / (w + l) as real] else []
  }

  function WinRateSpec(v: seq<Verdict>, draws: seq<seq<nat>>): WinStats
    requires ValidDraws(|v|, draws)
  {
    var wins, losses, ties := Tally(v, ForTreatment), Tally(v, ForControl), Tally(v, Tie);
    var decided := wins + losses;
    var base := WinStats(wins, ties, losses, |v|, if decided > 0 then Some(wins as real / decided as real) else None,
                         None, None, NoNote, DistinctResamples(decided));
    if |v| == 0 then base.(note := InsufficientSamples)
    else if decided == 0 then base.(note := NoDecidedPairs)
    else if decided < MIN_SAMPLES_FOR_CI then base.(note := InsufficientDecidedPairs)
    else
      var rates := ResampleRates(v, draws);
      if |rates| < 2 then base.(note := InsufficientSamples)
      else base.(lo := Percentile(SortReals(rates), 2.5), hi := Percentile(SortReals(rates), 97.5),
                 note := if decided < LOW_CONFIDENCE_CI then LowConfidence else NoNote)
  }

  method CountVerdicts(v: seq<Verdict>) returns (wins: nat, losses: nat, ties: nat)
    ensures wins == Tally(v, ForTreatment) && losses == Tally(v, ForControl) && ties == Tally(v, Tie)
  {
    wins, losses, ties := 0, 0, 0;
    for i := 0 to |v|
      invariant wins == Tally(v[..i], ForTreatment)
      invariant losses == Tally(v[..i], ForControl)
      invariant ties == Tally(v[..i], Tie)
    {
      assert v[..i + 1][..i] == v[..i];
      match v[i]
      case ForTreatment => wins := wins + 1;
      case ForControl => losses := losses + 1;
      case Tie => ties := ties + 1;
    }
    assert v[..|v|] == v;
  }

  method JudgedVerdicts(grades: seq<Grade>) returns (v: seq<Verdict>)
    ensures v == Verdicts(grades)
  {
    v := [];
    for i := 0 to |grades|
      invariant v == Verdicts(grades[..i])
    {
      assert grades[..i + 1][..i] == grades[..i];
      if grades[i].judge.Some? { v := v + [grades[i].judge.value.verdict]; }
    }
    assert grades[..|grades|] == grades;
  }

  method ResampleWinRates(v: seq<Verdict>, draws: seq<seq<nat>>) returns (rates: seq<real>)
    requires ValidDraws(|v|, draws)
    ensures rates == ResampleRates(v, draws)
  {
    rates := [];
    for k := 0 to |draws|
      invariant rates == ResampleRates(v, draws[..k])
    {
      assert draws[..k + 1][..k] == draws[..k];
      var w, l, _ := CountVerdicts(Pick(v, draws[k]));
      if w + l > 0 { rates := rates + [w as real / (w + l) as real]; }
    }
    assert draws[..|draws|] == draws;
  }

  method WinRate(grades: seq<Grade>, rng: nat -> seq<seq<nat>>) returns (r: WinStats)
    requires ValidRng(rng)
    ensures r == WinRateSpec(Verdicts(grades), rng(|Verdicts(grades)|))
  {
    hide Verdicts, Tally, ResampleRates, Percentile, SortReals, DistinctResamples;
    var v := JudgedVerdicts(grades);
    var n, draws := |v|, rng(|v|);
    assert ValidDraws(n, draws);
    var wins, losses, ties := CountVerdicts(v);
    var decided := wins + losses;
    r := WinStats(wins, ties, losses, n, if decided > 0 then Some(wins as real / decided as real) else None,
                  None, None, NoNote, DistinctResamples(decided));
    if n == 0 { return r.(note := InsufficientSamples); }
    if decided == 0 { return r.(note := NoDecidedPairs); }
    if decided < MIN_SAMPLES_FOR_CI { return r.(note := InsufficientDecidedPairs); }
    var rates := ResampleWinRates(v, draws);
    if |rates| < 2 { return r.(note := InsufficientSamples); }
    rates := SortReals(rates);
    r := r.(lo := Percentile(rates, 2.5), hi := Percentile(rates, 97.5),
            note := if decided < LOW_CONFIDENCE_CI then LowConfidence else NoNote);
  }

  lemma {:induction false} TalliesAddUp(v: seq<Verdict>)
    ensures Tally(v, ForTreatment) + Tally(v, ForControl) + Tally(v, Tie) == |v|
  {
    if v != [] { TalliesAddUp(v[..|v| - 1]); }
  }

  lemma {:induction false} TallyAbsent(v: seq<Verdict>, x: Verdict)
    ensures Tally(v, x) == 0 <==> x !in v
  {
    if v != [] {
      TallyAbsent(v[..|v| - 1], x);
      assert v == v[..|v| - 1] + [v[|v| - 1]];
    }
  }

  lemma {:induction false} RatesWithin(v: seq<Verdict>, draws: seq<seq<nat>>)
    requires ValidDraws(|v|, draws)
    ensures Within(ResampleRates(v, draws), 0.0, if Tally(v, ForTreatment) == 0 then 0.0 else 1.0)
  {
    if draws != [] {
      var k := |draws| - 1;
      RatesWithin(v, draws[..k]);
      var sample := Pick(v, draws[k]);
      TallyAbsent(v, ForTreatment);
      TallyAbsent(sample, ForTreatment);
      var w, l := Tally(sample, ForTreatment), Tally(sample, ForControl);
      if w + l > 0 { RateRange(w, l); }
    }
  }

  lemma RateRange(w: nat, l: nat)
    requires w + l > 0
    ensures 0.0 <= w as real / (w + l) as real <= 1.0
    ensures w == 0 ==> w as real / (w + l) as real == 0.0
  {
  }

  /** Whatever is drawn, a win-rate interval is an ordered subinterval of [0, 1] that rests on at
      least ten decided pairs, and a lower bound above zero needs an actual win. */
  lemma {:induction false} WinIntervalHonest(v: seq<Verdict>, draws: seq<seq<nat>>)
    requires ValidDraws(|v|, draws)
    ensures var r := WinRateSpec(v, draws);
            && r.wins + r.losses + r.ties == r.n == |v|
            && (r.lo.Some? <==> r.hi.Some?)
            && (r.lo.Some? ==> 0.0 <= r.lo.value <= r.hi.value <= 1.0 && r.wins + r.losses >= MIN_SAMPLES_FOR_CI)
            && (r.lo.Some? && r.lo.value > 0.0 ==> r.wins > 0)
  {
    TalliesAddUp(v);
    var rates := ResampleRates(v, draws);
    var top := if Tally(v, ForTreatment) == 0 then 0.0 else 1.0;
    RatesWithin(v, draws);
    SortedWithin(rates, 0.0, top);
    if |rates| >= 2 {
      PercentileOrder(SortReals(rates), 2.5, 97.5, 0.0, top);
    }
  }

  // --- efficiency ---------------------------------------------------------------------

  /** Every metric is one of which less is better. */
  predicate LowerIsBetter(m: Metric) { true }

  datatype EffEntry = EffEntry(lowerIsBetter: bool, n: nat, controlMedian: Option<real>, treatmentMedian: Option<real>,
                               absDelta: Option<real>, pctDelta: Option<real>, boot: Boot)

  function Controls(grades: seq<Grade>, m: Metric): (r: seq<real>)
    ensures |r| == |Treatments(grades, m)|
  {
    if grades == [] then []
    else
      var k := |grades| - 1;
      var g := grades[k];
      Controls(grades[..k], m) + if m in g.control && m in g.treatment then [g.control[m]] else []
  }

  function Treatments(grades: seq<Grade>, m: Metric): seq<real> {
    if grades == [] then []
    else
      var k := |grades| - 1;
      var g := grades[k];
      Treatments(grades[..k], m) + if m in g.control && m in g.treatment then [g.treatment[m]] else []
  }

  /** Paired differences, control minus treatment. */
  function Deltas(grades: seq<Grade>, m: Metric): (r: seq<real>)
    ensures |r| == |Controls(grades, m)|
    ensures forall i | 0 <= i < |r| :: r[i] == Controls(grades, m)[i] - Treatments(grades, m)[i]
  {
    var c, t := Controls(grades, m), Treatments(grades, m);
    seq(|c|, i requires 0 <= i < |c| => c[i] - t[i])
  }

  /** Medians of the two sides, their difference, and its share of the control median. */
  function Entry(m: Metric, c: seq<real>, t: seq<real>, boot: Boot): EffEntry
    requires |c| == |t|
  {
    if c == [] then EffEntry(LowerIsBetter(m), 0, None, None, None, None, boot)
    else
      var cm, tm := Median(c), Median(t);
      EffEntry(LowerIsBetter(m), |c|, Some(cm), Some(tm), Some(cm - tm), Share(cm, tm), boot)
  }

  /** The relative change; undefined for a zero control median. */
  function Share(cm: real, tm: real): Option<real> { if cm != 0.0 then Some((cm - tm) / cm) else None }

  function EfficiencySpec(grades: seq<Grade>, m: Metric, rng: nat -> seq<seq<nat>>): EffEntry
    requires ValidRng(rng)
  {
    var d := Deltas(grades, m);
    Entry(m, Controls(grades, m), Treatments(grades, m), BootstrapSpec(d, rng(|d|)))
  }

  method MetricPairs(grades: seq<Grade>, m: Metric) returns (c: seq<real>, t: seq<real>, d: seq<real>)
    ensures c == Controls(grades, m) && t == Treatments(grades, m) && d == Deltas(grades, m)
  {
    c, t := [], [];
    for i := 0 to |grades|
      invariant c == Controls(grades[..i], m) && t == Treatments(grades[..i], m)
    {
      assert grades[..i + 1][..i] == grades[..i];
      var g := grades[i];
      if m in g.control && m in g.treatment {
        c, t := c + [g.control[m]], t + [g.treatment[m]];
      }
    }
    assert grades[..|grades|] == grades;
    d := seq(|c|, i requires 0 <= i < |c| && |c| == |t| => c[i] - t[i]);
  }

  method EfficiencyDelta(grades: seq<Grade>, m: Metric, rng: nat -> seq<seq<nat>>) returns (e: EffEntry)
    requires ValidRng(rng)
    ensures e == EfficiencySpec(grades, m, rng)
  {
    var c, t, d := MetricPairs(grades, m);
    assert ValidDraws(|d|, rng(|d|));
    var boot := PairedBootstrap(d, rng(|d|));
    e := Entry(m, c, t, boot);
  }

  /** A positive delta comes from a grade whose treatment reading is strictly lower. */
  lemma {:induction false} DeltaFromGrade(grades: seq<Grade>, m: Metric, i: nat) returns (g: nat)
    requires i < |Deltas(grades, m)|
    ensures g < |grades| && m in grades[g].control && m in grades[g].treatment
    ensures Deltas(grades, m)[i] == grades[g].control[m] - grades[g].treatment[m]
  {
    var k := |grades| - 1;
    var init := grades[..k];
    if i < |Controls(init, m)| {
      g := DeltaFromGrade(init, m, i);
      assert Deltas(init, m)[i] == Deltas(grades, m)[i];
    } else {
      g := k;
    }
  }

  // --- summary ------------------------------------------------------------------------

  datatype Effect = SkillTokensEffect | ToolCallsEffect | McpStartupEffect | ToolResultTokensEffect | WallMsEffect
                  | UnknownEffect(name: string)

  function MetricOf(e: Effect): Option<Metric> {
    match e
    case SkillTokensEffect => Some(SkillTokens)
    case ToolCallsEffect => Some(ToolCalls)
    case McpStartupEffect => Some(McpStartupMs)
    case ToolResultTokensEffect => Some(ToolResultTokens)
    case WallMsEffect => Some(WallMs)
    case UnknownEffect(_) => None
  }

  const METRICS := [TotalTokens, CostUsd, WallMs, ToolCalls, SkillTokens, SkillWastedTokens,
                    ToolResultTokens, McpStartupMs, DuplicateCalls, Turns]

  datatype Summary = Summary(pairsTotal: nat, pairsUsable: nat, controlFailures: nat, treatmentFailures: nat,
                             win: WinStats, permutation: PermutationTest.PermResult,
                             efficiency: map<Metric, EffEntry>, passK: PassK.PassResult,
                             regressions: seq<Regression>, consistency: Consistency, effect: Option<Effect>)

  /** How often the judge agreed with itself under the position swap. */
  datatype Consistency = Consistency(pairs: nat, agreed: nat, rate: Option<real>, few: bool)

  function Agreed(grades: seq<Grade>): nat {
    if grades == [] then 0
    else
      var j := grades[|grades| - 1].judge;
      Agreed(grades[..|grades| - 1]) + if j.Some? && j.value.consistent then 1 else 0
  }

  function ConsistencySpec(grades: seq<Grade>): Consistency {
    var pairs, agreed := |Verdicts(grades)|, Agreed(grades);
    Consistency(pairs, agreed, if pairs > 0 then Some(agreed as real / pairs as real) else None, pairs < 5)
  }

  method JudgeConsistency(grades: seq<Grade>) returns (c: Consistency)
    ensures c == ConsistencySpec(grades)
  {
    var pairs, agreed := 0, 0;
    for i := 0 to |grades|
      invariant pairs == |Verdicts(grades[..i])| && agreed == Agreed(grades[..i])
    {
      assert grades[..i + 1][..i] == grades[..i];
      if grades[i].judge.Some? {
        pairs := pairs + 1;
        if grades[i].judge.value.consistent { agreed := agreed + 1; }
      }
    }
    assert grades[..|grades|] == grades;
    c := Consistency(pairs, agreed, if pairs > 0 then Some(agreed as real / pairs as real) else None, pairs < 5);
  }

  /** An inconsistent judgement is a tie: decided verdicts are all consistent. */
  lemma {:induction false} DecidedAgree(grades: seq<Grade>)
    requires forall i | 0 <= i < |grades| && grades[i].judge.Some? ::
               grades[i].judge.value.consistent || grades[i].judge.value.verdict.Tie?
    ensures Tally(Verdicts(grades), ForTreatment) + Tally(Verdicts(grades), ForControl) <= Agreed(grades) <= |Verdicts(grades)|
  {
    if grades == [] {
      assert Verdicts([]) == [];
    } else {
      var k := |grades| - 1;
      hide Tally, Verdicts, Agreed;
      DecidedAgree(grades[..k]);
      JudgedLast(grades);
      if grades[k].judge.Some? { TallyLast(Verdicts(grades[..k]), grades[k].judge.value.verdict); }
    }
  }

  lemma JudgedLast(grades: seq<Grade>)
    requires grades != []
    ensures var k, j := |grades| - 1, grades[|grades| - 1].judge;
            && Verdicts(grades) == (if j.Some? then Verdicts(grades[..k]) + [j.value.verdict] else Verdicts(grades[..k]))
            && Agreed(grades) == Agreed(grades[..k]) + if j.Some? && j.value.consistent then 1 else 0
  {
  }

  lemma TallyLast(v: seq<Verdict>, x: Verdict)
    ensures forall y :: Tally(v + [x], y) == Tally(v, y) + if x == y then 1 else 0
  {
    assert (v + [x])[..|v|] == v;
  }

  const MAX_EXACT_N := 20

  /** The sign flips of the sampled permutation test, for every number of deltas. */
  ghost predicate ValidFlips(flips: nat -> seq<seq<bool>>) { forall n: nat :: FlipsFor(n, flips(n)) }

  ghost predicate FlipsFor(n: nat, coins: seq<seq<bool>>) {
    (n > 0 ==> coins != []) && forall k | 0 <= k < |coins| :: |coins[k]| == n
  }

  function TreatmentOutcomes(grades: seq<Grade>): seq<bool> {
    seq(|grades|, i requires 0 <= i < |grades| => grades[i].treatmentOk)
  }

  function Usable(grades: seq<Grade>): nat {
    if grades == [] then 0
    else
      var g := grades[|grades| - 1];
      Usable(grades[..|grades| - 1]) + if g.controlOk && g.treatmentOk then 1 else 0
  }

  function ControlFailures(grades: seq<Grade>): nat {
    if grades == [] then 0
    else ControlFailures(grades[..|grades| - 1]) + if grades[|grades| - 1].controlOk then 0 else 1
  }

  function TreatmentFailures(grades: seq<Grade>): nat {
    if grades == [] then 0
    else TreatmentFailures(grades[..|grades| - 1]) + if grades[|grades| - 1].treatmentOk then 0 else 1
  }

  function AllRegressions(grades: seq<Grade>): seq<Regression> {
    if grades == [] then [] else AllRegressions(grades[..|grades| - 1]) + grades[|grades| - 1].regressions
  }

  lemma {:induction false} RegressionListed(grades: seq<Grade>, i: nat, r: Regression)
    requires i < |grades| && r in grades[i].regressions
    ensures r in AllRegressions(grades)
  {
    if i < |grades| - 1 { RegressionListed(grades[..|grades| - 1], i, r); }
  }

  lemma {:induction false} UsableGrade(grades: seq<Grade>)
    ensures Usable(grades) == 0 <==> forall i | 0 <= i < |grades| :: !(grades[i].controlOk && grades[i].treatmentOk)
  {
    if grades != [] {
      var init := grades[..|grades| - 1];
      UsableGrade(init);
      assert forall i | 0 <= i < |init| :: init[i] == grades[i];
    }
  }

  function SummarySpec(grades: seq<Grade>, effect: Effect, rng: nat -> seq<seq<nat>>, flips: nat -> seq<seq<bool>>): (s: Summary)
    requires ValidRng(rng) && ValidFlips(flips) && MetricOf(effect).Some?
  {
    var v, d := Verdicts(grades), Deltas(grades, MetricOf(effect).value);
    assert FlipsFor(|d|, flips(|d|));
    Summary(|grades|, Usable(grades), ControlFailures(grades), TreatmentFailures(grades),
            WinRateSpec(v, rng(|v|)), PermutationTest.TestSpec(d, MAX_EXACT_N, flips(|d|)),
            map m | m in METRICS :: EfficiencySpec(grades, m, rng), PassK.PassK(TreatmentOutcomes(grades), None),
            AllRegressions(grades), ConsistencySpec(grades), Some(effect))
  }

  method RunHealth(grades: seq<Grade>) returns (usable: nat, cf: nat, tf: nat, regs: seq<Regression>)
    ensures usable == Usable(grades) && cf == ControlFailures(grades) && tf == TreatmentFailures(grades)
    ensures regs == AllRegressions(grades)
  {
    usable, cf, tf, regs := 0, 0, 0, [];
    for i := 0 to |grades|
      invariant usable == Usable(grades[..i])
      invariant cf == ControlFailures(grades[..i]) && tf == TreatmentFailures(grades[..i])
      invariant regs == AllRegressions(grades[..i])
    {
      assert grades[..i + 1][..i] == grades[..i];
      if !grades[i].controlOk { cf := cf + 1; }
      if !grades[i].treatmentOk { tf := tf + 1; }
      if grades[i].controlOk && grades[i].treatmentOk { usable := usable + 1; }
      regs := regs + grades[i].regressions;
    }
    assert grades[..|grades|] == grades;
  }

  method EfficiencyDeltas(grades: seq<Grade>, rng: nat -> seq<seq<nat>>) returns (eff: map<Metric, EffEntry>)
    requires ValidRng(rng)
    ensures forall m :: m in eff
    ensures forall m | m in METRICS :: eff[m] == EfficiencySpec(grades, m, rng)
    ensures forall m :: m in METRICS
  {
    eff := map[];
    for j := 0 to |METRICS|
      invariant forall m :: m in eff <==> m in METRICS[..j]
      invariant forall m | m in eff :: eff[m] == EfficiencySpec(grades, m, rng)
    {
      var e := EfficiencyDelta(grades, METRICS[j], rng);
      assert METRICS[..j + 1] == METRICS[..j] + [METRICS[j]];
      eff := eff[METRICS[j] := e];
    }
    assert METRICS[..|METRICS|] == METRICS;
    AllMetrics();
  }

  lemma AllMetrics()
    ensures forall m: Metric :: m in METRICS
  {
    forall m: Metric ensures m in METRICS {
      match m
      case TotalTokens => assert METRICS[0] == m;
      case CostUsd => assert METRICS[1] == m;
      case WallMs => assert METRICS[2] == m;
      case ToolCalls => assert METRICS[3] == m;
      case SkillTokens => assert METRICS[4] == m;
      case SkillWastedTokens => assert METRICS[5] == m;
      case ToolResultTokens => assert METRICS[6] == m;
      case McpStartupMs => assert METRICS[7] == m;
      case DuplicateCalls => assert METRICS[8] == m;
      case Turns => assert METRICS[9] == m;
    }
  }

  /** The permutation test on the deltas of the claimed metric. */
  method PrimaryTest(grades: seq<Grade>, m: Metric, flips: nat -> seq<seq<bool>>) returns (r: PermutationTest.PermResult)
    requires ValidFlips(flips)
    ensures FlipsFor(|Deltas(grades, m)|, flips(|Deltas(grades, m)|))
    ensures r == PermutationTest.TestSpec(Deltas(grades, m), MAX_EXACT_N, flips(|Deltas(grades, m)|))
  {
    hide Controls, Treatments, PermutationTest.TestSpec;
    var _, _, primary := MetricPairs(grades, m);
    assert FlipsFor(|primary|, flips(|primary|));
    r := PermutationTest.Test(primary, MAX_EXACT_N, flips(|primary|));
  }

  /** Summaries exist only for effects that map to a metric (the source raises otherwise). */
  method Summarize(grades: seq<Grade>, effect: Effect, rng: nat -> seq<seq<nat>>, flips: nat -> seq<seq<bool>>)
      returns (s: Option<Summary>)
    requires ValidRng(rng) && ValidFlips(flips)
    ensures s == if MetricOf(effect).Some? then Some(SummarySpec(grades, effect, rng, flips)) else None
  {
    hide Usable, ControlFailures, TreatmentFailures, AllRegressions, Verdicts, WinRateSpec, EfficiencySpec, ConsistencySpec,
         Deltas, PermutationTest.TestSpec, PassK.PassK, ValidRng, ValidFlips;
    if MetricOf(effect).None? { return None; }
    var permutation := PrimaryTest(grades, MetricOf(effect).value, flips);
    var consistency := JudgeConsistency(grades);
    var usable, cf, tf, regs := RunHealth(grades);
    var win := WinRate(grades, rng);
    var eff := EfficiencyDeltas(grades, rng);
    assert eff == SummarySpec(grades, effect, rng, flips).efficiency;
    s := Some(Summary(|grades|, usable, cf, tf, win, permutation, eff, PassK.PassK(TreatmentOutcomes(grades), None), regs,
                      consistency, Some(effect)));
  }
}
