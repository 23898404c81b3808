/** What the numbers in a patch's summary mean, said of the grades themselves. */
module SummaryFacts {
  import opened Common
  import opened Grading
  import opened Bootstrap
  import opened Resamples
  import opened Medians
  import opened Statistics
  import PermutationTest
  import PassK

  // --- the pairs that count ---------------------------------------------------------------------

  function Judged(): Grade -> bool { (g: Grade) => g.judge.Some? }

  function VerdictOf(g: Grade): Verdict { if g.judge.Some? then g.judge.value.verdict else Tie }

  /** The verdicts are those of the judged grades, in order. */
  lemma {:induction false} VerdictsOfJudged(grades: seq<Grade>)
    ensures Verdicts(grades) == Map(VerdictOf, Filter(Judged(), grades))
  {
    if grades != [] {
      var k := |grades| - 1;
      VerdictsOfJudged(grades[..k]);
      MapAppend(VerdictOf, Filter(Judged(), grades[..k]), [grades[k]]);
    }
  }

  lemma {:induction false} TallyCounts(v: seq<Verdict>, x: Verdict)
    ensures Tally(v, x) == multiset(v)[x]
  {
    if v != [] {
      TallyCounts(v[..|v| - 1], x);
      InitLast(v);
      assert multiset(v) == multiset(v[..|v| - 1]) + multiset{v[|v| - 1]};
    }
  }

  function BothReport(m: Metric): Grade -> bool { (g: Grade) => m in g.control && m in g.treatment }

  function ControlReading(m: Metric): Grade -> real { (g: Grade) => if m in g.control then g.control[m] else 0.0 }

  function TreatmentReading(m: Metric): Grade -> real { (g: Grade) => if m in g.treatment then g.treatment[m] else 0.0 }

  /** The readings compared for a metric are those of exactly the grades where both sides report it. */
  lemma {:induction false} ReadingsOfPairs(grades: seq<Grade>, m: Metric)
    ensures Controls(grades, m) == Map(ControlReading(m), Filter(BothReport(m), grades))
    ensures Treatments(grades, m) == Map(TreatmentReading(m), Filter(BothReport(m), grades))
  {
    if grades != [] {
      var k := |grades| - 1;
      ReadingsOfPairs(grades[..k], m);
      MapAppend(ControlReading(m), Filter(BothReport(m), grades[..k]), [grades[k]]);
      MapAppend(TreatmentReading(m), Filter(BothReport(m), grades[..k]), [grades[k]]);
    }
  }

  // --- the win rate --------------------------------------------------------------------------------

  /** Each draw gives the win rate of its own resample, or nothing when it has no decided pair. */
  lemma {:induction false} RatePerDraw(v: seq<Verdict>, draws: seq<seq<nat>>, draw: seq<nat>)
    requires ValidDraws(|v|, draws) && ValidDraw(|v|, draw)
    ensures ValidDraws(|v|, draws + [draw]) && ResampleRates(v, []) == []
    ensures var sample := multiset(Pick(v, draw));
            var w, l := sample[ForTreatment], sample[ForControl];
            ResampleRates(v, draws + [draw])
            == ResampleRates(v, draws) + if w + l == 0 then [] else [w as real / (w + l) as real]
  {
    assert (draws + [draw])[..|draws|] == draws;
    TallyCounts(Pick(v, draw), ForTreatment);
    TallyCounts(Pick(v, draw), ForControl);
  }

  /** What a win rate reports, field by field. The interval is read off the ascending arrangement of
      the resamples' rates, at 2.5 and 97.5 percent. */
  lemma {:induction false} WinRateReports(v: seq<Verdict>, draws: seq<seq<nat>>, sorted: seq<real>)
    requires ValidDraws(|v|, draws) && Ascending(sorted) && multiset(sorted) == multiset(ResampleRates(v, draws))
    ensures var r, wins, losses := WinRateSpec(v, draws), multiset(v)[ForTreatment], multiset(v)[ForControl];
            var decided := wins + losses;
            && r.n == |v| && r.wins == wins && r.losses == losses && r.ties == multiset(v)[Tie]
            && r.rate == (if decided == 0 then None else Some(wins as real / decided as real))
            && r.distinct == DistinctResamples(decided)
            && r.note == (if v == [] then InsufficientSamples else if decided == 0 then NoDecidedPairs
                          else if decided < 10 then InsufficientDecidedPairs else if |sorted| < 2 then InsufficientSamples
                          else if decided < 20 then LowConfidence else NoNote)
            && (decided < 10 || |sorted| < 2 ==> r.lo.None? && r.hi.None?)
            && (decided >= 10 && |sorted| >= 2 ==>
                  r.lo == Some(LinearAt(sorted, Along(sorted, 2.5))) && r.hi == Some(LinearAt(sorted, Along(sorted, 97.5))))
  {
    hide LinearAt, Along, Percentile, SortReals, Tally, ResampleRates, DistinctResamples;
    TallyCounts(v, ForTreatment);
    TallyCounts(v, ForControl);
    TallyCounts(v, Tie);
    var rates := ResampleRates(v, draws);
    SameArrangement(sorted, SortReals(rates));
    SameSize(sorted, rates);
    if |sorted| >= 2 {
      PercentileIsLinear(sorted, 2.5);
      PercentileIsLinear(sorted, 97.5);
    }
  }

  // --- efficiency -------------------------------------------------------------------------------------

  /** What an entry says of the readings of either side: how many pairs, their medians, the medians'
      difference and its share of the control's. */
  ghost predicate Describes(e: EffEntry, c: seq<real>, t: seq<real>) {
    && e.n == |c| && e.lowerIsBetter
    && (c == [] ==> e.controlMedian.None? && e.treatmentMedian.None? && e.absDelta.None? && e.pctDelta.None?)
    && (c != [] ==>
          && e.controlMedian.Some? && e.treatmentMedian.Some?
          && var cm, tm := e.controlMedian.value, e.treatmentMedian.value;
             && IsMedian(c, cm) && IsMedian(t, tm) && e.absDelta == Some(cm - tm)
             && (e.pctDelta.Some? <==> cm != 0.0) && (e.pctDelta.Some? ==> e.pctDelta.value * cm == cm - tm))
  }

  lemma EntryDescribes(m: Metric, c: seq<real>, t: seq<real>, boot: Boot)
    requires |c| == |t|
    ensures Describes(Entry(m, c, t, boot), c, t) && Entry(m, c, t, boot).boot == boot
  {
    hide IsMedian, Median;
    if c != [] {
      MedianExactly(c, Median(c));
      MedianExactly(t, Median(t));
    }
  }

  /** A metric's entry describes the readings of the pairs that report it, and bootstraps control minus
      treatment. */
  lemma {:induction false} EntryReports(grades: seq<Grade>, m: Metric, rng: nat -> seq<seq<nat>>)
    requires ValidRng(rng)
    ensures var e, pairs := EfficiencySpec(grades, m, rng), Filter(BothReport(m), grades);
            var c, t := Map(ControlReading(m), pairs), Map(TreatmentReading(m), pairs);
            && Describes(e, c, t) && ValidDraws(|pairs|, rng(|pairs|))
            && forall deltas: seq<real> | |deltas| == |pairs| && (forall i | 0 <= i < |pairs| :: deltas[i] == c[i] - t[i]) ::
                 e.boot == BootstrapSpec(deltas, rng(|pairs|))
  {
    hide Describes, Entry, BootstrapSpec, Controls, Treatments, Filter;
    ReadingsOfPairs(grades, m);
    var c, t := Controls(grades, m), Treatments(grades, m);
    assert ValidDraws(|c|, rng(|c|));
    EntryDescribes(m, c, t, BootstrapSpec(Deltas(grades, m), rng(|c|)));
    forall deltas: seq<real> | |deltas| == |c| && (forall i | 0 <= i < |c| :: deltas[i] == c[i] - t[i])
      ensures deltas == Deltas(grades, m)
    {
    }
  }

  // --- the whole summary ---------------------------------------------------------------------------------

  function BothOk(): Grade -> bool { (g: Grade) => g.controlOk && g.treatmentOk }

  function ControlFailed(): Grade -> bool { (g: Grade) => !g.controlOk }

  function TreatmentFailed(): Grade -> bool { (g: Grade) => !g.treatmentOk }

  function Consistently(): Grade -> bool { (g: Grade) => g.judge.Some? && g.judge.value.consistent }

  lemma {:induction false} HealthCounts(grades: seq<Grade>)
    ensures Usable(grades) == CountIf(BothOk(), grades) && Agreed(grades) == CountIf(Consistently(), grades)
    ensures ControlFailures(grades) == CountIf(ControlFailed(), grades)
    ensures TreatmentFailures(grades) == CountIf(TreatmentFailed(), grades)
  {
    if grades != [] { HealthCounts(grades[..|grades| - 1]); }
  }

  /** The flattened regressions are the grades' lists one after the other. */
  lemma RegressionsFlattened(grades: seq<Grade>, g: Grade)
    ensures AllRegressions([]) == [] && AllRegressions(grades + [g]) == AllRegressions(grades) + g.regressions
  {
    assert (grades + [g])[..|grades|] == grades;
  }

  /** What a summary reports beside the win rate and the metrics' entries. */
  lemma {:induction false} SummaryReports(grades: seq<Grade>, effect: Effect, rng: nat -> seq<seq<nat>>, flips: nat -> seq<seq<bool>>)
    requires ValidRng(rng) && ValidFlips(flips) && MetricOf(effect).Some?
    ensures var s := SummarySpec(grades, effect, rng, flips);
            var judged, agreed := CountIf(Judged(), grades), CountIf(Consistently(), grades);
            && s.pairsTotal == |grades| && s.pairsUsable == CountIf(BothOk(), grades)
            && s.controlFailures == CountIf(ControlFailed(), grades) && s.treatmentFailures == CountIf(TreatmentFailed(), grades)
            && s.consistency.pairs == judged && s.consistency.agreed == agreed
            && (s.consistency.few <==> judged < 5)
            && s.consistency.rate == (if judged == 0 then None else Some(agreed as real / judged as real))
            && s.passK.n == |grades| && s.passK.k == |grades| && s.passK.c == |grades| - CountIf(TreatmentFailed(), grades)
            && s.permutation.n == CountIf(BothReport(MetricOf(effect).value), grades)
            && (forall m :: m in s.efficiency) && s.effect == Some(effect)
  {
    hide CountIf, Usable, Agreed, ControlFailures, TreatmentFailures, Verdicts, Deltas, WinRateSpec, EfficiencySpec, AllRegressions;
    HealthCounts(grades);
    JudgedCount(grades);
    OutcomesCount(grades);
    PrimaryCount(grades, MetricOf(effect).value);
    AllMetrics();
  }

  lemma JudgedCount(grades: seq<Grade>)
    ensures |Verdicts(grades)| == CountIf(Judged(), grades)
  {
    VerdictsOfJudged(grades);
  }

  lemma PrimaryCount(grades: seq<Grade>, m: Metric)
    ensures |Deltas(grades, m)| == CountIf(BothReport(m), grades)
  {
    ReadingsOfPairs(grades, m);
  }

  lemma {:induction false} OutcomesCount(grades: seq<Grade>)
    ensures PassK.Successes(TreatmentOutcomes(grades)) == |grades| - CountIf(TreatmentFailed(), grades)
  {
    if grades != [] {
      var k := |grades| - 1;
      OutcomesCount(grades[..k]);
      assert TreatmentOutcomes(grades)[..k] == TreatmentOutcomes(grades[..k]);
    }
  }

  /** Each effect a patch can claim is checked on its own metric; any other name is no claim. */
  lemma EffectsHaveMetrics(e: Effect)
    ensures e.SkillTokensEffect? <==> MetricOf(e) == Some(SkillTokens)
    ensures e.ToolCallsEffect? <==> MetricOf(e) == Some(ToolCalls)
    ensures e.McpStartupEffect? <==> MetricOf(e) == Some(McpStartupMs)
    ensures e.ToolResultTokensEffect? <==> MetricOf(e) == Some(ToolResultTokens)
    ensures e.WallMsEffect? <==> MetricOf(e) == Some(WallMs)
    ensures e.UnknownEffect? <==> MetricOf(e) == None
  {
  }
}
