/** The acceptance gate of `interstellar/stats.py`, and the whole review of one patch: grade,
    summarize, gate. The textual `reasons` are not modelled. */
module Gate {
  import opened Common
  import opened Grading
  import opened Bootstrap
  import opened Statistics
  import opened Medians
  import opened SummaryFacts

  const MIN_SAMPLES_FOR_ACCEPT := 5

  datatype Leaning = Favorable | Unfavorable | Neutral | Unknown
  datatype Evidence = NoEvidence | TiesOnly | Decided
  datatype Decision = Decision(accepted: bool, provisional: bool, directional: Leaning, evidence: Evidence)

  function Sign(x: real): int { if x > 0.0 then 1 else if x < 0.0 then -1 else 0 }

  /** The sign of an improvement: deltas are control minus treatment. */
  function PointSign(mean: Option<real>, lowerIsBetter: bool): int {
    if mean.None? then 0 else if lowerIsBetter then Sign(mean.value) else -Sign(mean.value)
  }

  function Directional(win: WinStats, primary: Option<EffEntry>): Leaning {
    var quality := if win.wins > win.losses then 1 else if win.wins < win.losses then -1 else 0;
    var efficiency := if primary.None? then 0 else PointSign(primary.value.boot.mean, primary.value.lowerIsBetter);
    if quality >= 0 && efficiency >= 0 && (quality != 0 || efficiency != 0) then Favorable
    else if quality <= 0 && efficiency <= 0 && (quality != 0 || efficiency != 0) then Unfavorable
    else Neutral
  }

  predicate HasHigh(regs: seq<Regression>) { exists i | 0 <= i < |regs| :: regs[i].severity == High }

  function Primary(s: Summary, effect: Option<Effect>): Option<EffEntry> {
    if effect.Some? && MetricOf(effect.value).Some? && MetricOf(effect.value).value in s.efficiency
    then Some(s.efficiency[MetricOf(effect.value).value])
    else None
  }

  /** The claimed metric's mean delta points to an improvement, or away from one. */
  ghost predicate Better(primary: Option<EffEntry>) {
    && primary.Some? && primary.value.boot.mean.Some?
    && var mean := primary.value.boot.mean.value; if primary.value.lowerIsBetter then mean > 0.0 else mean < 0.0
  }

  ghost predicate Worse(primary: Option<EffEntry>) {
    && primary.Some? && primary.value.boot.mean.Some?
    && var mean := primary.value.boot.mean.value; if primary.value.lowerIsBetter then mean < 0.0 else mean > 0.0
  }

  function Negated(x: Option<real>): Option<real> { match x case Some(r) => Some(-r) case None => None }

  /** The same readings of a metric that counts the other way round. */
  function Mirrored(e: EffEntry): EffEntry {
    e.(lowerIsBetter := !e.lowerIsBetter,
       boot := e.boot.(mean := Negated(e.boot.mean), lo := Negated(e.boot.hi), hi := Negated(e.boot.lo)))
  }

  /** An improvement, and the direction it points in, do not depend on which way a metric counts. */
  lemma ImprovementMirrored(win: WinStats, e: EffEntry)
    ensures PrimaryImproved(Some(e)) <==> PrimaryImproved(Some(Mirrored(e)))
    ensures Directional(win, Some(e)) == Directional(win, Some(Mirrored(e)))
  {
  }

  /** A reading needs one signal for it and none against it; signals that disagree, or none, are neutral. */
  lemma DirectionalMeans(win: WinStats, primary: Option<EffEntry>)
    ensures Directional(win, primary) == Favorable <==>
            win.wins >= win.losses && !Worse(primary) && (win.wins > win.losses || Better(primary))
    ensures Directional(win, primary) == Unfavorable <==>
            win.wins <= win.losses && !Better(primary) && (win.wins < win.losses || Worse(primary))
    ensures Directional(win, primary) != Unknown
  {
  }

  // --- what the gate demands, one condition per check ------------------------------------

  predicate QualityHolds(win: WinStats) {
    && win.n >= MIN_SAMPLES_FOR_ACCEPT
    && (win.losses == 0 || (win.n >= MIN_SAMPLES_FOR_CI && win.lo.Some? && win.lo.value >= 0.5))
  }

  predicate PrimaryImproved(primary: Option<EffEntry>) {
    && primary.Some?
    && var b, lower := primary.value.boot, primary.value.lowerIsBetter;
       && b.mean.Some?
       && if b.n >= MIN_SAMPLES_FOR_CI then Credible(b, lower)
          else if lower then b.mean.value > 0.0 else b.mean.value < 0.0
  }

  /** The interval lies entirely on the side of an improvement. */
  predicate Credible(b: Boot, lowerIsBetter: bool) {
    if lowerIsBetter then b.lo.Some? && b.lo.value > 0.0 else b.hi.Some? && b.hi.value < 0.0
  }

  function TokenChange(s: Summary): Option<real> {
    if TotalTokens in s.efficiency then s.efficiency[TotalTokens].pctDelta else None
  }

  predicate TokensWithin(s: Summary, maxRegression: real) {
    TokenChange(s).None? || TokenChange(s).value >= -maxRegression
  }

  method HighSeverity(regs: seq<Regression>) returns (high: bool)
    ensures high == HasHigh(regs)
  {
    high := false;
    for i := 0 to |regs|
      invariant high == HasHigh(regs[..i])
    {
      assert forall j | 0 <= j < i :: regs[..i + 1][j] == regs[..i][j];
      if regs[i].severity == High {
        high := true;
        assert regs[..i + 1][i].severity == High;
      }
    }
    assert regs[..|regs|] == regs;
  }

  /** The gate, check by check. `declared` overrides the summary's own effect. Its contract is the
      closed form of the decision. */
  method Decide(s: Summary, declared: Option<Effect>, maxRegression: real) returns (d: Decision)
    ensures var effect := if declared.Some? then declared else s.effect;
            d.accepted <==>
              && s.pairsUsable > 0 && QualityHolds(s.win) && !HasHigh(s.regressions)
              && PrimaryImproved(Primary(s, effect)) && TokensWithin(s, maxRegression)
    ensures d.provisional <==>
              && s.pairsUsable > 0 && !HasHigh(s.regressions)
              && (MIN_SAMPLES_FOR_ACCEPT <= s.win.n < MIN_SAMPLES_FOR_CI || TokenChange(s).None?)
    ensures var effect := if declared.Some? then declared else s.effect;
            d.directional ==
              if s.pairsUsable == 0 then Unknown
              else if HasHigh(s.regressions) then Unfavorable
              else Directional(s.win, Primary(s, effect))
    ensures d.evidence ==
              if s.pairsUsable == 0 || s.win.n == 0 then NoEvidence
              else if s.win.wins + s.win.losses == 0 then TiesOnly else Decided
  {
    if s.pairsUsable == 0 { return Decision(false, false, Unknown, NoEvidence); }
    var accepted, provisional := true, false;
    var effect := if declared.Some? then declared else s.effect;
    var primary := Primary(s, effect);
    var directional := Directional(s.win, primary);
    var n, losses, lo := s.win.n, s.win.losses, s.win.lo;
    var evidence := if n == 0 then NoEvidence else if s.win.wins + losses == 0 then TiesOnly else Decided;
    var high := HighSeverity(s.regressions);
    // 1. quality
    if n < MIN_SAMPLES_FOR_ACCEPT {
      accepted := false;
    } else if n < MIN_SAMPLES_FOR_CI {
      provisional := true;
      if losses != 0 { accepted := false; }
    } else if losses != 0 && !(lo.Some? && lo.value >= 0.5) {
      accepted := false;
    }
    // 2. high-severity regressions
    if high { accepted := false; }
    // 3. the claimed effect
    if primary.None? {
      accepted := false;
    } else {
      var boot := primary.value.boot;
      if boot.mean.None? {
        accepted := false;
      } else if boot.n >= MIN_SAMPLES_FOR_CI {
        var credible := if primary.value.lowerIsBetter then boot.lo.Some? && boot.lo.value > 0.0 else boot.hi.Some? && boot.hi.value < 0.0;
        if !credible { accepted := false; }
      } else if PointSign(boot.mean, primary.value.lowerIsBetter) <= 0 {
        accepted := false;
      }
    }
    // 4. the token safety net
    var pct := TokenChange(s);
    if pct.None? {
      provisional := true;
    } else if pct.value < -maxRegression {
      accepted := false;
    }
    // the final override
    if high { accepted, provisional, directional := false, false, Unfavorable; }
    d := Decision(accepted, provisional, directional, evidence);
  }

  // --- what acceptance means for the runs themselves ----------------------------------------

  /** The grades of two arms, repeat by repeat. */
  ghost predicate Graded(control: seq<Run>, treatment: seq<Run>, signals: nat -> seq<Regression>,
                         judges: nat -> Judges, grades: seq<Grade>)
  {
    && |grades| == Min(|control|, |treatment|)
    && forall i | 0 <= i < |grades| :: grades[i] == GradePair(control[i], treatment[i], signals(i), judges(i))
  }

  /** A repeat in which control finished and treatment crashed is a high-severity regression. */
  lemma CrashIsHigh(control: seq<Run>, treatment: seq<Run>, signals: nat -> seq<Regression>,
                    judges: nat -> Judges, grades: seq<Grade>, i: nat)
    requires Graded(control, treatment, signals, judges, grades)
    requires i < |grades| && control[i].ok && !treatment[i].ok
    ensures HasHigh(AllRegressions(grades))
  {
    assert Regression(RunFailed, High) in grades[i].regressions;
    RegressionListed(grades, i, Regression(RunFailed, High));
  }

  /** Some repeat finished on both arms with a strictly lower reading under treatment. */
  ghost predicate SomeStrictImprovement(control: seq<Run>, treatment: seq<Run>, m: Metric) {
    exists i :: StrictlyImproved(control, treatment, m, i)
  }

  ghost predicate StrictlyImproved(control: seq<Run>, treatment: seq<Run>, m: Metric, i: int) {
    && 0 <= i < |control| && i < |treatment| && control[i].ok && treatment[i].ok
    && m in control[i].readings && m in treatment[i].readings
    && treatment[i].readings[m] < control[i].readings[m]
  }

  lemma {:induction false} ImprovementInRuns(control: seq<Run>, treatment: seq<Run>, signals: nat -> seq<Regression>,
                          judges: nat -> Judges, grades: seq<Grade>, m: Metric, rng: nat -> seq<seq<nat>>)
    requires Graded(control, treatment, signals, judges, grades) && ValidRng(rng)
    requires PrimaryImproved(Some(EfficiencySpec(grades, m, rng)))
    ensures SomeStrictImprovement(control, treatment, m)
  {
    var d := Deltas(grades, m);
    var boot := EfficiencySpec(grades, m, rng).boot;
    assert boot == BootstrapSpec(d, rng(|d|));
    assert ValidDraws(|d|, rng(|d|));
    PositiveNeedsPositive(d, rng(|d|));
    var i :| 0 <= i < |d| && d[i] > 0.0;
    var g := DeltaFromGrade(grades, m, i);
    assert grades[g] == GradePair(control[g], treatment[g], signals(g), judges(g));
    assert StrictlyImproved(control, treatment, m, g);
  }

  /** Judged grades finished on both arms, so enough judged pairs means enough usable ones. */
  lemma {:induction false} JudgedAreUsable(control: seq<Run>, treatment: seq<Run>, signals: nat -> seq<Regression>,
                                           judges: nat -> Judges, grades: seq<Grade>)
    requires Graded(control, treatment, signals, judges, grades)
    ensures |Verdicts(grades)| <= Usable(grades)
  {
    if grades != [] {
      var k := |grades| - 1;
      assert grades[k] == GradePair(control[k], treatment[k], signals(k), judges(k));
      JudgedAreUsable(control[..k], treatment[..k], signals, judges, grades[..k]);
    }
  }

  /** Every decided pair is one on which the judge agreed with itself, so the win rate rests on no more
      pairs than the published consistency counts as agreed. */
  lemma {:induction false} DecidedPairsAgreed(control: seq<Run>, treatment: seq<Run>, signals: nat -> seq<Regression>,
                                              judges: nat -> Judges, grades: seq<Grade>, draws: seq<seq<nat>>)
    requires Graded(control, treatment, signals, judges, grades) && ValidDraws(|Verdicts(grades)|, draws)
    ensures var win, c := WinRateSpec(Verdicts(grades), draws), ConsistencySpec(grades);
            win.wins + win.losses <= c.agreed <= c.pairs == win.n
  {
    hide Verdicts, Tally, Agreed, WinRateSpec, JudgePair;
    WinCounts(Verdicts(grades), draws);
    forall i | 0 <= i < |grades| && grades[i].judge.Some?
      ensures grades[i].judge.value.consistent || grades[i].judge.value.verdict.Tie?
    {
      InconsistentIsTie(judges(i), control[i].response, treatment[i].response);
    }
    DecidedAgree(grades);
  }

  lemma InconsistentIsTie(j: Judges, a: string, b: string)
    ensures var r := JudgePair(j, a, b); r.Some? ==> r.value.consistent || r.value.verdict.Tie?
  {
  }

  lemma WinCounts(v: seq<Verdict>, draws: seq<seq<nat>>)
    requires ValidDraws(|v|, draws)
    ensures var r := WinRateSpec(v, draws);
            r.wins == Tally(v, ForTreatment) && r.losses == Tally(v, ForControl) && r.n == |v|
  {
  }

  ghost predicate QualityEvidence(v: seq<Verdict>, win: WinStats) {
    ForControl in v ==>
      win.wins > 0 && win.wins + win.losses >= MIN_SAMPLES_FOR_CI && win.lo.Some? && win.lo.value >= 0.5
  }

  lemma {:induction false} QualityMeans(v: seq<Verdict>, draws: seq<seq<nat>>)
    requires ValidDraws(|v|, draws) && QualityHolds(WinRateSpec(v, draws))
    ensures |v| >= MIN_SAMPLES_FOR_ACCEPT && QualityEvidence(v, WinRateSpec(v, draws))
  {
    WinIntervalHonest(v, draws);
    TallyAbsent(v, ForControl);
    assert WinRateSpec(v, draws).losses == Tally(v, ForControl);
  }

  lemma {:induction false} NoCrash(control: seq<Run>, treatment: seq<Run>, signals: nat -> seq<Regression>,
                                   judges: nat -> Judges, grades: seq<Grade>)
    requires Graded(control, treatment, signals, judges, grades) && !HasHigh(AllRegressions(grades))
    ensures forall i | 0 <= i < |grades| :: control[i].ok ==> treatment[i].ok
  {
    forall i | 0 <= i < |grades| && control[i].ok
      ensures treatment[i].ok
    {
      if !treatment[i].ok { CrashIsHigh(control, treatment, signals, judges, grades, i); }
    }
  }

  /** The evidence behind an accepted patch: at least five judged pairs, all of them usable; no
      repeat in which control finished and treatment did not; nothing of high severity among what the
      detectors reported for a repeat traced on both arms, nor among any other regression; no loss, or else an actual win, ten decided pairs and a win-rate lower bound of
      one half; and a repeat that strictly improved the claimed metric. */
  ghost predicate Supported(control: seq<Run>, treatment: seq<Run>, signals: nat -> seq<Regression>, grades: seq<Grade>,
                            m: Metric, rng: nat -> seq<seq<nat>>)
    requires ValidRng(rng) && |grades| <= |control| && |grades| <= |treatment|
  {
    var v := Verdicts(grades);
    var win := WinRateSpec(v, rng(|v|));
    && MIN_SAMPLES_FOR_ACCEPT <= |v| <= Usable(grades)
    && (forall i | 0 <= i < |grades| :: control[i].ok ==> treatment[i].ok)
    && (forall i, r | 0 <= i < |grades| && control[i].traced && treatment[i].traced && r in signals(i) :: r.severity != High)
    && (forall i, r | 0 <= i < |grades| && r in grades[i].regressions :: r.severity != High)
    && QualityEvidence(v, win)
    && SomeStrictImprovement(control, treatment, m)
  }

  /** What the gate demands of the grades, number by number. */
  ghost predicate Meets(grades: seq<Grade>, m: Metric, rng: nat -> seq<seq<nat>>, maxRegression: real)
    requires ValidRng(rng)
  {
    var v := Verdicts(grades);
    var win, e, tokens := WinRateSpec(v, rng(|v|)), EfficiencySpec(grades, m, rng), EfficiencySpec(grades, TotalTokens, rng);
    && (exists i | 0 <= i < |grades| :: grades[i].controlOk && grades[i].treatmentOk)
    && win.n >= 5 && (win.losses == 0 || (win.n >= 10 && win.lo.Some? && win.lo.value >= 0.5))
    && (forall i, r | 0 <= i < |grades| && r in grades[i].regressions :: r.severity != High)
    && e.boot.mean.Some? && (if e.boot.n >= 10 then e.boot.lo.Some? && e.boot.lo.value > 0.0 else e.boot.mean.value > 0.0)
    && (tokens.pctDelta.Some? ==> tokens.pctDelta.value >= -maxRegression)
  }

  lemma {:induction false} HighListed(grades: seq<Grade>)
    ensures HasHigh(AllRegressions(grades)) <==> exists i, r | 0 <= i < |grades| && r in grades[i].regressions :: r.severity == High
  {
    if grades != [] {
      var k := |grades| - 1;
      var init, last := grades[..k], grades[k];
      HighListed(init);
      HighAppended(AllRegressions(init), last.regressions);
      assert forall i | 0 <= i < k :: init[i] == grades[i];
      if i, r :| 0 <= i < |init| && r in init[i].regressions && r.severity == High { assert r in grades[i].regressions; }
      if r :| r in last.regressions && r.severity == High { assert r in grades[k].regressions; }
      if i, r :| 0 <= i < |grades| && r in grades[i].regressions && r.severity == High {
        if i < k { assert r in init[i].regressions; }
      }
    }
  }

  lemma HighAppended(a: seq<Regression>, b: seq<Regression>)
    ensures HasHigh(a + b) <==> HasHigh(a) || exists r | r in b :: r.severity == High
  {
    if HasHigh(a) {
      var i :| 0 <= i < |a| && a[i].severity == High;
      assert (a + b)[i].severity == High;
    }
    if r :| r in b && r.severity == High {
      var i :| 0 <= i < |b| && b[i] == r;
      assert (a + b)[|a| + i].severity == High;
    }
    if HasHigh(a + b) {
      var i :| 0 <= i < |a + b| && (a + b)[i].severity == High;
      if i < |a| { assert a[i].severity == High; } else { assert b[i - |a|] in b; }
    }
  }

  /** What a traced repeat's detectors report is in its grade. */
  lemma SignalsRecorded(control: seq<Run>, treatment: seq<Run>, signals: nat -> seq<Regression>,
                        judges: nat -> Judges, grades: seq<Grade>, i: nat, r: Regression)
    requires Graded(control, treatment, signals, judges, grades) && i < |grades|
    requires control[i].traced && treatment[i].traced && r in signals(i)
    ensures r in grades[i].regressions
  {
    GradeRecords(control[i], treatment[i], signals(i), judges(i));
  }

  /** The gate accepts exactly the grades that meet its demands. */
  lemma {:induction false} DemandsMet(grades: seq<Grade>, m: Metric, rng: nat -> seq<seq<nat>>, maxRegression: real)
    requires ValidRng(rng)
    ensures var v, tokens := Verdicts(grades), EfficiencySpec(grades, TotalTokens, rng);
            Meets(grades, m, rng, maxRegression) <==>
              && Usable(grades) > 0 && QualityHolds(WinRateSpec(v, rng(|v|))) && !HasHigh(AllRegressions(grades))
              && PrimaryImproved(Some(EfficiencySpec(grades, m, rng)))
              && (tokens.pctDelta.None? || tokens.pctDelta.value >= -maxRegression)
  {
    hide WinRateSpec, Verdicts, AllRegressions, Usable, HasHigh, BootstrapSpec, Controls, Treatments, Deltas, Median;
    UsableGrade(grades);
    HighListed(grades);
    assert EfficiencySpec(grades, m, rng).lowerIsBetter;
  }

  /** What the gate reads off a summary. */
  lemma SummaryParts(grades: seq<Grade>, effect: Effect, rng: nat -> seq<seq<nat>>, flips: nat -> seq<seq<bool>>)
    requires ValidRng(rng) && ValidFlips(flips) && MetricOf(effect).Some?
    ensures var s, v := SummarySpec(grades, effect, rng, flips), Verdicts(grades);
            && s.pairsUsable == Usable(grades) && s.win == WinRateSpec(v, rng(|v|)) && s.regressions == AllRegressions(grades)
            && s.effect == Some(effect) && Primary(s, Some(effect)) == Some(EfficiencySpec(grades, MetricOf(effect).value, rng))
            && TokenChange(s) == EfficiencySpec(grades, TotalTokens, rng).pctDelta
  {
    hide EfficiencySpec, WinRateSpec, Verdicts, AllRegressions, Usable;
  }

  /** Grade, summarize and gate one patch. Whatever the judge answers, whatever the detectors
      report and whatever the generator draws, an accepted patch has the evidence listed here; an
      effect that maps to no metric has no decision. */
  method Review(control: seq<Run>, treatment: seq<Run>, signals: nat -> seq<Regression>, judges: nat -> Judges,
                effect: Effect, rng: nat -> seq<seq<nat>>, flips: nat -> seq<seq<bool>>, maxRegression: real)
    returns (d: Option<Decision>, grades: seq<Grade>)
    requires ValidRng(rng) && ValidFlips(flips)
    ensures Graded(control, treatment, signals, judges, grades)
    ensures d.Some? <==> MetricOf(effect).Some?
    ensures d.Some? ==> (d.value.accepted <==> Meets(grades, MetricOf(effect).value, rng, maxRegression))
    ensures d.Some? && d.value.accepted ==>
      && Supported(control, treatment, signals, grades, MetricOf(effect).value, rng)
      && (!d.value.provisional ==> TokenMediansWithin(grades, maxRegression))
  {
    hide SummarySpec, EfficiencySpec, WinRateSpec, Verdicts, AllRegressions, Usable, HasHigh, QualityHolds, PrimaryImproved,
         Primary, TokenChange, Directional, Supported, TokenMediansWithin, ValidRng, ValidFlips, GradePair, Meets, Records;
    grades := GradeMatrix(control, treatment, signals, judges);
    var s := Summarize(grades, effect, rng, flips);
    if s.None? { return None, grades; }
    SummaryParts(grades, effect, rng, flips);
    DemandsMet(grades, MetricOf(effect).value, rng, maxRegression);
    var decision := Decide(s.value, None, maxRegression);
    d := Some(decision);
    if decision.accepted {
      AcceptedEvidence(control, treatment, signals, judges, grades, MetricOf(effect).value, rng);
      if !decision.provisional { TokenMediansChecked(grades, rng, maxRegression); }
    }
  }

  function Grown(x: real, r: real): real { x * (1.0 + r) }

  /** The readings of total tokens in the pairs where both sides report them. */
  function TokenPairs(grades: seq<Grade>): seq<Grade> { Filter(BothReport(TotalTokens), grades) }

  /** The treatment's median token count stays within the allowed growth of the control's. */
  ghost predicate TokenMediansWithin(grades: seq<Grade>, maxRegression: real) {
    var c, t := Map(ControlReading(TotalTokens), TokenPairs(grades)), Map(TreatmentReading(TotalTokens), TokenPairs(grades));
    && TokenPairs(grades) != []
    && forall cm, tm | IsMedian(c, cm) && IsMedian(t, tm) :: cm != 0.0 && (cm > 0.0 ==> tm <= Grown(cm, maxRegression))
  }

  lemma {:induction false} TokenMediansChecked(grades: seq<Grade>, rng: nat -> seq<seq<nat>>, maxRegression: real)
    requires ValidRng(rng)
    requires EfficiencySpec(grades, TotalTokens, rng).pctDelta.Some?
    requires EfficiencySpec(grades, TotalTokens, rng).pctDelta.value >= -maxRegression
    ensures TokenMediansWithin(grades, maxRegression)
  {
    hide IsMedian, Median, Filter, Grown;
    ReadingsOfPairs(grades, TotalTokens);
    var c, t := Controls(grades, TotalTokens), Treatments(grades, TotalTokens);
    assert c != [];
    ShareCleared(Median(c), Median(t), maxRegression);
    forall cm, tm | IsMedian(c, cm) && IsMedian(t, tm) ensures cm == Median(c) && tm == Median(t) {
      MedianExactly(c, cm);
      MedianExactly(t, tm);
    }
  }

  lemma ShareCleared(cm: real, tm: real, r: real)
    requires Share(cm, tm).Some? && Share(cm, tm).value >= -r
    ensures cm != 0.0 && (cm > 0.0 ==> tm <= Grown(cm, r))
  {
    var q := (cm - tm) / cm;
    assert q * cm == cm - tm;
    if cm > 0.0 { Nonnegative(q + r, cm); }
  }

  lemma NothingHigh(control: seq<Run>, treatment: seq<Run>, signals: nat -> seq<Regression>,
                    judges: nat -> Judges, grades: seq<Grade>)
    requires Graded(control, treatment, signals, judges, grades) && !HasHigh(AllRegressions(grades))
    ensures forall i, r | 0 <= i < |grades| && r in grades[i].regressions :: r.severity != High
    ensures forall i, r | 0 <= i < |grades| && control[i].traced && treatment[i].traced && r in signals(i) :: r.severity != High
  {
    hide GradePair, HasHigh, AllRegressions;
    HighListed(grades);
    forall i, r | 0 <= i < |grades| && control[i].traced && treatment[i].traced && r in signals(i) ensures r.severity != High {
      SignalsRecorded(control, treatment, signals, judges, grades, i, r);
    }
  }

  lemma {:induction false} AcceptedEvidence(control: seq<Run>, treatment: seq<Run>, signals: nat -> seq<Regression>,
                           judges: nat -> Judges, grades: seq<Grade>, m: Metric, rng: nat -> seq<seq<nat>>)
    requires Graded(control, treatment, signals, judges, grades) && ValidRng(rng)
    requires QualityHolds(WinRateSpec(Verdicts(grades), rng(|Verdicts(grades)|)))
    requires !HasHigh(AllRegressions(grades))
    requires PrimaryImproved(Some(EfficiencySpec(grades, m, rng)))
    ensures Supported(control, treatment, signals, grades, m, rng)
  {
    hide Verdicts, WinRateSpec, EfficiencySpec, AllRegressions, HasHigh, QualityHolds, PrimaryImproved, Usable, GradePair,
         QualityEvidence, SomeStrictImprovement;
    var v := Verdicts(grades);
    NothingHigh(control, treatment, signals, judges, grades);
    JudgedAreUsable(control, treatment, signals, judges, grades);
    NoCrash(control, treatment, signals, judges, grades);
    assert ValidDraws(|v|, rng(|v|));
    QualityMeans(v, rng(|v|));
    ImprovementInRuns(control, treatment, signals, judges, grades, m, rng);
  }

  // --- where "a crash dominates every signal" stops ------------------------------------------

  /** A crash (treatment failing where control finished) always rejects. It also forces the
      unfavorable reading exactly when some repeat finished on both arms; when none did, the
      no-data branch answers first and the reading is `Unknown`. */
  method ReviewCrash(control: seq<Run>, treatment: seq<Run>, signals: nat -> seq<Regression>, judges: nat -> Judges,
                     effect: Effect, rng: nat -> seq<seq<nat>>, flips: nat -> seq<seq<bool>>, maxRegression: real, i: nat)
    returns (d: Decision)
    requires ValidRng(rng) && ValidFlips(flips) && MetricOf(effect).Some?
    requires i < |control| && i < |treatment| && control[i].ok && !treatment[i].ok
    ensures !d.accepted && !d.provisional
    ensures var usable := exists j | 0 <= j < Min(|control|, |treatment|) :: control[j].ok && treatment[j].ok;
            d.directional == if usable then Unfavorable else Unknown
  {
    hide SummarySpec, WinRateSpec, Verdicts, AllRegressions, Usable, HasHigh, QualityHolds, PrimaryImproved, Primary,
         TokenChange, Directional, ValidRng, ValidFlips;
    var grades := GradeMatrix(control, treatment, signals, judges);
    var s := Summarize(grades, effect, rng, flips);
    SummaryParts(grades, effect, rng, flips);
    d := Decide(s.value, None, maxRegression);
    CrashIsHigh(control, treatment, signals, judges, grades, i);
    UsableGrade(grades);
    assert forall j | 0 <= j < |grades| :: grades[j].controlOk == control[j].ok && grades[j].treatmentOk == treatment[j].ok;
  }

  /** One repeat in which only treatment crashed: rejected, and yet not read as unfavorable. */
  method LoneCrash(control: Run, treatment: Run, signals: nat -> seq<Regression>, judges: nat -> Judges,
                   effect: Effect, rng: nat -> seq<seq<nat>>, flips: nat -> seq<seq<bool>>, maxRegression: real)
    returns (d: Decision)
    requires ValidRng(rng) && ValidFlips(flips) && MetricOf(effect).Some? && control.ok && !treatment.ok
    ensures !d.accepted && !d.provisional && d.directional == Unknown
  {
    d := ReviewCrash([control], [treatment], signals, judges, effect, rng, flips, maxRegression, 0);
  }
}
