/** Pairing replay runs into grades: `interstellar/grade.py`. What the trace detectors report and
    what the judge model answers are arbitrary functions. */
module Grading {
  import opened Common

  datatype Metric =
    | TotalTokens | CostUsd | WallMs | ToolCalls | SkillTokens
    | SkillWastedTokens | ToolResultTokens | McpStartupMs | DuplicateCalls | Turns

  /** A metric missing from the map is a reading of `None`. */
  type Readings = map<Metric, real>

  datatype Run = Run(ok: bool, traced: bool, response: string, readings: Readings)

  datatype Severity = High | Medium | Low
  datatype RegressionKind = TraceSignal | RunFailed | TurnCountIncrease | JudgeUnavailable
  datatype Regression = Regression(kind: RegressionKind, severity: Severity)

  datatype Winner = First | Second | Neither
  datatype Verdict = ForControl | ForTreatment | Tie
  datatype Judgement = Judgement(verdict: Verdict, consistent: bool)

  datatype Grade = Grade(controlOk: bool, treatmentOk: bool, control: Readings, treatment: Readings,
                         judge: Option<Judgement>, regressions: seq<Regression>)

  /** `judge(first, second, attempt)` is the model's answer, `None` when it cannot be parsed. */
  type Judge = (string, string, nat) -> Option<Winner>

  /** The answers to the two calls of a pair, control shown first and treatment shown first. The two
      calls need not agree even on equal texts. */
  datatype Judges = Judges(controlFirst: Judge, treatmentFirst: Judge)

  const MAX_ATTEMPTS := 2

  // --- the position-swapped judge -------------------------------------------------

  /** The first parseable answer within the allowed attempts. */
  function FirstAnswer(judge: Judge, a: string, b: string, attempt: nat): Option<Winner>
    decreases MAX_ATTEMPTS - attempt
  {
    if attempt >= MAX_ATTEMPTS then None
    else if judge(a, b, attempt).Some? then judge(a, b, attempt)
    else FirstAnswer(judge, a, b, attempt + 1)
  }

  method AskWithRetry(judge: Judge, a: string, b: string) returns (winner: Option<Winner>, attempts: nat)
    ensures winner == FirstAnswer(judge, a, b, 0)
    ensures winner == if judge(a, b, 0).Some? then judge(a, b, 0) else judge(a, b, 1)
    ensures attempts == if judge(a, b, 0).Some? then 1 else 2
    ensures 1 <= attempts <= MAX_ATTEMPTS
    ensures attempts < MAX_ATTEMPTS ==> winner.Some?
    ensures forall k | 0 <= k < attempts - 1 :: judge(a, b, k).None?
  {
    winner := None;
    attempts := 0;
    while attempts < MAX_ATTEMPTS
      invariant attempts <= MAX_ATTEMPTS
      invariant FirstAnswer(judge, a, b, attempts) == FirstAnswer(judge, a, b, 0)
      invariant forall k | 0 <= k < attempts :: judge(a, b, k).None?
      invariant winner == None
    {
      winner := judge(a, b, attempts);
      attempts := attempts + 1;
      if winner.Some? { return; }
    }
  }

  /** Which arm an answer names, given which arm was shown first. */
  function Side(w: Winner, controlFirst: bool): Verdict {
    match w
    case First => if controlFirst then ForControl else ForTreatment
    case Second => if controlFirst then ForTreatment else ForControl
    case Neither => Tie
  }

  /** Both orders are asked; `None` when either stays unparseable, a tie when they disagree. */
  function JudgePair(j: Judges, control: string, treatment: string): Option<Judgement> {
    var w1, w2 := FirstAnswer(j.controlFirst, control, treatment, 0), FirstAnswer(j.treatmentFirst, treatment, control, 0);
    if w1.None? || w2.None? then None
    else
      var side1, side2 := Side(w1.value, true), Side(w2.value, false);
      if side1 != side2 then Some(Judgement(Tie, false)) else Some(Judgement(side1, true))
  }

  function Mirrored(v: Verdict): Verdict {
    match v
    case ForControl => ForTreatment
    case ForTreatment => ForControl
    case Tie => Tie
  }

  /** Swapping the two arms, with the model answering each of the two shown orders as before, mirrors
      the verdict; and a verdict is decided exactly when the same response won from both positions. */
  lemma SwapMirrorsVerdict(j: Judges, a: string, b: string)
    ensures JudgePair(Judges(j.treatmentFirst, j.controlFirst), b, a) ==
            match JudgePair(j, a, b)
            case None => None
            case Some(r) => Some(Judgement(Mirrored(r.verdict), r.consistent))
    ensures var r := JudgePair(j, a, b);
            && (r.Some? && r.value.verdict == ForTreatment <==>
                FirstAnswer(j.controlFirst, a, b, 0) == Some(Second) && FirstAnswer(j.treatmentFirst, b, a, 0) == Some(First))
            && (r.Some? && r.value.verdict == ForControl <==>
                FirstAnswer(j.controlFirst, a, b, 0) == Some(First) && FirstAnswer(j.treatmentFirst, b, a, 0) == Some(Second))
  {
    var w1, w2 := FirstAnswer(j.controlFirst, a, b, 0), FirstAnswer(j.treatmentFirst, b, a, 0);
    if w1.Some? && w2.Some? {
      assert Side(w1.value, false) == Mirrored(Side(w1.value, true));
      assert Side(w2.value, true) == Mirrored(Side(w2.value, false));
    }
  }

  /** What the judge finally says in one order: the answer, or the answer to the one retry. */
  function Says(judge: Judge, a: string, b: string): Option<Winner> { if judge(a, b, 0).Some? then judge(a, b, 0) else judge(a, b, 1) }

  /** The verdict of two answers, order by order: none unless both can be read; the arm that won from
      both positions; otherwise a tie, consistent only when both answers are ties. */
  lemma VerdictOfAnswers(j: Judges, control: string, treatment: string)
    ensures JudgePair(j, control, treatment) ==
            match (Says(j.controlFirst, control, treatment), Says(j.treatmentFirst, treatment, control))
            case (None, _) => None
            case (_, None) => None
            case (Some(First), Some(Second)) => Some(Judgement(ForControl, true))
            case (Some(Second), Some(First)) => Some(Judgement(ForTreatment, true))
            case (Some(Neither), Some(Neither)) => Some(Judgement(Tie, true))
            case (Some(_), Some(_)) => Some(Judgement(Tie, false))
  {
    TwoAttempts(j.controlFirst, control, treatment);
    TwoAttempts(j.treatmentFirst, treatment, control);
  }

  lemma TwoAttempts(judge: Judge, a: string, b: string)
    ensures FirstAnswer(judge, a, b, 0) == Says(judge, a, b)
  {
    assert FirstAnswer(judge, a, b, 2) == None;
    assert FirstAnswer(judge, a, b, 1) == if judge(a, b, 1).Some? then judge(a, b, 1) else FirstAnswer(judge, a, b, 2);
  }

  // --- grades ----------------------------------------------------------------------

  /** A failed run reports no readings at all. */
  function Efficiency(run: Run): Readings { if run.ok then run.readings else map[] }

  function RunFailedRegression(controlOk: bool, treatmentOk: bool): seq<Regression> {
    if controlOk && !treatmentOk then [Regression(RunFailed, High)] else []
  }

  function TurnCountRegression(control: Readings, treatment: Readings): seq<Regression> {
    if Turns in control && Turns in treatment && control[Turns] > 0.0 && treatment[Turns] > control[Turns] * 1.5
    then [Regression(TurnCountIncrease, Medium)]
    else []
  }

  /** One repeat: `signals` is what comparing the two traces reported. */
  function GradePair(control: Run, treatment: Run, signals: seq<Regression>, judges: Judges): Grade {
    var traceRegs := if control.traced && treatment.traced then signals else [];
    var regs := traceRegs + RunFailedRegression(control.ok, treatment.ok)
              + TurnCountRegression(control.readings, treatment.readings);
    var both := control.ok && treatment.ok;
    var verdict := if both then JudgePair(judges, control.response, treatment.response) else None;
    Grade(control.ok, treatment.ok, Efficiency(control), Efficiency(treatment), verdict,
          if both && verdict.None? then regs + [Regression(JudgeUnavailable, Low)] else regs)
  }

  predicate TurnsGrew(c: Run, t: Run) {
    Turns in c.readings && Turns in t.readings && c.readings[Turns] > 0.0 && t.readings[Turns] > c.readings[Turns] * 1.5
  }

  /** What a grade records, entry by entry. The detectors' list comes first and is recorded whole
      exactly when both runs are traced; after it come at most one entry each for a crash of the
      treatment alone, for half as many turns again, and for a pair the judge could not judge. */
  ghost predicate Records(c: Run, t: Run, signals: seq<Regression>, judges: Judges, g: Grade) {
    && g.controlOk == c.ok && g.treatmentOk == t.ok
    && g.control == (if c.ok then c.readings else map[]) && g.treatment == (if t.ok then t.readings else map[])
    && (g.judge.Some? ==> c.ok && t.ok && g.judge == JudgePair(judges, c.response, t.response))
    && (c.ok && t.ok && JudgePair(judges, c.response, t.response).Some? ==> g.judge.Some?)
    && g.regressions ==
         (if c.traced && t.traced then signals else [])
         + (if c.ok && !t.ok then [Regression(RunFailed, High)] else [])
         + (if TurnsGrew(c, t) then [Regression(TurnCountIncrease, Medium)] else [])
         + (if c.ok && t.ok && g.judge.None? then [Regression(JudgeUnavailable, Low)] else [])
  }

  lemma GradeRecords(c: Run, t: Run, signals: seq<Regression>, judges: Judges)
    ensures Records(c, t, signals, judges, GradePair(c, t, signals, judges))
  {
    hide JudgePair;
    var first := if c.traced && t.traced then signals else [];
    var regs := first + RunFailedRegression(c.ok, t.ok) + TurnCountRegression(c.readings, t.readings);
    assert regs + [] == regs;
  }

  /** `_judge_pair_impl`: both orders are asked before anything is decided. */
  method JudgeArms(j: Judges, control: string, treatment: string) returns (verdict: Option<Judgement>)
    ensures verdict == JudgePair(j, control, treatment)
  {
    var w1, n1 := AskWithRetry(j.controlFirst, control, treatment);
    var w2, n2 := AskWithRetry(j.treatmentFirst, treatment, control);
    if w1.None? || w2.None? { return None; }
    var side1, side2 := Side(w1.value, true), Side(w2.value, false);
    if side1 != side2 { return Some(Judgement(Tie, false)); }
    verdict := Some(Judgement(side1, true));
  }

  /** One round of the loop over repeats. */
  method GradeRepeat(c: Run, t: Run, signals: seq<Regression>, judges: Judges) returns (g: Grade)
    ensures g == GradePair(c, t, signals, judges)
  {
    var regs := [];
    if c.traced && t.traced { regs := signals; }
    regs := regs + RunFailedRegression(c.ok, t.ok);
    regs := regs + TurnCountRegression(c.readings, t.readings);
    var verdict := None;
    if c.ok && t.ok {
      verdict := JudgeArms(judges, c.response, t.response);
      if verdict.None? { regs := regs + [Regression(JudgeUnavailable, Low)]; }
    }
    g := Grade(c.ok, t.ok, Efficiency(c), Efficiency(t), verdict, regs);
  }

  method GradeMatrix(control: seq<Run>, treatment: seq<Run>, signals: nat -> seq<Regression>, judges: nat -> Judges)
    returns (grades: seq<Grade>)
    ensures |grades| == Min(|control|, |treatment|)
    ensures forall i | 0 <= i < |grades| :: grades[i] == GradePair(control[i], treatment[i], signals(i), judges(i))
    ensures forall i | 0 <= i < |grades| :: Records(control[i], treatment[i], signals(i), judges(i), grades[i])
  {
    hide Records, GradePair;
    grades := [];
    for i := 0 to Min(|control|, |treatment|)
      invariant |grades| == i
      invariant forall k | 0 <= k < i :: Records(control[k], treatment[k], signals(k), judges(k), grades[k])
      invariant forall k | 0 <= k < i :: grades[k] == GradePair(control[k], treatment[k], signals(k), judges(k))
    {
      var g := GradeRepeat(control[i], treatment[i], signals(i), judges(i));
      GradeRecords(control[i], treatment[i], signals(i), judges(i));
      grades := grades + [g];
    }
  }
}
