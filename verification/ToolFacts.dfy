/** What the event loop records, field by field: a started call, a completed one (its start, outcome and
    duration), a permission prompt, and a turn over the events that follow its start. */
module ToolFacts {
  import opened Common
  import opened Matching
  import opened ToolEvents

  // --- one call ----------------------------------------------------------------------------------------

  /** A started call gets the next synthetic id, goes last, and is the newest of its name's open calls. */
  lemma StartedCall(s: State, name: string, ts: Time)
    ensures var s', k := Step(s, ToolStarted(name, ts)), Pending(s.synth + 1);
            && k in s'.tools.recs
            && s'.tools.recs[k] == Tool(k, name, ts, None, None, "unknown", s.current, false, None, None)
            && (k !in s.tools.recs ==> s'.tools.order == s.tools.order + [k])
            && (forall j | j in s.tools.recs && j != k :: j in s'.tools.recs && s'.tools.recs[j] == s.tools.recs[j])
            && name in s'.open && s'.open[name] == (if name in s.open then s.open[name] else []) + [k]
            && s'.turns == s.turns && s'.current == s.current
  {
  }

  /** A completion takes the oldest open start of its name, when that start's record is still there. */
  predicate Takes(s: State, name: string) { name in s.open && s.open[name] != [] && s.open[name][0] in s.tools.recs }

  /** The record a completion builds on: the taken start's, the one its id has already, or an empty one. */
  function Basis(s: State, e: Event): Tool
    requires e.ToolCompleted?
  {
    if Takes(s, e.name) then s.tools.recs[s.open[e.name][0]]
    else if e.id.Some? && e.id.value in s.tools.recs then s.tools.recs[e.id.value]
    else Tool(RecordedAs(s, e), e.name, None, None, None, "unknown", s.current, false, None, None)
  }

  function RecordedAs(s: State, e: Event): Id
    requires e.ToolCompleted?
  {
    match e.id
    case Some(id) => id
    case None => if Takes(s, e.name) then s.open[e.name][0] else Anon(s.synth + 1)
  }

  /** The milliseconds of a completed call: those it brings; without any, from start to end and never
      below zero; unknown when a stamp is there and cannot be read; as before when a stamp is missing. */
  ghost predicate Lasted(d: Option<int>, was: Tool, e: Event)
    requires e.ToolCompleted?
  {
    match e.duration
    case Given(ms) => d == Some(ms)
    case Malformed => d == was.duration
    case Absent =>
      match (was.startedAt, e.ts)
      case (Some(At(a)), Some(At(b))) => d.Some? && d.value >= 0 && d.value >= b - a && (d.value == 0 || d.value == b - a)
      case (Some(_), Some(_)) => d == None
      case (_, _) => d == was.duration
  }

  lemma CompletedCall(s: State, e: Event)
    requires e.ToolCompleted?
    ensures var s', key, was := Step(s, e), RecordedAs(s, e), Basis(s, e);
            && key in s'.tools.recs
            && var rec := s'.tools.recs[key];
            && rec.name == e.name && rec.completedAt == e.ts && rec.outcome == e.outcome
            && rec.startedAt == was.startedAt && Lasted(rec.duration, was, e)
            && rec.id == (if e.id.Some? && Takes(s, e.name) then key else was.id)
            && rec.turn == (if s.current.Some? && s.current.value in s.turns then s.current else was.turn)
            && rec.requested == was.requested && rec.decision == was.decision && rec.wait == was.wait
  {
    hide Without;
  }

  /** Every other record is as it was, and no other key comes in; the taken start leaves the table when
      the completion has an id of its own. */
  lemma OtherCallsKept(s: State, e: Event)
    requires e.ToolCompleted?
    ensures forall k | k != RecordedAs(s, e) ::
              k in Step(s, e).tools.recs <==> k in s.tools.recs && !(Takes(s, e.name) && k == s.open[e.name][0])
    ensures forall k | k != RecordedAs(s, e) && k in Step(s, e).tools.recs ::
              k in s.tools.recs && Step(s, e).tools.recs[k] == s.tools.recs[k]
  {
    hide Without, Finish, NewTool, InTurn;
  }

  /** In a log without clashing ids, a call with readable stamps and no duration of its own lasts from the
      oldest untaken start of its name to its end, or no time at all when the end comes first. */
  lemma {:induction false} MeasuredFromOldest(events: seq<Event>, e: Event, a: int, b: int)
    requires AllFresh(events) && e.ToolCompleted? && e.duration == Absent && e.ts == Some(At(b))
    requires Taken(events, e.name) < |StartTimes(events, e.name)|
    requires StartTimes(events, e.name)[Taken(events, e.name)] == Some(At(a))
    ensures var s := Run(events + [e]);
            && RecordedAs(Run(events), e) in s.tools.recs
            && s.tools.recs[RecordedAs(Run(events), e)].duration == Some(if a <= b then b - a else 0)
  {
    hide AllFresh, Taken, StartTimes, Run, Complete, Basis;
    RunOne(events, e);
    CompletionTakesOldest(events, e);
    CompletedCall(Run(events), e);
    SameKey(Run(events), e);
  }

  lemma SameKey(s: State, e: Event)
    requires e.ToolCompleted?
    ensures RecordedAs(s, e) == KeyOf(s, e.name, e.id) && Step(s, e) == Complete(s, e)
  {
    hide Complete;
  }

  lemma RunOne(events: seq<Event>, e: Event)
    ensures Run(events + [e]) == Step(Run(events), e)
  {
    hide Step;
    assert (events + [e])[..|events|] == events;
  }

  predicate Starts(e: Event, name: string) { e.ToolStarted? && e.name == name }

  predicate Completes(e: Event, name: string) { e.ToolCompleted? && e.name == name }

  function TimeOf(e: Event): Time { if e.ToolStarted? then e.ts else None }

  /** The starts of a name are those of the log, in order. */
  lemma {:induction false} StartsInOrder(events: seq<Event>, name: string)
    ensures StartTimes(events, name) == Map(TimeOf, Filter((e: Event) => Starts(e, name), events))
  {
    hide Map;
    if events == [] {
      assert Map(TimeOf, []) == [];
    } else {
      var p, k := (e: Event) => Starts(e, name), |events| - 1;
      StartsInOrder(events[..k], name);
      if p(events[k]) { MapAppend(TimeOf, Filter(p, events[..k]), [events[k]]); }
    }
  }

  /** How many starts of a name are taken: the least, over all cuts of the log, of the starts before the
      cut and the completions after it. */
  lemma {:induction false} TakenIsLeast(events: seq<Event>, name: string)
    ensures Matches(Taken(events, name), (e: Event) => Starts(e, name), (e: Event) => Completes(e, name), events)
  {
    hide Matches, StartTimes, CountIf;
    var opens, closes := (e: Event) => Starts(e, name), (e: Event) => Completes(e, name);
    if events == [] {
      MatchesNone(opens, closes);
    } else {
      var before, e := events[..|events| - 1], events[|events| - 1];
      InitLast(events);
      TakenIsLeast(before, name);
      StartsCounted(before, name);
      MatchesNext(Taken(before, name), opens, closes, before, e);
    }
  }

  lemma StartsCounted(events: seq<Event>, name: string)
    ensures |StartTimes(events, name)| == CountIf((e: Event) => Starts(e, name), events)
  {
    StartsInOrder(events, name);
  }

  // --- permission prompts --------------------------------------------------------------------------------

  /** `k` is the last key of the table whose record satisfies the test. */
  ghost predicate LastWith(t: Table, test: Tool -> bool, k: Id) {
    && k in t.recs && test(t.recs[k])
    && exists i | 0 <= i < |t.order| :: t.order[i] == k && forall j | i < j < |t.order| && t.order[j] in t.recs :: !test(t.recs[t.order[j]])
  }

  ghost predicate NoneWith(t: Table, test: Tool -> bool) {
    forall i | 0 <= i < |t.order| && t.order[i] in t.recs :: !test(t.recs[t.order[i]])
  }

  /** The two states differ in the record of `k` alone. */
  ghost predicate OnlyRecord(s: State, s': State, k: Id) {
    && s'.turns == s.turns && s'.current == s.current && s'.open == s.open && s'.synth == s.synth
    && s'.tools.order == s.tools.order && s'.tools.recs.Keys == s.tools.recs.Keys
    && forall j | j in s.tools.recs && j != k :: s'.tools.recs[j] == s.tools.recs[j]
  }

  lemma Found(t: Table, test: Tool -> bool)
    ensures var k := Latest(t.order, t.recs, test); if k.None? then NoneWith(t, test) else LastWith(t, test, k.value)
  {
    LatestIsLast(t.order, t.recs, test);
  }

  /** A request marks the newest call of its name that no request has marked. */
  lemma {:induction false} RequestMarks(s: State, name: string)
    ensures var s', test := Step(s, PermissionRequested(name)), (rec: Tool) => rec.name == name && !rec.requested;
            || (s' == s && NoneWith(s.tools, test))
            || exists k :: LastWith(s.tools, test, k) && OnlyRecord(s, s', k)
                           && k in s'.tools.recs && s'.tools.recs[k] == s.tools.recs[k].(requested := true)
  {
    hide LastWith, NoneWith, Latest;
    var test := (rec: Tool) => rec.name == name && !rec.requested;
    Found(s.tools, test);
    var k := Latest(s.tools.order, s.tools.recs, test);
    if k.Some? { LastHolds(s.tools, test, k.value); }
  }

  lemma LastHolds(t: Table, test: Tool -> bool, k: Id)
    requires LastWith(t, test, k)
    ensures k in t.recs
  {
  }

  /** A decision goes to the newest call of its name, with the wait when it brings one. */
  lemma {:induction false} DecisionRecorded(s: State, name: string, decision: string, wait: Option<int>)
    ensures var s', test := Step(s, PermissionResolved(name, decision, wait)), (rec: Tool) => rec.name == name;
            || (s' == s && NoneWith(s.tools, test))
            || exists k :: LastWith(s.tools, test, k) && OnlyRecord(s, s', k) && k in s.tools.recs && k in s'.tools.recs
                 && var rec, rec' := s.tools.recs[k], s'.tools.recs[k];
                 && rec' == rec.(requested := true, decision := Some(decision), wait := rec'.wait)
                 && rec'.wait == match wait { case Some(_) => wait case None => rec.wait }
  {
    hide LastWith, NoneWith, Latest;
    var e := PermissionResolved(name, decision, wait);
    var test, test' := (rec: Tool) => rec.name == name, (rec: Tool) => rec.name == e.name;
    assert test == test';
    Found(s.tools, test);
    var k := Latest(s.tools.order, s.tools.recs, test);
    if k.Some? { LastHolds(s.tools, test, k.value); }
  }

  // --- turns -----------------------------------------------------------------------------------------------

  predicate Restarts(e: Event) { e.TurnStarted? }

  /** The last event of a kind, if there is one. */
  function LastOf(kind: Event -> bool, events: seq<Event>): Option<Event> {
    var hits := Filter(kind, events);
    if hits == [] then None else Some(hits[|hits| - 1])
  }

  /** A turn started at `ts`, after the events `post`, none of which starts another. */
  ghost predicate TurnTells(turn: Turn, ts: Time, post: seq<Event>) {
    var token, end := LastOf((e: Event) => e.FirstToken?, post), LastOf((e: Event) => e.TurnEnded?, post);
    && turn.startedAt == ts
    && turn.loops == CountIf((e: Event) => e.LoopStarted?, post)
    && turn.firstToken == (if token.Some? && token.value.FirstToken? then token.value.ts else None)
    && turn.endedAt == (if end.Some? && end.value.TurnEnded? then end.value.ts else None)
    && turn.outcome == (if end.Some? && end.value.TurnEnded? then end.value.outcome else "unknown")
  }

  lemma LastOfNext(kind: Event -> bool, post: seq<Event>, e: Event)
    ensures LastOf(kind, post + [e]) == if kind(e) then Some(e) else LastOf(kind, post)
    ensures CountIf(kind, post + [e]) == CountIf(kind, post) + if kind(e) then 1 else 0
  {
    assert (post + [e])[..|post|] == post;
  }

  lemma {:induction false} TellsNext(turn: Turn, turn': Turn, ts: Time, post: seq<Event>, e: Event)
    requires TurnTells(turn, ts, post)
    requires turn'.startedAt == turn.startedAt
    requires turn'.loops == turn.loops + if e.LoopStarted? then 1 else 0
    requires turn'.firstToken == if e.FirstToken? then e.ts else turn.firstToken
    requires turn'.endedAt == if e.TurnEnded? then e.ts else turn.endedAt
    requires turn'.outcome == if e.TurnEnded? then e.outcome else turn.outcome
    ensures TurnTells(turn', ts, post + [e])
  {
    hide LastOf, CountIf;
    LastOfNext((e: Event) => e.LoopStarted?, post, e);
    LastOfNext((e: Event) => e.FirstToken?, post, e);
    LastOfNext((e: Event) => e.TurnEnded?, post, e);
  }

  /** The keys the completions of `post` are recorded under, when the log so far is `pre`. */
  ghost predicate CompletedIn(pre: seq<Event>, post: seq<Event>, k: Id) {
    exists i | 0 <= i < |post| && post[i].ToolCompleted? :: RecordedAs(Run(pre + post[..i]), post[i]) == k
  }

  lemma CompletedNext(pre: seq<Event>, post: seq<Event>, e: Event, k: Id)
    ensures CompletedIn(pre, post + [e], k)
            <==> CompletedIn(pre, post, k) || (e.ToolCompleted? && RecordedAs(Run(pre + post), e) == k)
  {
    hide Run, RecordedAs;
    var all := post + [e];
    assert all[..|post|] == post;
    forall i | 0 <= i < |post| ensures all[i] == post[i] && all[..i] == post[..i] {}
    if i :| 0 <= i < |post| && post[i].ToolCompleted? && RecordedAs(Run(pre + post[..i]), post[i]) == k {
      assert all[i].ToolCompleted? && RecordedAs(Run(pre + all[..i]), all[i]) == k;
    }
    if e.ToolCompleted? && RecordedAs(Run(pre + post), e) == k {
      assert all[|post|].ToolCompleted? && RecordedAs(Run(pre + all[..|post|]), all[|post|]) == k;
    }
  }

  /** One event inside a turn: what it does to that turn, and that no other is touched. */
  lemma {:induction false} StepTurn(s: State, e: Event)
    requires s.current.Some? && s.current.value in s.turns && !Restarts(e)
    ensures var n, s' := s.current.value, Step(s, e);
            && s'.current == s.current && s'.turns == s.turns[n := if n in s'.turns then s'.turns[n] else s.turns[n]]
            && var turn, turn' := s.turns[n], s'.turns[n];
            && turn'.startedAt == turn.startedAt
            && turn'.loops == turn.loops + (if e.LoopStarted? then 1 else 0)
            && turn'.firstToken == (if e.FirstToken? then e.ts else turn.firstToken)
            && turn'.endedAt == (if e.TurnEnded? then e.ts else turn.endedAt)
            && turn'.outcome == (if e.TurnEnded? then e.outcome else turn.outcome)
            && turn'.ids == turn.ids + if e.ToolCompleted? && RecordedAs(s, e) !in turn.ids then [RecordedAs(s, e)] else []
  {
    hide Latest, Without, Finish, NewTool;
    if e.ToolCompleted? { SameKey(s, e); }
    assert s.turns == s.turns[s.current.value := s.turns[s.current.value]];
  }

  /** A turn from its start to any later event before another turn starts: when it began, its first token,
      its loops, how and when it last ended, and the calls completed in it, each once. The turns of other
      numbers are as they were. */
  lemma {:induction false} TurnRecorded(pre: seq<Event>, n: int, ts: Time, post: seq<Event>)
    requires forall i | 0 <= i < |post| :: !Restarts(post[i])
    ensures var log := pre + [TurnStarted(n, ts)];
            var s := Run(log + post);
            && s.current == Some(n) && n in s.turns && TurnTells(s.turns[n], ts, post)
            && (forall k :: k in s.turns[n].ids <==> CompletedIn(log, post, k)) && Distinct(s.turns[n].ids)
            && s.turns.Keys == Run(pre).turns.Keys + {n}
            && forall m | m in Run(pre).turns && m != n :: s.turns[m] == Run(pre).turns[m]
    decreases |post|
  {
    hide Step, TurnTells, Run, CompletedIn, RecordedAs;
    var log := pre + [TurnStarted(n, ts)];
    if post == [] {
      TurnBegins(pre, n, ts);
      assert log + [] == log;
    } else {
      var k := |post| - 1;
      var before, e := post[..k], post[k];
      InitLast(post);
      TurnRecorded(pre, n, ts, before);
      assert log + post == (log + before) + [e];
      var s := Run(log + before);
      RunOne(log + before, e);
      StepTurn(s, e);
      TellsNext(s.turns[n], Step(s, e).turns[n], ts, before, e);
      forall id ensures CompletedIn(log, post, id)
                        <==> CompletedIn(log, before, id) || (e.ToolCompleted? && RecordedAs(s, e) == id)
      {
        CompletedNext(log, before, e, id);
      }
    }
  }

  lemma TurnBegins(pre: seq<Event>, n: int, ts: Time)
    ensures var log := pre + [TurnStarted(n, ts)];
            var s := Run(log);
            && s.current == Some(n) && n in s.turns && TurnTells(s.turns[n], ts, []) && s.turns[n].ids == []
            && (forall k :: !CompletedIn(log, [], k))
            && s.turns.Keys == Run(pre).turns.Keys + {n}
            && forall m | m in Run(pre).turns && m != n :: s.turns[m] == Run(pre).turns[m]
  {
    hide Run;
    RunOne(pre, TurnStarted(n, ts));
  }
}
