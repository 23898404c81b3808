/** What each span of the walk says, read off the log alone: where it stands, what it is called, when the
    call began, what it waited, and which skills count as loaded. */
module SpanFacts {
  import opened Common
  import opened Matching
  import opened Spans

  // --- which start a completion takes ------------------------------------------------------------------

  predicate Starts(e: Event, name: string) { e.ToolStarted? && e.name == name }

  predicate Completes(e: Event, name: string) { e.ToolCompleted? && e.name == name }

  function TimeOf(e: Event): int { if e.ToolStarted? then e.at else 0 }

  /** The starts of a name are those of the log, in order. */
  lemma {:induction false} StartsInOrder(events: seq<Event>, name: string)
    ensures StartTimes(events, name) == Map(TimeOf, Filter((e: Event) => Starts(e, name), events))
  {
    hide Map;
    if events == [] {
      assert Map(TimeOf, []) == [];
    } else {
      var p, k := (e: Event) => Starts(e, name), |events| - 1;
      StartsInOrder(events[..k], name);
      if p(events[k]) { MapAppend(TimeOf, Filter(p, events[..k]), [events[k]]); }
    }
  }

  /** How many starts of a name are used up: the least, over all cuts of the log, of the starts before the
      cut and the completions after it. So a start is left exactly when no cut bounds the rest. */
  lemma {:induction false} UsedIsLeast(events: seq<Event>, name: string)
    ensures Matches(Used(events, name), (e: Event) => Starts(e, name), (e: Event) => Completes(e, name), events)
  {
    hide Matches, StartTimes, CountIf;
    var opens, closes := (e: Event) => Starts(e, name), (e: Event) => Completes(e, name);
    if events == [] {
      MatchesNone(opens, closes);
    } else {
      var before, e := events[..|events| - 1], events[|events| - 1];
      InitLast(events);
      UsedIsLeast(before, name);
      StartsCounted(before, name);
      MatchesNext(Used(before, name), opens, closes, before, e);
    }
  }

  lemma StartsCounted(events: seq<Event>, name: string)
    ensures |StartTimes(events, name)| == CountIf((e: Event) => Starts(e, name), events)
  {
    StartsInOrder(events, name);
  }

  // --- what a call waited --------------------------------------------------------------------------------

  predicate Grants(e: Event, name: string) { e.PermissionResolved? && e.name == name }

  function TotalGranted(events: seq<Event>, name: string): int {
    if events == [] then 0 else
      TotalGranted(events[1..], name) + if Grants(events[0], name) then events[0].wait else 0
  }

  lemma {:induction false} GrantedNext(events: seq<Event>, e: Event, name: string)
    ensures TotalGranted(events + [e], name) == TotalGranted(events, name) + if Grants(e, name) then e.wait else 0
  {
    if events == [] {
      assert [e][1..] == [];
    } else {
      AppendTail(events, [e]);
      GrantedNext(events[1..], e, name);
    }
  }

  /** A call waited what its name was granted since the name's last completion, or since the start. */
  lemma {:induction false} WaitsSinceLast(pre: seq<Event>, post: seq<Event>, name: string)
    requires pre == [] || Completes(pre[|pre| - 1], name)
    requires forall i | 0 <= i < |post| :: !Completes(post[i], name)
    ensures WaitSince(pre + post, name) == TotalGranted(post, name)
  {
    if post == [] {
      assert pre + post == pre;
    } else {
      var k := |post| - 1;
      AppendInit(pre, post);
      WaitsSinceLast(pre, post[..k], name);
      InitLast(post);
      GrantedNext(post[..k], post[k], name);
    }
  }

  // --- one span per event that makes one --------------------------------------------------------------------

  predicate MakesSpan(e: Event) { e.Connected? || e.Failed? || e.TurnStarted? || e.ToolCompleted? }

  /** The span of an event after `before`. */
  ghost predicate Tells(s: Span, before: seq<Event>, e: Event) {
    match e
    case Connected(server, at) => s == Span(Mcp, server, true, at, 0, None, None)
    case Failed(server, at) => s == Span(Mcp, server, true, at, 0, None, None)
    case TurnStarted(at) => s == Span(Llm, "", false, at, 0, None, None)
    case ToolCompleted(name, at, duration, args, loads) =>
      && s.name == name && !s.isEvent && s.wait == WaitSince(before, name)
      && (s.kind == Mcp <==> name == "use_tool") && (s.kind == Subagent <==> name == "spawn_subagent")
      && (s.kind == Skill <==> name != "use_tool" && name != "spawn_subagent" && loads != None) && s.kind != Llm
      && s.skill == (if s.kind == Skill then loads else None)
      && s.preview == Some(args[..Min(|args|, 400)])
      && var starts, used := StartTimes(before, name), Used(before, name);
      if used == |starts| then s.start == at - duration else s.start == starts[used]
    case _ => false
  }

  lemma {:induction false} MadeTells(before: seq<Event>, e: Event)
    ensures var made := Made(before, e); if MakesSpan(e) then |made| == 1 && Tells(made[0], before, e) else made == []
  {
    hide StartTimes, Used, WaitSince;
    if e.ToolCompleted? { assert Preview(e.args) == e.args[..Min(|e.args|, 400)]; }
  }

  /** The walk makes one span for each connection, turn and completed call, in the log's order. */
  lemma {:induction false} SpanPerEvent(events: seq<Event>)
    ensures |Walked(events)| == CountIf(MakesSpan, events)
    ensures forall i: nat | i < |events| && MakesSpan(events[i]) ::
              var p := CountIf(MakesSpan, events[..i]);
              p < |Walked(events)| && Tells(Walked(events)[p], events[..i], events[i])
  {
    hide Made, Tells;
    if events != [] {
      var k := |events| - 1;
      var before := events[..k];
      SpanPerEvent(before);
      MadeTells(before, events[k]);
      forall i: nat | i < |events| && MakesSpan(events[i])
        ensures var p := CountIf(MakesSpan, events[..i]);
                p < |Walked(events)| && Tells(Walked(events)[p], events[..i], events[i])
      {
        if i < k { assert before[..i] == events[..i] && before[i] == events[i]; }
      }
    }
  }

  // --- skills activated without a call -----------------------------------------------------------------------

  predicate Loads(e: Event, skill: string) {
    e.ToolCompleted? && e.loads == Some(skill) && e.name != "use_tool" && e.name != "spawn_subagent"
  }

  /** A skill counts as loaded exactly when some completed call loaded it. */
  lemma {:induction false} LoadedSkills(events: seq<Event>, skill: string)
    ensures skill in SeenSkills(Walked(events)) <==> exists i | 0 <= i < |events| :: Loads(events[i], skill)
  {
    if events != [] {
      var k := |events| - 1;
      var before := events[..k];
      LoadedSkills(before, skill);
      SeenNext(Walked(before), before, events[k], skill);
      assert forall i | 0 <= i < k :: before[i] == events[i];
    }
  }

  lemma SeenNext(walked: seq<Span>, before: seq<Event>, e: Event, skill: string)
    ensures skill in SeenSkills(walked + Made(before, e)) <==> skill in SeenSkills(walked) || Loads(e, skill)
  {
    hide Made;
    MadeTells(before, e);
    var made := Made(before, e);
    SeenAppend(walked, made);
    if MakesSpan(e) {
      var s := made[0];
      assert made == [s];
      assert skill in SeenSkills(made) <==> s.kind.Skill? && s.skill == Some(skill);
    }
  }

  lemma SeenAppend(a: seq<Span>, b: seq<Span>)
    ensures SeenSkills(a + b) == SeenSkills(a) + SeenSkills(b)
  {
  }

  predicate SlashOf(e: Event, seen: set<string>) { e.SkillActivated? && !e.related && e.skill !in seen }

  function SlashSpan(e: Event): Span {
    match e
    case SkillActivated(skill, _, at) => Span(Skill, "/" + skill, false, at, 0, None, Some(skill))
    case _ => TurnSpan(0)
  }

  /** After the walk's spans come the slash activations of other skills, in the log's order. */
  lemma {:induction false} SlashesFollow(events: seq<Event>, seen: set<string>)
    ensures Slashed(events, seen) == Map(SlashSpan, Filter((e: Event) => SlashOf(e, seen), events))
  {
    hide Map, SlashSpan;
    if events == [] {
      assert Map(SlashSpan, []) == [];
    } else {
      var p, k := (e: Event) => SlashOf(e, seen), |events| - 1;
      SlashesFollow(events[..k], seen);
      if p(events[k]) {
        MapAppend(SlashSpan, Filter(p, events[..k]), [events[k]]);
        SlashOne(events[k]);
      }
    }
  }

  lemma SlashOne(e: Event)
    requires e.SkillActivated?
    ensures Map(SlashSpan, [e]) == [Span(Skill, "/" + e.skill, false, e.at, 0, None, Some(e.skill))]
  {
  }
}
