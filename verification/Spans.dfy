/** The walk over a session's event log in `normalizer/grok_normalize.py` (start queues, permission
    waits, spans), its duplicate-call table, and the `duplicate_calls` metric that
    `interstellar/grade.py` reads from it. */
module Spans {
  import opened Common

  datatype Kind = Llm | Mcp | Plain | Skill | Subagent

  /** Times are milliseconds since the session's first event. `loads` is the skill a completed call
      turns out to have loaded, `related` whether an activation names a tool call. */
  datatype Event =
    | Connected(server: string, at: int)
    | Failed(server: string, at: int)
    | TurnStarted(at: int)
    | ToolStarted(name: string, at: int)
    | PermissionResolved(name: string, wait: int)
    | ToolCompleted(name: string, at: int, duration: int, args: string, loads: Option<string>)
    | SkillActivated(skill: string, related: bool, at: int)
    | Other

  /** `isEvent` marks spans made from connection events (their label is the server's name); `preview` is absent on slash activations. */
  datatype Span = Span(kind: Kind, name: string, isEvent: bool, start: int, wait: int, preview: Option<string>, skill: Option<string>)

  const PayloadChars: nat := 400

  function Preview(args: string): string { if |args| <= PayloadChars then args else args[..PayloadChars] }

  function KindOf(e: Event): Kind
    requires e.ToolCompleted?
  {
    if e.name == "use_tool" then Mcp
    else if e.name == "spawn_subagent" then Subagent
    else if e.loads.Some? then Skill
    else Plain
  }

  function ConnectionSpan(server: string, at: int): Span { Span(Mcp, server, true, at, 0, None, None) }

  function TurnSpan(at: int): Span { Span(Llm, "", false, at, 0, None, None) }

  function CallSpan(e: Event, start: int, wait: int): (s: Span)
    requires e.ToolCompleted?
    ensures IsCall(s) && s.wait == wait
  {
    var kind := KindOf(e);
    Span(kind, e.name, false, start, wait, Some(Preview(e.args)), if kind.Skill? then e.loads else None)
  }

  /** The spans the metrics count as tool calls. */
  predicate IsCall(s: Span) { !s.kind.Llm? && !s.isEvent }

  // --- what a span should say, without queues or running totals ------------------------------------

  function StartTimes(events: seq<Event>, name: string): seq<int> {
    if events == [] then [] else
      var before, e := events[..|events| - 1], events[|events| - 1];
      if e.ToolStarted? && e.name == name then StartTimes(before, name) + [e.at] else StartTimes(before, name)
  }

  /** How many starts of a name completions have used up. */
  function Used(events: seq<Event>, name: string): (n: nat)
    ensures n <= |StartTimes(events, name)|
  {
    if events == [] then 0 else
      var before, e := events[..|events| - 1], events[|events| - 1];
      if e.ToolCompleted? && e.name == name then Min(Used(before, name) + 1, |StartTimes(before, name)|) else Used(before, name)
  }

  /** The waits resolved for a name since its last completion. */
  function WaitSince(events: seq<Event>, name: string): int {
    if events == [] then 0 else
      var before, e := events[..|events| - 1], events[|events| - 1];
      if e.PermissionResolved? && e.name == name then WaitSince(before, name) + e.wait
      else if e.ToolCompleted? && e.name == name then 0
      else WaitSince(before, name)
  }

  /** A completed call began at the oldest unused start of its name, else its duration ago. */
  function StartOf(before: seq<Event>, e: Event): int
    requires e.ToolCompleted?
  {
    var starts, used := StartTimes(before, e.name), Used(before, e.name);
    if used < |starts| then starts[used] else e.at - e.duration
  }

  function Made(before: seq<Event>, e: Event): seq<Span> {
    match e
    case Connected(server, at) => [ConnectionSpan(server, at)]
    case Failed(server, at) => [ConnectionSpan(server, at)]
    case TurnStarted(at) => [TurnSpan(at)]
    case ToolCompleted(name, _, _, _, _) =>
      [CallSpan(e, StartOf(before, e), WaitSince(before, name))]
    case _ => []
  }

  function Walked(events: seq<Event>): seq<Span> {
    if events == [] then [] else Walked(events[..|events| - 1]) + Made(events[..|events| - 1], events[|events| - 1])
  }

  function SeenSkills(spans: seq<Span>): set<string> {
    set s | s in spans && s.kind.Skill? && s.skill.Some? :: s.skill.value
  }

  /** Slash activations of skills no span has loaded get a span of their own. */
  function Slashed(events: seq<Event>, seen: set<string>): seq<Span> {
    if events == [] then [] else
      var e := events[|events| - 1];
      Slashed(events[..|events| - 1], seen)
      + if e.SkillActivated? && !e.related && e.skill !in seen
        then [Span(Skill, "/" + e.skill, false, e.at, 0, None, Some(e.skill))] else []
  }

  function Trace(events: seq<Event>): seq<Span> {
    Walked(events) + Slashed(events, SeenSkills(Walked(events)))
  }

  // --- the walk -----------------------------------------------------------------------------------------

  function QueueOf(queues: map<string, seq<int>>, name: string): seq<int> { if name in queues then queues[name] else [] }

  function WaitOf(waits: map<string, int>, name: string): int { if name in waits then waits[name] else 0 }

  /** The pending waits as the walk keeps them: a completion takes its name's entry out. */
  function Waits(events: seq<Event>): map<string, int> {
    if events == [] then map[] else
      var m, e := Waits(events[..|events| - 1]), events[|events| - 1];
      if e.PermissionResolved? then m[e.name := WaitOf(m, e.name) + e.wait]
      else if e.ToolCompleted? then m - {e.name}
      else m
  }

  lemma {:induction false} PendingWait(events: seq<Event>, name: string)
    ensures WaitOf(Waits(events), name) == WaitSince(events, name)
  {
    if events != [] { PendingWait(events[..|events| - 1], name); }
  }

  /** Each queue holds the unused starts of its name, oldest first. */
  ghost predicate QueuesHold(queues: map<string, seq<int>>, events: seq<Event>) {
    forall name :: QueueOf(queues, name) == StartTimes(events, name)[Used(events, name)..]
  }

  lemma {:induction false} QueuesStep(queues: map<string, seq<int>>, before: seq<Event>, e: Event)
    requires QueuesHold(queues, before)
    ensures var queues' :=
              if e.ToolStarted? then queues[e.name := QueueOf(queues, e.name) + [e.at]]
              else if e.ToolCompleted? && QueueOf(queues, e.name) != [] then queues[e.name := queues[e.name][1..]]
              else queues;
            QueuesHold(queues', before + [e])
  {
    assert (before + [e])[..|before|] == before;
  }

  lemma {:induction false} WalkedStep(queues: map<string, seq<int>>, before: seq<Event>, e: Event)
    requires QueuesHold(queues, before)
    ensures Walked(before + [e]) == Walked(before) +
              if e.ToolCompleted? then
                var q := QueueOf(queues, e.name);
                [CallSpan(e, if q != [] then q[0] else e.at - e.duration, WaitOf(Waits(before), e.name))]
              else Made(before, e)
    ensures Waits(before + [e]) ==
            if e.PermissionResolved? then Waits(before)[e.name := WaitOf(Waits(before), e.name) + e.wait]
            else if e.ToolCompleted? then Waits(before) - {e.name}
            else Waits(before)
  {
    hide StartTimes, Used, WaitSince;
    assert (before + [e])[..|before|] == before;
    if e.ToolCompleted? {
      PendingWait(before, e.name);
      assert QueueOf(queues, e.name) == StartTimes(before, e.name)[Used(before, e.name)..];
    }
  }

  /** The loop's body on its own variables, after the events `before`. */
  method WalkEvent(ghost before: seq<Event>, e: Event, queues: map<string, seq<int>>, waits: map<string, int>)
      returns (queues': map<string, seq<int>>, waits': map<string, int>, made: seq<Span>)
    requires QueuesHold(queues, before) && waits == Waits(before)
    ensures QueuesHold(queues', before + [e]) && waits' == Waits(before + [e])
    ensures Walked(before + [e]) == Walked(before) + made
  {
    hide StartTimes, Used, Waits, Walked;
    WalkedStep(queues, before, e);
    QueuesStep(queues, before, e);
    queues', waits', made := queues, waits, [];
    match e {
      case Connected(server, at) => made := [ConnectionSpan(server, at)];
      case Failed(server, at) => made := [ConnectionSpan(server, at)];
      case TurnStarted(at) => made := [TurnSpan(at)];
      case ToolStarted(name, at) => queues' := queues[name := QueueOf(queues, name) + [at]];
      case PermissionResolved(name, wait) => waits' := waits[name := WaitOf(waits, name) + wait];
      case ToolCompleted(name, at, duration, _, _) =>
        var start := at - duration;
        if QueueOf(queues, name) != [] {
          start := queues[name][0];
          queues' := queues[name := queues[name][1..]];
        }
        made := [CallSpan(e, start, WaitOf(waits, name))];
        waits' := waits - {name};
      case _ =>
    }
  }

  method Walk(events: seq<Event>) returns (spans: seq<Span>, waits: map<string, int>)
    ensures spans == Walked(events) && waits == Waits(events)
  {
    var queues: map<string, seq<int>> := map[];
    spans, waits := [], map[];
    for i := 0 to |events|
      invariant QueuesHold(queues, events[..i])
      invariant spans == Walked(events[..i]) && waits == Waits(events[..i])
    {
      assert events[..i + 1] == events[..i] + [events[i]];
      var made;
      queues, waits, made := WalkEvent(events[..i], events[i], queues, waits);
      spans := spans + made;
    }
    assert events[..|events|] == events;
  }

  lemma SlashedNone(seen: set<string>)
    ensures Slashed([], seen) == []
  {
  }

  lemma SlashedNext(walked: seq<Span>, events: seq<Event>, seen: set<string>, i: nat)
    requires i < |events|
    ensures var e := events[i];
            walked + Slashed(events[..i + 1], seen)
            == walked + Slashed(events[..i], seen)
               + if e.SkillActivated? && !e.related && e.skill !in seen
                 then [Span(Skill, "/" + e.skill, false, e.at, 0, None, Some(e.skill))] else []
  {
    TakeOneMore(events, i);
  }

  method Normalize(events: seq<Event>) returns (spans: seq<Span>)
    ensures spans == Trace(events)
  {
    hide Walked, SeenSkills, Slashed;
    SlashedNone(SeenSkills(Walked(events)));
    var waits;
    spans, waits := Walk(events);
    var seen := SeenSkills(spans);
    ghost var walked := spans;
    for i := 0 to |events|
      invariant spans == walked + Slashed(events[..i], seen)
    {
      SlashedNext(walked, events, seen, i);
      var e := events[i];
      if e.SkillActivated? && !e.related && e.skill !in seen {
        spans := spans + [Span(Skill, "/" + e.skill, false, e.at, 0, None, Some(e.skill))];
      }
    }
    TakeAll(events);
  }

  // --- permission waits are conserved -------------------------------------------------------------------

  function Calls(spans: seq<Span>): seq<Span> {
    if spans == [] then [] else
      Calls(spans[..|spans| - 1]) + if IsCall(spans[|spans| - 1]) then [spans[|spans| - 1]] else []
  }

  function TotalWait(spans: seq<Span>): int {
    if spans == [] then 0 else TotalWait(spans[..|spans| - 1]) + spans[|spans| - 1].wait
  }

  /** Every wait the log resolves. */
  function Granted(events: seq<Event>): int {
    if events == [] then 0 else
      var e := events[|events| - 1];
      Granted(events[..|events| - 1]) + if e.PermissionResolved? then e.wait else 0
  }

  ghost function Sum(m: map<string, int>): int
    decreases |m|
  {
    if m == map[] then 0 else var k :| k in m; m[k] + Sum(m - {k})
  }

  lemma {:induction false} SumWithout(m: map<string, int>, k: string)
    ensures Sum(m) == WaitOf(m, k) + Sum(m - {k})
    decreases |m|
  {
    if k !in m {
      assert m - {k} == m;
    } else {
      var j :| j in m && Sum(m) == m[j] + Sum(m - {j});
      if j != k {
        SumWithout(m - {j}, k);
        SumWithout(m - {k}, j);
        assert m - {j} - {k} == m - {k} - {j};
      }
    }
  }

  lemma SumUpdate(m: map<string, int>, k: string, v: int)
    ensures Sum(m[k := v]) == Sum(m) - WaitOf(m, k) + v
  {
    SumWithout(m, k);
    SumWithout(m[k := v], k);
    assert m[k := v] - {k} == m - {k};
  }

  lemma {:induction false} CallsAppend(a: seq<Span>, b: seq<Span>)
    ensures Calls(a + b) == Calls(a) + Calls(b)
  {
    if b == [] {
      assert a + b == a;
    } else {
      assert (a + b)[..|a + b| - 1] == a + b[..|b| - 1];
      CallsAppend(a, b[..|b| - 1]);
    }
  }

  lemma {:induction false} TotalWaitAppend(a: seq<Span>, b: seq<Span>)
    ensures TotalWait(a + b) == TotalWait(a) + TotalWait(b)
  {
    if b == [] {
      assert a + b == a;
    } else {
      assert (a + b)[..|a + b| - 1] == a + b[..|b| - 1];
      TotalWaitAppend(a, b[..|b| - 1]);
    }
  }

  lemma {:induction false} MadeWaits(before: seq<Event>, e: Event)
    ensures TotalWait(Calls(Made(before, e))) == if e.ToolCompleted? then WaitSince(before, e.name) else 0
  {
    hide Calls, TotalWait, WaitSince, StartOf, IsCall, KindOf, Preview;
    var made := Made(before, e);
    if made == [] {
      NoWait();
    } else {
      assert made == [made[0]];
      SingleWait(made[0]);
      NotACall(before, e);
    }
  }

  lemma NoWait()
    ensures TotalWait(Calls([])) == 0
  {
  }

  /** Only completions make spans that count as calls. */
  lemma NotACall(before: seq<Event>, e: Event)
    ensures forall s | s in Made(before, e) :: IsCall(s) <==> e.ToolCompleted?
  {
    hide StartOf, WaitSince, Preview;
  }

  lemma SingleWait(s: Span)
    ensures TotalWait(Calls([s])) == if IsCall(s) then s.wait else 0
  {
    assert [s][..0] == [];
    assert Calls([s]) == Calls([]) + if IsCall(s) then [s] else [];
  }

  lemma {:induction false} WalkedWaits(events: seq<Event>)
    ensures TotalWait(Calls(Walked(events))) + Sum(Waits(events)) == Granted(events)
  {
    hide IsCall, Made, WaitOf;
    if events != [] {
      var before, e := events[..|events| - 1], events[|events| - 1];
      WalkedWaits(before);
      CallsAppend(Walked(before), Made(before, e));
      TotalWaitAppend(Calls(Walked(before)), Calls(Made(before, e)));
      MadeWaits(before, e);
      if e.PermissionResolved? {
        SumUpdate(Waits(before), e.name, WaitOf(Waits(before), e.name) + e.wait);
      } else if e.ToolCompleted? {
        SumWithout(Waits(before), e.name);
        PendingWait(before, e.name);
      }
    }
  }

  lemma {:induction false} SlashedWaits(events: seq<Event>, seen: set<string>)
    ensures TotalWait(Calls(Slashed(events, seen))) == 0
  {
    hide Calls, TotalWait, IsCall;
    if events == [] {
      NoWait();
    } else {
      var before, e := events[..|events| - 1], events[|events| - 1];
      SlashedWaits(before, seen);
      var slashed := Slashed(before, seen);
      if e.SkillActivated? && !e.related && e.skill !in seen {
        var span := Span(Skill, "/" + e.skill, false, e.at, 0, None, Some(e.skill));
        SingleWait(span);
        CallsAppend(slashed, [span]);
        TotalWaitAppend(Calls(slashed), Calls([span]));
      } else {
        assert slashed + [] == slashed;
      }
    }
  }

  /** The waits charged to calls and those no completion claimed add up to every wait resolved. */
  lemma {:induction false} WaitsConserved(events: seq<Event>)
    ensures TotalWait(Calls(Trace(events))) + Sum(Waits(events)) == Granted(events)
  {
    var walked := Walked(events);
    var slashed := Slashed(events, SeenSkills(walked));
    WalkedWaits(events);
    SlashedWaits(events, SeenSkills(walked));
    CallsAppend(walked, slashed);
    TotalWaitAppend(Calls(walked), Calls(slashed));
  }

  // --- duplicate calls ------------------------------------------------------------------------------------

  /** What the duplicate table tells calls apart by: the tool and the preview of its arguments. */
  datatype Signature = Signature(tool: string, preview: Option<string>)

  datatype Duplicate = Duplicate(tool: string, times: nat, args: string)

  function SignatureOf(s: Span): Signature { Signature(s.name, s.preview) }

  function Signatures(calls: seq<Span>): (r: seq<Signature>)
    ensures |r| == |calls| && forall i | 0 <= i < |calls| :: r[i] == SignatureOf(calls[i])
  {
    seq(|calls|, i requires 0 <= i < |calls| => SignatureOf(calls[i]))
  }

  function Entry(sig: Signature, times: nat): Duplicate {
    var args := if sig.preview.Some? then sig.preview.value else "";
    Duplicate(sig.tool, times, if |args| <= 160 then args else args[..160])
  }

  ghost predicate NoRepeats(keys: seq<Signature>) { forall i, j | 0 <= i < j < |keys| :: keys[i] != keys[j] }

  predicate MoreOften(a: Duplicate, b: Duplicate) { a.times >= b.times }

  /** The entries of the signatures counted more than once. */
  function Repeated(keys: seq<Signature>, counts: multiset<Signature>): seq<Duplicate> {
    if keys == [] then [] else
      var k := keys[|keys| - 1];
      Repeated(keys[..|keys| - 1], counts) + if counts[k] > 1 then [Entry(k, counts[k])] else []
  }

  /** Repeats beyond the first, summed over the table. */
  function Excess(dupes: seq<Duplicate>): int {
    if dupes == [] then 0 else Max(dupes[0].times, 1) - 1 + Excess(dupes[1..])
  }

  /** The counter: its keys in the order of first sight. */
  method Count(calls: seq<Span>) returns (keys: seq<Signature>, counts: map<Signature, nat>)
    ensures NoRepeats(keys) && (forall k :: k in keys <==> k in Signatures(calls))
    ensures forall k :: k in counts <==> k in keys
    ensures forall k | k in counts :: counts[k] == multiset(Signatures(calls))[k]
  {
    keys, counts := [], map[];
    var sigs := Signatures(calls);
    for i := 0 to |calls|
      invariant NoRepeats(keys) && (forall k :: k in keys <==> k in sigs[..i])
      invariant forall k :: k in counts <==> k in keys
      invariant forall k | k in counts :: counts[k] == multiset(sigs[..i])[k]
    {
      assert sigs[..i + 1] == sigs[..i] + [sigs[i]];
      var k := sigs[i];
      if k in counts {
        counts := counts[k := counts[k] + 1];
      } else {
        assert k !in multiset(sigs[..i]);
        keys, counts := keys + [k], counts[k := 1];
      }
    }
    assert sigs[..|calls|] == sigs;
  }

  /** The entry of a signature seen `times` times: its tool and the first 160 characters of the preview. */
  ghost predicate Shows(d: Duplicate, sig: Signature, times: nat) {
    && d.tool == sig.tool && d.times == times
    && match sig.preview
       case None => d.args == ""
       case Some(p) => d.args == p[..Min(|p|, 160)]
  }

  lemma EntryShows(d: Duplicate, sig: Signature, times: nat)
    ensures Shows(d, sig, times) <==> d == Entry(sig, times)
  {
    if sig.preview.Some? {
      var p := sig.preview.value;
      assert p[..Min(|p|, 160)] == if |p| <= 160 then p else p[..160];
    }
  }

  /** The table has an entry for each signature that occurs more than once, and no other. */
  lemma {:induction false} TableEntries(keys: seq<Signature>, sigs: seq<Signature>, d: Duplicate)
    ensures d in Repeated(keys, multiset(sigs))
            <==> exists sig :: sig in keys && multiset(sigs)[sig] > 1 && Shows(d, sig, multiset(sigs)[sig])
  {
    hide Shows;
    if keys != [] {
      var rest, k := keys[..|keys| - 1], keys[|keys| - 1];
      TableEntries(rest, sigs, d);
      EntryShows(d, k, multiset(sigs)[k]);
      assert forall sig :: sig in keys <==> sig in rest || sig == k;
    }
  }

  lemma {:induction false} TableSize(keys: seq<Signature>, sigs: seq<Signature>)
    ensures |Repeated(keys, multiset(sigs))| == CountIf((sig: Signature) => multiset(sigs)[sig] > 1, keys)
  {
    if keys != [] { TableSize(keys[..|keys| - 1], sigs); }
  }

  lemma {:induction false} SignatureCount(calls: seq<Span>, s: Span)
    ensures CountIf((c: Span) => c.name == s.name && c.preview == s.preview, calls)
            == multiset(Signatures(calls))[Signature(s.name, s.preview)]
    ensures s in calls ==> Signature(s.name, s.preview) in Signatures(calls)
  {
    if calls != [] {
      var k := |calls| - 1;
      SignatureCount(calls[..k], s);
      assert Signatures(calls) == Signatures(calls[..k]) + [SignatureOf(calls[k])];
      if s in calls {
        var i :| 0 <= i < |calls| && calls[i] == s;
        assert Signatures(calls)[i] == SignatureOf(s);
      }
    }
  }

  /** Most frequent first, with one entry for each signature that more than one of the calls has. */
  ghost predicate Tabulates(dupes: seq<Duplicate>, calls: seq<Span>) {
    && (forall i, j | 0 <= i < j < |dupes| :: dupes[i].times >= dupes[j].times)
    && forall d :: d in dupes <==>
         exists s :: s in calls && var n := CountIf((c: Span) => c.name == s.name && c.preview == s.preview, calls);
           n > 1 && Shows(d, Signature(s.name, s.preview), n)
  }

  lemma {:induction false} TableTabulates(calls: seq<Span>, keys: seq<Signature>, dupes: seq<Duplicate>)
    requires forall k :: k in keys <==> k in Signatures(calls)
    requires multiset(dupes) == multiset(Repeated(keys, multiset(Signatures(calls)))) && SortedBy(MoreOften, dupes)
    ensures Tabulates(dupes, calls)
    ensures |dupes| == CountIf((sig: Signature) => multiset(Signatures(calls))[sig] > 1, keys)
  {
    hide Shows, Repeated, CountIf;
    var sigs := Signatures(calls);
    TableSize(keys, sigs);
    SameSize(dupes, Repeated(keys, multiset(sigs)));
    forall d ensures d in dupes <==>
      exists s :: s in calls && var n := CountIf((c: Span) => c.name == s.name && c.preview == s.preview, calls);
        n > 1 && Shows(d, Signature(s.name, s.preview), n)
    {
      assert d in dupes <==> d in multiset(dupes);
      assert d in Repeated(keys, multiset(sigs)) <==> d in multiset(Repeated(keys, multiset(sigs)));
      TableEntries(keys, sigs, d);
      forall s | s in calls
        ensures CountIf((c: Span) => c.name == s.name && c.preview == s.preview, calls)
                == multiset(sigs)[Signature(s.name, s.preview)] && Signature(s.name, s.preview) in keys
      {
        SignatureCount(calls, s);
      }
      if sig :| sig in keys && multiset(sigs)[sig] > 1 && Shows(d, sig, multiset(sigs)[sig]) {
        var i :| 0 <= i < |calls| && sigs[i] == sig;
        assert calls[i] in calls;
      }
    }
  }

  method DuplicateTable(calls: seq<Span>) returns (dupes: seq<Duplicate>, ghost keys: seq<Signature>)
    ensures NoRepeats(keys) && (forall k :: k in keys <==> k in Signatures(calls))
    ensures multiset(dupes) == multiset(Repeated(keys, multiset(Signatures(calls)))) && SortedBy(MoreOften, dupes)
    ensures Tabulates(dupes, calls) && |dupes| == CountIf((sig: Signature) => multiset(Signatures(calls))[sig] > 1, keys)
    ensures Excess(dupes) == Excess(Repeated(keys, multiset(Signatures(calls))))
  {
    hide Tabulates;
    var order, counts := Count(calls);
    keys := order;
    ghost var m := multiset(Signatures(calls));
    dupes := [];
    for i := 0 to |order|
      invariant dupes == Repeated(order[..i], m)
    {
      assert order[..i + 1][..i] == order[..i];
      assert order[i] in counts;
      if counts[order[i]] > 1 { dupes := dupes + [Entry(order[i], counts[order[i]])]; }
    }
    assert order[..|order|] == order;
    SortSorts(MoreOften, dupes);
    SortedExcess(dupes);
    dupes := Sort(MoreOften, dupes);
    TableTabulates(calls, keys, dupes);
  }

  function Distinct<T>(s: seq<T>): set<T> { set x | x in s }

  /** The graded metric: from the calls of a trace to the number of wasted repeats. */
  method DuplicateCalls(calls: seq<Span>) returns (n: int)
    ensures n == |calls| - |Distinct(Signatures(calls))|
  {
    var dupes;
    ghost var keys;
    dupes, keys := DuplicateTable(calls);
    n := 0;
    for i := 0 to |dupes|
      invariant n + Excess(dupes[i..]) == Excess(dupes)
    {
      n := n + (Max(dupes[i].times, 1) - 1);
    }
    RepeatedExcess(keys, Signatures(calls));
  }

  lemma {:induction false} InsertExcess(d: Duplicate, s: seq<Duplicate>)
    ensures Excess(Insert(MoreOften, d, s)) == Max(d.times, 1) - 1 + Excess(s)
  {
    if s != [] && !MoreOften(d, s[0]) { InsertExcess(d, s[1..]); }
  }

  lemma {:induction false} SortedExcess(s: seq<Duplicate>)
    ensures Excess(Sort(MoreOften, s)) == Excess(s)
  {
    if s != [] {
      SortedExcess(s[1..]);
      InsertExcess(s[0], Sort(MoreOften, s[1..]));
    }
  }

  function CountAll(keys: seq<Signature>, m: multiset<Signature>): nat {
    if keys == [] then 0 else CountAll(keys[..|keys| - 1], m) + m[keys[|keys| - 1]]
  }

  lemma {:induction false} CountWithout(keys: seq<Signature>, m: multiset<Signature>, k: Signature)
    requires k !in keys
    ensures CountAll(keys, m) == CountAll(keys, m[k := 0])
  {
    if keys != [] { CountWithout(keys[..|keys| - 1], m, k); }
  }

  lemma {:induction false} CountCovers(keys: seq<Signature>, m: multiset<Signature>)
    requires NoRepeats(keys) && forall k | k in m :: k in keys
    ensures CountAll(keys, m) == |m|
  {
    if keys == [] {
      assert m == multiset{};
    } else {
      var rest, k := keys[..|keys| - 1], keys[|keys| - 1];
      assert keys == rest + [k];
      CountWithout(rest, m, k);
      CountCovers(rest, m[k := 0]);
    }
  }

  lemma {:induction false} ExcessAppend(a: seq<Duplicate>, b: seq<Duplicate>)
    ensures Excess(a + b) == Excess(a) + Excess(b)
  {
    if a == [] {
      assert a + b == b;
    } else {
      assert (a + b)[1..] == a[1..] + b;
      ExcessAppend(a[1..], b);
    }
  }

  lemma {:induction false} ExcessOfCounts(keys: seq<Signature>, m: multiset<Signature>)
    requires forall i | 0 <= i < |keys| :: keys[i] in m
    ensures Excess(Repeated(keys, m)) == CountAll(keys, m) - |keys|
  {
    if keys != [] {
      var rest, k := keys[..|keys| - 1], keys[|keys| - 1];
      assert k in m;
      ExcessOfCounts(rest, m);
      var entry := if m[k] > 1 then [Entry(k, m[k])] else [];
      ExcessAppend(Repeated(rest, m), entry);
    }
  }

  lemma {:induction false} DistinctKeys(keys: seq<Signature>)
    requires NoRepeats(keys)
    ensures |Distinct(keys)| == |keys|
  {
    if keys != [] {
      var rest, k := keys[..|keys| - 1], keys[|keys| - 1];
      DistinctKeys(rest);
      assert keys == rest + [k];
      assert Distinct(keys) == Distinct(rest) + {k};
    }
  }

  /** The repeats the table reports are the calls less the distinct signatures. */
  lemma {:induction false} RepeatedExcess(keys: seq<Signature>, sigs: seq<Signature>)
    requires NoRepeats(keys) && forall k :: k in keys <==> k in sigs
    ensures Excess(Repeated(keys, multiset(sigs))) == |sigs| - |Distinct(sigs)|
  {
    CountCovers(keys, multiset(sigs));
    forall i | 0 <= i < |keys| ensures keys[i] in multiset(sigs) {
      assert keys[i] in keys;
      assert keys[i] in sigs;
    }
    ExcessOfCounts(keys, multiset(sigs));
    DistinctKeys(keys);
    assert Distinct(sigs) == Distinct(keys);
  }

  // --- repeats of previews against repeats of whole calls ------------------------------------------------

  /** A call as it was made: the tool and its whole arguments. A slash activation has none. */
  datatype Call = Call(tool: string, args: Option<string>)

  function CallSignature(c: Call): Signature {
    Signature(c.tool, if c.args.Some? then Some(Preview(c.args.value)) else None)
  }

  /** The completed calls of a log, in order. */
  function Completed(events: seq<Event>): seq<Call> {
    if events == [] then [] else
      var e := events[|events| - 1];
      Completed(events[..|events| - 1]) + if e.ToolCompleted? then [Call(e.name, Some(e.args))] else []
  }

  /** The slash activations of skills no call has loaded. */
  function Slashes(events: seq<Event>, seen: set<string>): seq<Call> {
    if events == [] then [] else
      var e := events[|events| - 1];
      Slashes(events[..|events| - 1], seen)
      + if e.SkillActivated? && !e.related && e.skill !in seen then [Call("/" + e.skill, None)] else []
  }

  function Invoked(events: seq<Event>): seq<Call> { Completed(events) + Slashes(events, SeenSkills(Walked(events))) }

  /** Calls beyond the first with the same tool and the same whole arguments. */
  function TrueRepeats(events: seq<Event>): int { |Invoked(events)| - |Distinct(Invoked(events))| }

  /** Two completions of one tool whose arguments differ, and not in their first 400 characters. */
  predicate Confusable(a: Event, b: Event) {
    && a.ToolCompleted? && b.ToolCompleted? && a.name == b.name && a.args != b.args
    && |a.args| >= PayloadChars && |b.args| >= PayloadChars && a.args[..PayloadChars] == b.args[..PayloadChars]
  }

  predicate HasConfusable(events: seq<Event>) {
    exists i, j | 0 <= i < |events| && 0 <= j < |events| :: Confusable(events[i], events[j])
  }

  function SignaturesOf(calls: seq<Call>): (r: seq<Signature>)
    ensures |r| == |calls| && forall i | 0 <= i < |calls| :: r[i] == CallSignature(calls[i])
  {
    seq(|calls|, i requires 0 <= i < |calls| => CallSignature(calls[i]))
  }

  lemma SignaturesAppend(a: seq<Span>, b: seq<Span>)
    ensures Signatures(Calls(a + b)) == Signatures(Calls(a)) + Signatures(Calls(b))
  {
    CallsAppend(a, b);
  }

  lemma SignaturesOfAppend(a: seq<Call>, b: seq<Call>)
    ensures SignaturesOf(a + b) == SignaturesOf(a) + SignaturesOf(b)
  {
  }

  /** One span shows the signature of the one call it stands for, or of none. */
  lemma SpanSignature(spans: seq<Span>, calls: seq<Call>)
    requires |spans| <= 1 && |calls| <= |spans|
    requires spans != [] ==> (IsCall(spans[0]) <==> calls != [])
    requires calls != [] ==> SignatureOf(spans[0]) == CallSignature(calls[0])
    ensures Signatures(Calls(spans)) == SignaturesOf(calls)
  {
    if spans != [] {
      var s := spans[0];
      assert spans == [s] && spans[..0] == [];
      assert Calls([s]) == Calls([]) + if IsCall(s) then [s] else [];
    }
  }

  lemma {:induction false} WalkedSignatures(events: seq<Event>)
    ensures Signatures(Calls(Walked(events))) == SignaturesOf(Completed(events))
  {
    hide Calls, Signatures, SignaturesOf, StartOf, WaitSince, Preview;
    if events == [] {
      SpanSignature([], []);
    } else {
      var before, e := events[..|events| - 1], events[|events| - 1];
      var calls := if e.ToolCompleted? then [Call(e.name, Some(e.args))] else [];
      WalkedSignatures(before);
      SpanSignature(Made(before, e), calls);
      SignaturesAppend(Walked(before), Made(before, e));
      SignaturesOfAppend(Completed(before), calls);
    }
  }

  lemma {:induction false} SlashedSignatures(events: seq<Event>, seen: set<string>)
    ensures Signatures(Calls(Slashed(events, seen))) == SignaturesOf(Slashes(events, seen))
  {
    hide Calls, Signatures, SignaturesOf;
    if events == [] {
      SpanSignature([], []);
    } else {
      var before, e := events[..|events| - 1], events[|events| - 1];
      var slash := e.SkillActivated? && !e.related && e.skill !in seen;
      var spans := if slash then [Span(Skill, "/" + e.skill, false, e.at, 0, None, Some(e.skill))] else [];
      var calls := if slash then [Call("/" + e.skill, None)] else [];
      SlashedSignatures(before, seen);
      SpanSignature(spans, calls);
      SignaturesAppend(Slashed(before, seen), spans);
      SignaturesOfAppend(Slashes(before, seen), calls);
    }
  }

  /** The trace's calls carry the signatures of the calls that were made, in order. */
  lemma {:induction false} TraceSignatures(events: seq<Event>)
    ensures Signatures(Calls(Trace(events))) == SignaturesOf(Invoked(events))
  {
    hide Calls, Signatures, SignaturesOf, Walked, Slashed, Completed, Slashes;
    var seen := SeenSkills(Walked(events));
    WalkedSignatures(events);
    SlashedSignatures(events, seen);
    SignaturesAppend(Walked(events), Slashed(events, seen));
    SignaturesOfAppend(Completed(events), Slashes(events, seen));
  }

  lemma {:induction false} CompletedMembers(events: seq<Event>, c: Call)
    ensures c in Completed(events) <==>
            exists i | 0 <= i < |events| :: events[i].ToolCompleted? && c == Call(events[i].name, Some(events[i].args))
  {
    if events != [] {
      var k := |events| - 1;
      CompletedMembers(events[..k], c);
      assert forall i | 0 <= i < k :: events[..k][i] == events[i];
    }
  }

  lemma {:induction false} SlashesMembers(events: seq<Event>, seen: set<string>)
    ensures forall c | c in Slashes(events, seen) :: c.args.None?
  {
    if events != [] { SlashesMembers(events[..|events| - 1], seen); }
  }

  lemma SamePreview(a: string, b: string)
    requires a != b
    ensures Preview(a) == Preview(b) <==>
            |a| >= PayloadChars && |b| >= PayloadChars && a[..PayloadChars] == b[..PayloadChars]
  {
    assert |a| == PayloadChars ==> a[..PayloadChars] == a;
    assert |b| == PayloadChars ==> b[..PayloadChars] == b;
  }

  function Image(calls: set<Call>): set<Signature> { set c | c in calls :: CallSignature(c) }

  ghost predicate Clash(calls: set<Call>) {
    exists c, d | c in calls && d in calls && c != d :: CallSignature(c) == CallSignature(d)
  }

  lemma ClashStep(rest: set<Call>, c: Call)
    requires c !in rest
    ensures Image(rest + {c}) == Image(rest) + {CallSignature(c)}
    ensures Clash(rest + {c}) <==> Clash(rest) || CallSignature(c) in Image(rest)
  {
    hide CallSignature;
    if CallSignature(c) in Image(rest) {
      var d :| d in rest && CallSignature(d) == CallSignature(c);
      assert d in rest + {c} && c in rest + {c};
    }
    if Clash(rest + {c}) && !Clash(rest) {
      var x, y :| x in rest + {c} && y in rest + {c} && x != y && CallSignature(x) == CallSignature(y);
      assert x == c || y == c;
    }
  }

  lemma NoClash()
    ensures !Clash({})
  {
  }

  /** Fewer signatures than calls exactly when two different calls share one. */
  lemma {:induction false} ImageSize(calls: set<Call>)
    ensures |Image(calls)| <= |calls|
    ensures |Image(calls)| == |calls| <==> !Clash(calls)
  {
    hide CallSignature, Clash;
    if calls == {} {
      NoClash();
      assert Image(calls) == {};
    } else {
      var c :| c in calls;
      ImageSize(calls - {c});
      ClashStep(calls - {c}, c);
      assert calls == (calls - {c}) + {c};
    }
  }

  lemma ImageOfCalls(calls: seq<Call>)
    ensures Distinct(SignaturesOf(calls)) == Image(Distinct(calls))
  {
    hide CallSignature;
    forall s ensures s in Distinct(SignaturesOf(calls)) <==> s in Image(Distinct(calls)) {
      if s in SignaturesOf(calls) {
        var i :| 0 <= i < |calls| && SignaturesOf(calls)[i] == s;
        assert calls[i] in Distinct(calls);
      }
      if s in Image(Distinct(calls)) {
        var c :| c in calls && CallSignature(c) == s;
        var i :| 0 <= i < |calls| && calls[i] == c;
        assert SignaturesOf(calls)[i] == s;
      }
    }
  }

  lemma {:induction false} ConfusableClash(events: seq<Event>)
    requires HasConfusable(events)
    ensures Clash(Distinct(Invoked(events)))
  {
    hide Completed, Slashes, Preview, Walked;
    var i, j :| 0 <= i < |events| && 0 <= j < |events| && Confusable(events[i], events[j]);
    var c, d := Call(events[i].name, Some(events[i].args)), Call(events[j].name, Some(events[j].args));
    CompletedMembers(events, c);
    CompletedMembers(events, d);
    SamePreview(events[i].args, events[j].args);
    assert c in Distinct(Invoked(events)) && d in Distinct(Invoked(events)) && CallSignature(c) == CallSignature(d);
  }

  lemma {:induction false} CompletionOf(events: seq<Event>, c: Call) returns (i: nat)
    requires c in Invoked(events) && c.args.Some?
    ensures i < |events| && events[i].ToolCompleted? && c == Call(events[i].name, Some(events[i].args))
  {
    hide Completed, Slashes, Walked;
    SlashesMembers(events, SeenSkills(Walked(events)));
    CompletedMembers(events, c);
    i :| 0 <= i < |events| && events[i].ToolCompleted? && c == Call(events[i].name, Some(events[i].args));
  }

  /** Two different calls of a log look alike exactly when it has two confusable completions. */
  lemma {:induction false} LookAlikes(events: seq<Event>)
    ensures HasConfusable(events) <==> Clash(Distinct(Invoked(events)))
  {
    hide Invoked, Preview;
    if HasConfusable(events) { ConfusableClash(events); }
    if Clash(Distinct(Invoked(events))) {
      var c, d :| c in Invoked(events) && d in Invoked(events) && c != d && CallSignature(c) == CallSignature(d);
      assert c.args.Some? && d.args.Some?;
      var i := CompletionOf(events, c);
      var j := CompletionOf(events, d);
      SamePreview(events[i].args, events[j].args);
      assert Confusable(events[i], events[j]);
    }
  }

  /** From a log to the graded metric. It is never below the repeats of whole calls, and equal to them
      exactly when no two completions of one tool differ only beyond the first 400 characters. */
  method GradedRepeats(events: seq<Event>) returns (n: int)
    ensures n >= TrueRepeats(events)
    ensures n == TrueRepeats(events) <==> !HasConfusable(events)
  {
    hide Invoked, Calls, Trace, HasConfusable, CallSignature, Clash, Image;
    var spans := Normalize(events);
    n := DuplicateCalls(Calls(spans));
    TraceSignatures(events);
    LookAlikes(events);
    ImageOfCalls(Invoked(events));
    ImageSize(Distinct(Invoked(events)));
  }

  /** Two completions whose arguments first differ after the preview: no call is repeated, and the
      metric counts a repeat. */
  lemma {:induction false} LongArgumentsConfused(a: Event, b: Event)
    requires Confusable(a, b)
    ensures TrueRepeats([a, b]) == 0
    ensures var calls := Calls(Trace([a, b])); |calls| - |Distinct(Signatures(calls))| == 1
  {
    hide Preview, Trace;
    var c, d := Call(a.name, Some(a.args)), Call(b.name, Some(b.args));
    TwoCompletions(a, b);
    TraceSignatures([a, b]);
    SamePreview(a.args, b.args);
    assert Distinct([c, d]) == {c, d};
    var sigs := SignaturesOf([c, d]);
    assert Distinct(sigs) == {sigs[0]};
  }

  lemma TwoCompletions(a: Event, b: Event)
    requires a.ToolCompleted? && b.ToolCompleted?
    ensures Invoked([a, b]) == [Call(a.name, Some(a.args)), Call(b.name, Some(b.args))]
  {
    var log, seen := [a, b], SeenSkills(Walked([a, b]));
    var c, d := Call(a.name, Some(a.args)), Call(b.name, Some(b.args));
    assert log[..1] == [a] && [a][..0] == [];
    assert Completed([a]) == Completed([]) + [c] == [c];
    assert Completed(log) == Completed([a]) + [d];
    assert Slashes([], seen) == [];
    assert Slashes([a], seen) == Slashes([], seen) + [];
    assert Slashes(log, seen) == Slashes([a], seen) + [];
  }
}
