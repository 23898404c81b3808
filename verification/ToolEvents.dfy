/** The event loop of `hackathon/session-analysis/sa/normalize.py`: turns, the table of tool calls
    (re-keyed when a completion brings an id) and one queue of open starts per tool name. */
module ToolEvents {
  import opened Common

  /** A tool-call id, told apart by its form: `pending:n`, `anon:n`, or anything else. */
  datatype Id = Pending(n: nat) | Anon(n: nat) | External(text: string)

  /** A timestamp that is present, in milliseconds when it can be read. */
  datatype Stamp = At(ms: int) | Unreadable

  type Time = Option<Stamp>

  /** Milliseconds between two stamps, never negative; unknown unless both can be read. */
  function Between(a: Stamp, b: Stamp): Option<int> {
    if a.At? && b.At? then Some(Max(0, b.ms - a.ms)) else None
  }

  datatype Duration = Given(ms: int) | Malformed | Absent

  datatype Event =
    | TurnStarted(turn: int, ts: Time)
    | TurnEnded(outcome: string, ts: Time)
    | FirstToken(ts: Time)
    | LoopStarted
    | ToolStarted(name: string, ts: Time)
    | ToolCompleted(name: string, id: Option<Id>, ts: Time, duration: Duration, outcome: string)
    | PermissionRequested(name: string)
    | PermissionResolved(name: string, decision: string, wait: Option<int>)
    | Other

  datatype Turn = Turn(startedAt: Time, firstToken: Time, endedAt: Time, outcome: string, loops: nat, ids: seq<Id>)

  datatype Tool = Tool(id: Id, name: string, startedAt: Time, completedAt: Time, duration: Option<int>, outcome: string,
                       turn: Option<int>, requested: bool, decision: Option<string>, wait: Option<int>)

  function NewTool(id: Id, name: string, startedAt: Time, turn: Option<int>): Tool {
    Tool(id, name, startedAt, None, None, "unknown", turn, false, None, None)
  }

  // --- an insertion-ordered dictionary -----------------------------------------------------------

  datatype Table = Table(order: seq<Id>, recs: map<Id, Tool>)

  function Without(order: seq<Id>, k: Id): seq<Id> {
    if order == [] then [] else if order[0] == k then Without(order[1..], k) else [order[0]] + Without(order[1..], k)
  }

  /** Assigning to a present key keeps its place; a new key goes last. */
  function Put(t: Table, k: Id, rec: Tool): Table {
    Table(if k in t.recs then t.order else t.order + [k], t.recs[k := rec])
  }

  function Pop(t: Table, k: Id): Table { Table(Without(t.order, k), t.recs - {k}) }

  ghost predicate Distinct(s: seq<Id>) { forall i, j | 0 <= i < j < |s| :: s[i] != s[j] }

  ghost predicate Listing(t: Table) {
    Distinct(t.order) && forall k :: k in t.order <==> k in t.recs
  }

  lemma {:induction false} WithoutOne(order: seq<Id>, k: Id)
    requires Distinct(order)
    ensures Distinct(Without(order, k))
    ensures forall j :: j in Without(order, k) <==> j in order && j != k
    ensures |Without(order, k)| == |order| - if k in order then 1 else 0
  {
    if order != [] {
      WithoutOne(order[1..], k);
      assert order == [order[0]] + order[1..];
      assert order[0] !in order[1..];
    }
  }

  // --- one event -----------------------------------------------------------------------------------

  datatype State = State(turns: map<int, Turn>, current: Option<int>, tools: Table, open: map<string, seq<Id>>, synth: nat)

  const Start := State(map[], None, Table([], map[]), map[], 0)

  function Queue(open: map<string, seq<Id>>, name: string): seq<Id> { if name in open then open[name] else [] }

  /** The current turn, when it has been started. */
  predicate InTurn(s: State) { s.current.Some? && s.current.value in s.turns }

  function Begin(s: State, name: string, ts: Time): State {
    var k := Pending(s.synth + 1);
    s.(synth := s.synth + 1, tools := Put(s.tools, k, NewTool(k, name, ts, s.current)),
       open := s.open[name := Queue(s.open, name) + [k]])
  }

  /** The state once a completion has taken the oldest open start of its name. */
  function Dequeue(s: State, name: string): State {
    var q := Queue(s.open, name);
    if q == [] then s else s.(open := s.open[name := q[1..]])
  }

  /** The open start a completion of this name takes: the oldest, if its record is still there. */
  function Oldest(s: State, name: string): Option<Id> {
    var q := Queue(s.open, name);
    if q != [] && q[0] in s.tools.recs then Some(q[0]) else None
  }

  /** The id under which a completion is recorded. */
  function KeyOf(s: State, name: string, id: Option<Id>): Id {
    if id.Some? then id.value
    else if Oldest(s, name).Some? then Oldest(s, name).value
    else Anon(s.synth + 1)
  }

  /** The table once the completion's record is under its key. */
  function Place(s: State, name: string, id: Option<Id>): (t: Table)
    ensures KeyOf(s, name, id) in t.recs
  {
    var key, oldest := KeyOf(s, name, id), Oldest(s, name);
    if oldest.Some? then
      if id.Some? then Put(Pop(s.tools, oldest.value), key, s.tools.recs[oldest.value].(id := key)) else s.tools
    else if id.Some? && key in s.tools.recs then s.tools
    else Put(s.tools, key, NewTool(key, name, None, s.current))
  }

  function Finish(rec: Tool, s: State, e: Event): Tool
    requires e.ToolCompleted?
  {
    rec.(name := e.name, completedAt := e.ts, outcome := e.outcome,
         duration := match e.duration
           case Given(ms) => Some(ms)
           case Malformed => rec.duration
           case Absent =>
             if rec.startedAt.Some? && e.ts.Some? then Between(rec.startedAt.value, e.ts.value) else rec.duration,
         turn := if InTurn(s) then s.current else rec.turn)
  }

  function Complete(s: State, e: Event): State
    requires e.ToolCompleted?
  {
    var key, t := KeyOf(s, e.name, e.id), Place(s, e.name, e.id);
    var turns := if !InTurn(s) then s.turns else
                   var turn := s.turns[s.current.value];
                   s.turns[s.current.value := if key in turn.ids then turn else turn.(ids := turn.ids + [key])];
    Dequeue(s, e.name).(
    tools := t.(recs := t.recs[key := Finish(t.recs[key], s, e)]), turns := turns,
    synth := if e.id.None? && Oldest(s, e.name).None? then s.synth + 1 else s.synth)
  }

  /** The most recently inserted key whose record satisfies the test. */
  function Latest(order: seq<Id>, recs: map<Id, Tool>, test: Tool -> bool): (k: Option<Id>)
    ensures k.Some? ==> k.value in recs && k.value in order && test(recs[k.value])
  {
    if order == [] then None
    else
      var k := order[|order| - 1];
      if k in recs && test(recs[k]) then Some(k) else Latest(order[..|order| - 1], recs, test)
  }

  /** Nothing satisfies the test, or the key found does and nothing inserted after it. */
  lemma {:induction false} LatestIsLast(order: seq<Id>, recs: map<Id, Tool>, test: Tool -> bool)
    ensures var k := Latest(order, recs, test);
            if k.None? then forall i | 0 <= i < |order| && order[i] in recs :: !test(recs[order[i]])
            else exists i | 0 <= i < |order| :: order[i] == k.value
                   && forall j | i < j < |order| && order[j] in recs :: !test(recs[order[j]])
  {
    if order != [] {
      var n := |order| - 1;
      LatestIsLast(order[..n], recs, test);
      var k := Latest(order, recs, test);
      if order[n] in recs && test(recs[order[n]]) {
        assert order[n] == k.value;
      } else if k.Some? {
        var i :| 0 <= i < n && order[..n][i] == k.value
          && forall j | i < j < n && order[..n][j] in recs :: !test(recs[order[..n][j]]);
        forall j | i < j < |order| && order[j] in recs ensures !test(recs[order[j]]) {
          if j < n { assert order[..n][j] == order[j]; }
        }
        assert order[i] == k.value;
      }
    }
  }

  function Requested(s: State, name: string): State {
    var k := Latest(s.tools.order, s.tools.recs, (rec: Tool) => rec.name == name && !rec.requested);
    if k.None? then s
    else s.(tools := s.tools.(recs := s.tools.recs[k.value := s.tools.recs[k.value].(requested := true)]))
  }

  function Resolved(s: State, e: Event): State
    requires e.PermissionResolved?
  {
    var k := Latest(s.tools.order, s.tools.recs, (rec: Tool) => rec.name == e.name);
    if k.None? then s
    else
      var rec := s.tools.recs[k.value];
      s.(tools := s.tools.(recs := s.tools.recs[k.value :=
        rec.(requested := true, decision := Some(e.decision), wait := if e.wait.Some? then e.wait else rec.wait)]))
  }

  function Step(s: State, e: Event): State {
    match e
    case TurnStarted(turn, ts) => s.(current := Some(turn), turns := s.turns[turn := Turn(ts, None, None, "unknown", 0, [])])
    case TurnEnded(outcome, ts) => if InTurn(s) then WithTurn(s, s.turns[s.current.value].(endedAt := ts, outcome := outcome)) else s
    case FirstToken(ts) => if InTurn(s) then WithTurn(s, s.turns[s.current.value].(firstToken := ts)) else s
    case LoopStarted =>
      if InTurn(s) then WithTurn(s, s.turns[s.current.value].(loops := s.turns[s.current.value].loops + 1)) else s
    case ToolStarted(name, ts) => Begin(s, name, ts)
    case ToolCompleted(_, _, _, _, _) => Complete(s, e)
    case PermissionRequested(name) => Requested(s, name)
    case PermissionResolved(_, _, _) => Resolved(s, e)
    case Other => s
  }

  function WithTurn(s: State, turn: Turn): State
    requires InTurn(s)
  {
    s.(turns := s.turns[s.current.value := turn])
  }

  function Run(events: seq<Event>): State {
    if events == [] then Start else Step(Run(events[..|events| - 1]), events[|events| - 1])
  }

  // --- the loop --------------------------------------------------------------------------------------

  method FindLatest(t: Table, test: Tool -> bool) returns (k: Option<Id>)
    ensures k == Latest(t.order, t.recs, test)
  {
    assert t.order[..|t.order|] == t.order;
    var i := |t.order|;
    while i > 0
      invariant 0 <= i <= |t.order|
      invariant Latest(t.order, t.recs, test) == Latest(t.order[..i], t.recs, test)
    {
      assert t.order[..i][..i - 1] == t.order[..i - 1];
      i := i - 1;
      if t.order[i] in t.recs && test(t.recs[t.order[i]]) { return Some(t.order[i]); }
    }
    k := None;
  }

  /** Match a completion with the oldest open start of its name and put its record under its key. */
  method PlaceCall(s: State, e: Event) returns (key: Id, tools: Table, open: map<string, seq<Id>>, synth: nat)
    requires e.ToolCompleted?
    ensures key == KeyOf(s, e.name, e.id) && tools == Place(s, e.name, e.id) && open == Dequeue(s, e.name).open
    ensures synth == if e.id.None? && Oldest(s, e.name).None? then s.synth + 1 else s.synth
  {
    hide NewTool, Pop, Put;
    tools, open, synth := s.tools, s.open, s.synth;
    var matched: Option<Id> := None;
    if Queue(open, e.name) != [] {
      matched := Some(open[e.name][0]);
      open := open[e.name := open[e.name][1..]];
    }
    if e.id.Some? {
      key := e.id.value;
      if matched.Some? && matched.value in tools.recs {
        var rec := tools.recs[matched.value];
        tools := Pop(tools, matched.value);
        tools := Put(tools, key, rec.(id := key));
      } else if key !in tools.recs {
        tools := Put(tools, key, NewTool(key, e.name, None, s.current));
      }
    } else if matched.Some? && matched.value in tools.recs {
      key := matched.value;
    } else {
      synth := synth + 1;
      key := Anon(synth);
      tools := Put(tools, key, NewTool(key, e.name, None, s.current));
    }
  }

  /** The branch for a completed call, on the loop's own variables. */
  method CompleteCall(s: State, e: Event) returns (r: State)
    requires e.ToolCompleted?
    ensures r == Complete(s, e)
  {
    hide Between, Place, KeyOf, Oldest;
    var turns := s.turns;
    var key, tools, open, synth := PlaceCall(s, e);
    var rec := tools.recs[key].(name := e.name, completedAt := e.ts);
    match e.duration {
      case Given(ms) => rec := rec.(duration := Some(ms));
      case Malformed =>
      case Absent => if rec.startedAt.Some? && e.ts.Some? { rec := rec.(duration := Between(rec.startedAt.value, e.ts.value)); }
    }
    rec := rec.(outcome := e.outcome);
    if InTurn(s) {
      var turn := turns[s.current.value];
      if key !in turn.ids { turn := turn.(ids := turn.ids + [key]); }
      turns := turns[s.current.value := turn];
      rec := rec.(turn := s.current);
    }
    tools := tools.(recs := tools.recs[key := rec]);
    r := State(turns, s.current, tools, open, synth);
  }

  method ReadEvents(events: seq<Event>) returns (s: State)
    ensures s == Run(events)
  {
    s := Start;
    for i := 0 to |events|
      invariant s == Run(events[..i])
    {
      assert events[..i + 1][..i] == events[..i];
      var e := events[i];
      match e {
        case ToolCompleted(_, _, _, _, _) => s := CompleteCall(s, e);
        case PermissionRequested(name) =>
          var k := FindLatest(s.tools, (rec: Tool) => rec.name == name && !rec.requested);
          if k.Some? { s := s.(tools := s.tools.(recs := s.tools.recs[k.value := s.tools.recs[k.value].(requested := true)])); }
        case PermissionResolved(name, decision, wait) =>
          var k := FindLatest(s.tools, (rec: Tool) => rec.name == e.name);
          if k.Some? {
            var rec := s.tools.recs[k.value].(decision := Some(decision), requested := true);
            if wait.Some? { rec := rec.(wait := wait); }
            s := s.(tools := s.tools.(recs := s.tools.recs[k.value := rec]));
          }
        case _ => s := Step(s, e);
      }
    }
    assert events[..|events|] == events;
  }

  // --- what every event keeps --------------------------------------------------------------------------

  predicate IsOpen(open: map<string, seq<Id>>, k: Id) { exists name | name in open :: k in open[name] }

  /** Every key is its record's id. */
  ghost predicate Keyed(t: Table) { Listing(t) && forall k | k in t.recs :: t.recs[k].id == k }

  ghost predicate QueueOk(t: Table, name: string, q: seq<Id>) {
    Distinct(q) && forall i | 0 <= i < |q| ::
      q[i].Pending? && q[i] in t.recs && t.recs[q[i]].name == name && t.recs[q[i]].completedAt.None?
  }

  /** Open starts are distinct, present, uncompleted, and queued under their own name. */
  ghost predicate OpenOk(t: Table, open: map<string, seq<Id>>) { forall name | name in open :: QueueOk(t, name, open[name]) }

  ghost predicate TurnOk(t: Table, open: map<string, seq<Id>>, ids: seq<Id>) {
    Distinct(ids) && forall i | 0 <= i < |ids| :: ids[i] in t.recs && !IsOpen(open, ids[i])
  }

  /** A turn lists an id once, and only ids of calls that are present and no longer open. */
  ghost predicate TurnsOk(t: Table, open: map<string, seq<Id>>, turns: map<int, Turn>) {
    forall n | n in turns :: TurnOk(t, open, turns[n].ids)
  }

  ghost predicate Consistent(s: State) {
    Keyed(s.tools) && OpenOk(s.tools, s.open) && TurnsOk(s.tools, s.open, s.turns)
  }

  /** Open starts have been numbered by the counter. */
  ghost predicate Counted(s: State) {
    forall name, k | name in s.open && k in s.open[name] :: k.Pending? && k.n <= s.synth
  }

  predicate Listed(s: State, k: Id) { exists n | n in s.turns :: k in s.turns[n].ids }

  /** The event brings no id that is in use: a start is not given an id that a turn lists already, and
      a completion does not bring the id of a call that stays open. */
  predicate Fresh(s: State, e: Event) {
    match e
    case ToolStarted(_, _) => !Listed(s, Pending(s.synth + 1))
    case ToolCompleted(name, id, _, _, _) => id.Some? ==> !IsOpen(Dequeue(s, name).open, id.value)
    case _ => true
  }

  /** A completion without a timestamp, outside a started turn, that brings the id of a later call of
      its own tool which stays open. */
  predicate Overlooked(s: State, e: Event) {
    && e.ToolCompleted? && e.id.Some? && e.ts.None? && !InTurn(s)
    && e.id.value in Queue(Dequeue(s, e.name).open, e.name)
  }

  lemma PutKeyed(t: Table, k: Id, rec: Tool)
    requires Keyed(t) && rec.id == k
    ensures Keyed(Put(t, k, rec))
  {}

  lemma PopKeyed(t: Table, k: Id)
    requires Keyed(t)
    ensures Keyed(Pop(t, k))
  {
    WithoutOne(t.order, k);
  }

  lemma {:induction false} BeginKeeps(s: State, name: string, ts: Time)
    requires Consistent(s) && Counted(s) && !Listed(s, Pending(s.synth + 1))
    ensures Consistent(Begin(s, name, ts))
  {
    hide QueueOk, TurnOk, Keyed;
    var k, s' := Pending(s.synth + 1), Begin(s, name, ts);
    PutKeyed(s.tools, k, NewTool(k, name, ts, s.current));
    forall n | n in s'.open ensures QueueOk(s'.tools, n, s'.open[n]) { BeginQueue(s, name, ts, n); }
    forall n | n in s'.turns ensures TurnOk(s'.tools, s'.open, s'.turns[n].ids) { BeginTurn(s, name, ts, s.turns[n].ids); }
  }

  /** A start joins the queue of its name; the other queues keep their calls. */
  lemma BeginQueue(s: State, name: string, ts: Time, n: string)
    requires OpenOk(s.tools, s.open) && Counted(s) && n in Begin(s, name, ts).open
    ensures QueueOk(Begin(s, name, ts).tools, n, Begin(s, name, ts).open[n])
  {
    var k, q := Pending(s.synth + 1), Queue(s.open, n);
    assert n in s.open ==> QueueOk(s.tools, n, s.open[n]);
    assert k !in q;
  }

  lemma BeginTurn(s: State, name: string, ts: Time, ids: seq<Id>)
    requires TurnOk(s.tools, s.open, ids) && Pending(s.synth + 1) !in ids
    ensures TurnOk(Begin(s, name, ts).tools, Begin(s, name, ts).open, ids)
  {
    hide IsOpen;
    forall i | 0 <= i < |ids| ensures !IsOpen(Begin(s, name, ts).open, ids[i]) { BeginOpens(s, name, ts, ids[i]); }
  }

  /** A start opens its own call and no other. */
  lemma BeginOpens(s: State, name: string, ts: Time, x: Id)
    requires x != Pending(s.synth + 1)
    ensures IsOpen(Begin(s, name, ts).open, x) ==> IsOpen(s.open, x)
  {
    var open := Begin(s, name, ts).open;
    if IsOpen(open, x) {
      var n :| n in open && x in open[n];
      assert x in Queue(s.open, n);
    }
  }

  /** Placing a completion's record: every other call that stays open keeps its record. */
  lemma {:induction false} PlaceKeeps(s: State, e: Event)
    requires e.ToolCompleted? && Consistent(s) && Counted(s) && Fresh(s, e)
    ensures var t, key, open := Place(s, e.name, e.id), KeyOf(s, e.name, e.id), Dequeue(s, e.name).open;
            && Keyed(t) && !IsOpen(open, key)
            && (forall k | IsOpen(open, k) :: IsOpen(s.open, k) && k in t.recs && k in s.tools.recs && t.recs[k] == s.tools.recs[k])
            && (forall k | k in s.tools.recs && !IsOpen(s.open, k) :: k in t.recs)
            && OpenOk(t, open)
  {
    hide Keyed, TurnsOk;
    var t, key, open := Place(s, e.name, e.id), KeyOf(s, e.name, e.id), Dequeue(s, e.name).open;
    var q := Queue(s.open, e.name);
    if Oldest(s, e.name).Some? {
      PopKeyed(s.tools, q[0]);
      PutKeyed(Pop(s.tools, q[0]), key, s.tools.recs[q[0]].(id := key));
    } else {
      PutKeyed(s.tools, key, NewTool(key, e.name, None, s.current));
    }
    DequeueOpen(s, e.name);
    forall k | IsOpen(open, k) ensures k in t.recs && t.recs[k] == s.tools.recs[k] {
      assert k != key;
    }
    forall n | n in open ensures QueueOk(t, n, open[n]) {
      assert QueueOk(s.tools, n, s.open[n]);
      assert forall k | k in open[n] :: IsOpen(open, k);
    }
  }

  /** What is open after a dequeue: everything that was, except the oldest start of that name. */
  lemma {:induction false} DequeueOpen(s: State, name: string)
    requires Consistent(s)
    ensures var q, open := Queue(s.open, name), Dequeue(s, name).open;
            forall k :: IsOpen(open, k) <==> IsOpen(s.open, k) && (q == [] || k != q[0])
    ensures Oldest(s, name).None? <==> Queue(s.open, name) == []
  {
    var q, open := Queue(s.open, name), Dequeue(s, name).open;
    if q != [] {
      assert QueueOk(s.tools, name, q);
      assert q == [q[0]] + q[1..];
      forall k ensures IsOpen(open, k) <==> IsOpen(s.open, k) && k != q[0] {
        if IsOpen(open, k) {
          var n :| n in open && k in open[n];
          assert QueueOk(s.tools, n, s.open[n]);
          assert k in s.open[n];
        }
        if IsOpen(s.open, k) && k != q[0] {
          var n :| n in s.open && k in s.open[n];
          assert k in open[n];
        }
      }
    }
  }

  /** Finishing the placed record leaves the queues as they are. */
  lemma {:induction false} CompleteKeepsOpen(s: State, e: Event)
    requires e.ToolCompleted? && Consistent(s) && Counted(s) && Fresh(s, e)
    ensures Keyed(Complete(s, e).tools) && OpenOk(Complete(s, e).tools, Complete(s, e).open)
  {
    hide Place, KeyOf, Dequeue, IsOpen, TurnsOk;
    PlaceKeeps(s, e);
    var s', t, key := Complete(s, e), Place(s, e.name, e.id), KeyOf(s, e.name, e.id);
    forall n | n in s'.open ensures QueueOk(s'.tools, n, s'.open[n]) {
      assert QueueOk(t, n, s'.open[n]);
      KeyNotQueued(s'.open, n, key);
    }
  }

  lemma KeyNotQueued(open: map<string, seq<Id>>, n: string, key: Id)
    requires n in open && !IsOpen(open, key)
    ensures key !in open[n]
  {
  }

  lemma {:induction false} CompleteKeepsTurns(s: State, e: Event)
    requires e.ToolCompleted? && Consistent(s) && Counted(s) && Fresh(s, e)
    ensures TurnsOk(Complete(s, e).tools, Complete(s, e).open, Complete(s, e).turns)
  {
    hide Place, KeyOf, Dequeue, OpenOk, Keyed, IsOpen;
    PlaceKeeps(s, e);
    DequeueOpen(s, e.name);
    var s' := Complete(s, e);
    forall n | n in s'.turns ensures TurnOk(s'.tools, s'.open, s'.turns[n].ids) {
      assert TurnOk(s.tools, s.open, s.turns[n].ids);
    }
  }

  lemma {:induction false} CompleteKeeps(s: State, e: Event)
    requires e.ToolCompleted? && Consistent(s) && Counted(s) && Fresh(s, e)
    ensures Consistent(Complete(s, e))
  {
    hide OpenOk, TurnsOk, Keyed, IsOpen, Without;
    CompleteKeepsOpen(s, e);
    CompleteKeepsTurns(s, e);
  }

  /** Marking a record's permission fields keeps everything. */
  lemma {:induction false} MarkKeeps(s: State, k: Id, rec: Tool)
    requires Consistent(s) && k in s.tools.recs
    requires rec.id == k && rec.name == s.tools.recs[k].name && rec.completedAt == s.tools.recs[k].completedAt
    ensures Consistent(s.(tools := s.tools.(recs := s.tools.recs[k := rec])))
  {
    var s' := s.(tools := s.tools.(recs := s.tools.recs[k := rec]));
    forall n | n in s'.open ensures QueueOk(s'.tools, n, s'.open[n]) { assert QueueOk(s.tools, n, s.open[n]); }
    forall n | n in s'.turns ensures TurnOk(s'.tools, s'.open, s'.turns[n].ids) { assert TurnOk(s.tools, s.open, s.turns[n].ids); }
  }

  /** An event that brings no id in use keeps the state consistent. */
  lemma {:induction false} StepKeeps(s: State, e: Event)
    requires Consistent(s) && Counted(s) && Fresh(s, e)
    ensures Consistent(Step(s, e))
  {
    hide Latest, Begin, Complete, IsOpen, Listing, OpenOk, Listed;
    match e {
      case ToolStarted(name, ts) => BeginKeeps(s, name, ts);
      case ToolCompleted(_, _, _, _, _) => CompleteKeeps(s, e);
      case PermissionRequested(name) =>
        var k := Latest(s.tools.order, s.tools.recs, (rec: Tool) => rec.name == name && !rec.requested);
        if k.Some? { MarkKeeps(s, k.value, s.tools.recs[k.value].(requested := true)); }
      case PermissionResolved(name, _, _) =>
        var k := Latest(s.tools.order, s.tools.recs, (rec: Tool) => rec.name == e.name);
        if k.Some? { MarkKeeps(s, k.value, Resolved(s, e).tools.recs[k.value]); }
      case _ =>
        forall n | n in Step(s, e).turns ensures TurnOk(s.tools, s.open, Step(s, e).turns[n].ids) {
          if n in s.turns { assert TurnOk(s.tools, s.open, s.turns[n].ids); }
        }
    }
  }

  /** No event disturbs the numbering of open starts. */
  lemma {:induction false} StepCounted(s: State, e: Event)
    requires Counted(s)
    ensures Counted(Step(s, e))
  {
    hide Latest, Place, KeyOf, Finish, InTurn, Put, NewTool;
    var s' := Step(s, e);
    forall name, k | name in s'.open && k in s'.open[name] ensures k.Pending? && k.n <= s'.synth {
      assert k in Queue(s.open, name) || k == Pending(s.synth + 1);
    }
  }

  /** The table after an overlooked completion: the oldest start's record has taken the place of the
      record of the call that stays open. */
  lemma {:induction false} OverlookedTable(s: State, e: Event)
    requires Consistent(s) && Overlooked(s, e)
    ensures var s', q, key := Complete(s, e), Queue(s.open, e.name), e.id.value;
            && q != [] && key in q[1..] && key != q[0]
            && Keyed(s'.tools) && s'.open == s.open[e.name := q[1..]] && s'.turns == s.turns
            && key in s'.tools.recs && s'.tools.recs[key].name == e.name && s'.tools.recs[key].completedAt.None?
            && (forall k | k in s.tools.recs && k != q[0] && k != key :: k in s'.tools.recs && s'.tools.recs[k] == s.tools.recs[k])
  {
    hide TurnsOk, Keyed, Without, IsOpen;
    var q := Queue(s.open, e.name);
    assert QueueOk(s.tools, e.name, q);
    assert q == [q[0]] + q[1..];
    PopKeyed(s.tools, q[0]);
    PutKeyed(Pop(s.tools, q[0]), e.id.value, s.tools.recs[q[0]].(id := e.id.value));
    Rekeyed(Place(s, e.name, e.id), e.id.value, Finish(Place(s, e.name, e.id).recs[e.id.value], s, e));
  }

  lemma Rekeyed(t: Table, k: Id, rec: Tool)
    requires Keyed(t) && k in t.recs && rec.id == k
    ensures Keyed(t.(recs := t.recs[k := rec]))
  {
  }

  /** An overlooked completion leaves no trace that the invariant could see. */
  lemma {:induction false} OverlookedKeeps(s: State, e: Event)
    requires Consistent(s) && Overlooked(s, e)
    ensures Consistent(Complete(s, e))
  {
    hide Complete, Keyed, IsOpen, Dequeue, InTurn;
    OverlookedTable(s, e);
    var s', q, key := Complete(s, e), Queue(s.open, e.name), e.id.value;
    assert QueueOk(s.tools, e.name, q);
    assert q == [q[0]] + q[1..];
    forall n | n in s'.open ensures QueueOk(s'.tools, n, s'.open[n]) { OverlookedQueue(s, s', q, key, e.name, n); }
    forall n | n in s'.turns ensures TurnOk(s'.tools, s'.open, s'.turns[n].ids) {
      OverlookedTurn(s, s', q, key, e.name, s.turns[n].ids);
    }
  }

  lemma OverlookedQueue(s: State, s': State, q: seq<Id>, key: Id, name: string, n: string)
    requires OpenOk(s.tools, s.open) && q == Queue(s.open, name) && q != [] && key in q[1..] && key != q[0]
    requires s'.open == s.open[name := q[1..]] && n in s'.open
    requires key in s'.tools.recs && s'.tools.recs[key].name == name && s'.tools.recs[key].completedAt.None?
    requires forall k | k in s.tools.recs && k != q[0] && k != key :: k in s'.tools.recs && s'.tools.recs[k] == s.tools.recs[k]
    ensures QueueOk(s'.tools, n, s'.open[n])
  {
    assert QueueOk(s.tools, name, s.open[name]) && QueueOk(s.tools, n, s.open[n]);
    assert key in q && q[0] in q;
  }

  lemma OverlookedTurn(s: State, s': State, q: seq<Id>, key: Id, name: string, ids: seq<Id>)
    requires TurnOk(s.tools, s.open, ids) && q == Queue(s.open, name) && q != [] && key in q[1..]
    requires s'.open == s.open[name := q[1..]] && key in s'.tools.recs
    requires forall k | k in s.tools.recs && k != q[0] && k != key :: k in s'.tools.recs
    ensures TurnOk(s'.tools, s'.open, ids)
  {
    assert name in s.open && q[0] in s.open[name];
    assert forall k | k in q[1..] :: k in q;
    forall i | 0 <= i < |ids| ensures !IsOpen(s'.open, ids[i]) { NarrowerOpen(s.open, name, q, ids[i]); }
  }

  lemma NarrowerOpen(open: map<string, seq<Id>>, name: string, q: seq<Id>, k: Id)
    requires name in open && open[name] == q && q != [] && !IsOpen(open, k)
    ensures !IsOpen(open[name := q[1..]], k)
  {
    assert forall x | x in q[1..] :: x in q;
  }

  /** A completion that brings an id in use, and is not overlooked, breaks consistency: a record that is
      completed or has another tool's name stays queued, or a turn lists a call that is open. */
  lemma {:induction false} StaleIdBreaks(s: State, e: Event)
    requires Consistent(s) && e.ToolCompleted? && !Fresh(s, e) && !Overlooked(s, e)
    ensures !Consistent(Step(s, e))
  {
    hide Latest, Without, Consistent, KeyOf, Place;
    var open, s', key := Dequeue(s, e.name).open, Complete(s, e), e.id.value;
    var n :| n in open && key in open[n];
    var i :| 0 <= i < |open[n]| && open[n][i] == key;
    GivenIdFinished(s, e);
    assert s'.open == open;
    if e.ts.Some? || n != e.name {
      assert !QueueOk(s'.tools, n, s'.open[n]);
      UnqueuedIsInconsistent(s', n);
    } else {
      assert key in s'.turns[s.current.value].ids;
      ListedOpenIsInconsistent(s', s.current.value, key, n);
    }
  }

  /** A start that is given an id a turn lists already puts a listed call in a queue. */
  lemma {:induction false} ListedStartBreaks(s: State, name: string, ts: Time)
    requires Listed(s, Pending(s.synth + 1))
    ensures !Consistent(Begin(s, name, ts))
  {
    var k, s' := Pending(s.synth + 1), Begin(s, name, ts);
    var n :| n in s.turns && k in s.turns[n].ids;
    assert k in s'.open[name];
    ListedOpenIsInconsistent(s', n, k, name);
  }

  lemma ListedOpenIsInconsistent(s: State, turn: int, k: Id, name: string)
    requires turn in s.turns && k in s.turns[turn].ids && name in s.open && k in s.open[name]
    ensures !Consistent(s)
  {
    var i :| 0 <= i < |s.turns[turn].ids| && s.turns[turn].ids[i] == k;
    assert IsOpen(s.open, k);
    assert !TurnOk(s.tools, s.open, s.turns[turn].ids);
  }

  /** Exactly which events keep a consistent state consistent. */
  lemma {:induction false} StepExactly(s: State, e: Event)
    requires Consistent(s) && Counted(s)
    ensures Consistent(Step(s, e)) <==> Fresh(s, e) || Overlooked(s, e)
  {
    hide Consistent, Counted, Overlooked, Begin, Complete, Listed, IsOpen;
    if Fresh(s, e) {
      StepKeeps(s, e);
    } else if e.ToolStarted? {
      ListedStartBreaks(s, e.name, e.ts);
      assert !Overlooked(s, e) by { NotOverlooked(s, e); }
    } else if Overlooked(s, e) {
      OverlookedKeeps(s, e);
    } else {
      StaleIdBreaks(s, e);
    }
  }

  lemma NotOverlooked(s: State, e: Event)
    requires e.ToolStarted?
    ensures !Overlooked(s, e)
  {
  }

  /** Every id the log brings is outside the synthetic forms. */
  predicate IdsExternal(events: seq<Event>) {
    forall i | 0 <= i < |events| && events[i].ToolCompleted? && events[i].id.Some? :: events[i].id.value.External?
  }

  lemma GivenIdFinished(s: State, e: Event)
    requires e.ToolCompleted? && e.id.Some?
    ensures var s', key := Complete(s, e), e.id.value;
            && key in s'.tools.recs && s'.tools.recs[key].completedAt == e.ts && s'.tools.recs[key].name == e.name
            && (InTurn(s) ==> s.current.value in s'.turns && key in s'.turns[s.current.value].ids)
  {
  }

  lemma UnqueuedIsInconsistent(s: State, n: string)
    requires n in s.open && !QueueOk(s.tools, n, s.open[n])
    ensures !Consistent(s)
  {
  }

  /** Synthetic ids in the table have been handed out by the counter. */
  ghost predicate HandedOut(s: State) { forall k | k in s.tools.recs :: k.External? || k.n <= s.synth }

  predicate BringsExternal(e: Event) { e.ToolCompleted? && e.id.Some? ==> e.id.value.External? }

  lemma {:induction false} ExternalIsFresh(s: State, e: Event)
    requires Consistent(s) && HandedOut(s) && BringsExternal(e)
    ensures Fresh(s, e)
  {
    match e {
      case ToolStarted(_, _) =>
        forall n | n in s.turns ensures Pending(s.synth + 1) !in s.turns[n].ids { assert TurnOk(s.tools, s.open, s.turns[n].ids); }
      case ToolCompleted(name, id, _, _, _) =>
        DequeueOpen(s, name);
        assert forall n | n in s.open :: QueueOk(s.tools, n, s.open[n]);
      case _ =>
    }
  }

  lemma {:induction false} ExternalHandsOut(s: State, e: Event)
    requires HandedOut(s) && BringsExternal(e)
    ensures HandedOut(Step(s, e))
  {
    hide Latest, Without, Finish, InTurn, NewTool;
  }

  ghost predicate AllFresh(events: seq<Event>) { forall i | 0 <= i < |events| :: Fresh(Run(events[..i]), events[i]) }

  ghost predicate AllHarmless(events: seq<Event>) {
    forall i | 0 <= i < |events| :: Fresh(Run(events[..i]), events[i]) || Overlooked(Run(events[..i]), events[i])
  }

  ghost predicate ConsistentThroughout(events: seq<Event>) {
    forall n | 0 <= n <= |events| :: Consistent(Run(events[..n]))
  }

  lemma RunNext(events: seq<Event>, n: nat)
    requires n < |events|
    ensures Run(events[..n + 1]) == Step(Run(events[..n]), events[n])
  {
    TakeOneMore(events, n);
  }

  lemma StartConsistent()
    ensures Consistent(Run([])) && Counted(Run([])) && HandedOut(Run([]))
  {
  }

  lemma {:induction false} RunCounted(events: seq<Event>)
    ensures Counted(Run(events))
  {
    hide Counted, Step;
    if events == [] {
      StartConsistent();
    } else {
      RunCounted(events[..|events| - 1]);
      StepCounted(Run(events[..|events| - 1]), events[|events| - 1]);
    }
  }

  lemma {:induction false} HarmlessPrefix(events: seq<Event>, n: nat)
    requires n <= |events| && AllHarmless(events)
    ensures Consistent(Run(events[..n]))
  {
    hide Consistent, Counted, Fresh, Overlooked, Step, Run;
    if n == 0 {
      StartConsistent();
      assert events[..0] == [];
    } else {
      HarmlessPrefix(events, n - 1);
      RunNext(events, n - 1);
      RunCounted(events[..n - 1]);
      StepExactly(Run(events[..n - 1]), events[n - 1]);
    }
  }

  /** For every log: the state is consistent after every event exactly when each event brings no id in
      use, or is a completion without a timestamp and outside a turn that is overlooked. */
  lemma {:induction false} ConsistentExactly(events: seq<Event>)
    ensures ConsistentThroughout(events) <==> AllHarmless(events)
  {
    hide Consistent, Counted, Fresh, Overlooked, Step, Run;
    if AllHarmless(events) {
      forall n: nat | n <= |events| ensures Consistent(Run(events[..n])) { HarmlessPrefix(events, n); }
    }
    if ConsistentThroughout(events) {
      forall i: nat | i < |events| ensures Fresh(Run(events[..i]), events[i]) || Overlooked(Run(events[..i]), events[i]) {
        RunNext(events, i);
        RunCounted(events[..i]);
        StepExactly(Run(events[..i]), events[i]);
      }
    }
  }

  /** A log in which no event brings an id in use keeps the state consistent. */
  lemma {:induction false} FreshConsistent(events: seq<Event>)
    requires AllFresh(events)
    ensures Consistent(Run(events)) && Counted(Run(events))
  {
    hide Consistent, Counted, Fresh, Overlooked, Step, Run;
    RunCounted(events);
    HarmlessPrefix(events, |events|);
    TakeAll(events);
  }

  /** After every prefix of a log whose ids are external the state is consistent. */
  lemma {:induction false} RunConsistent(events: seq<Event>)
    requires IdsExternal(events)
    ensures Consistent(Run(events)) && HandedOut(Run(events))
  {
    hide Consistent, Counted, HandedOut, Fresh, Step;
    if events == [] {
      StartConsistent();
    } else {
      var n := |events| - 1;
      RunConsistent(events[..n]);
      RunCounted(events[..n]);
      ExternalIsFresh(Run(events[..n]), events[n]);
      StepKeeps(Run(events[..n]), events[n]);
      ExternalHandsOut(Run(events[..n]), events[n]);
    }
  }

  /** External ids are never in use. */
  lemma {:induction false} ExternalFresh(events: seq<Event>)
    requires IdsExternal(events)
    ensures AllFresh(events)
  {
    hide Consistent, HandedOut, Fresh, Run;
    forall i: nat | i < |events| ensures Fresh(Run(events[..i]), events[i]) {
      RunConsistent(events[..i]);
      ExternalIsFresh(Run(events[..i]), events[i]);
    }
  }

  lemma {:induction false} TwoStarts(a: string, b: string)
    requires a != b
    ensures var s := Run([ToolStarted(a, None), ToolStarted(b, None)]);
            && s.tools.order == [Pending(1), Pending(2)] && s.tools.recs.Keys == {Pending(1), Pending(2)}
            && a in s.open && s.open[a] == [Pending(1)] && b in s.open && s.open[b] == [Pending(2)]
  {
    var e1, e2 := ToolStarted(a, None), ToolStarted(b, None);
    assert [e1, e2][..1] == [e1] && [e1][..0] == [];
    assert Run([]) == Start;
    assert Run([e1]) == Begin(Start, a, None);
    assert Run([e1, e2]) == Begin(Run([e1]), b, None);
  }

  /** A log whose id has a synthetic form overwrites a call that is still open. */
  lemma {:induction false} SyntheticIdBreaks(a: string, b: string, ts: Stamp)
    requires a != b
    ensures var log := [ToolStarted(a, None), ToolStarted(b, None), ToolCompleted(b, Some(Pending(1)), Some(ts), Absent, "ok")];
            !Consistent(Run(log)) && Pending(2) !in Run(log).tools.recs
  {
    hide Without, Begin, Consistent, Finish, InTurn, NewTool, Requested, Resolved, WithTurn;
    var e1, e2, e3 := ToolStarted(a, None), ToolStarted(b, None), ToolCompleted(b, Some(Pending(1)), Some(ts), Absent, "ok");
    var log := [e1, e2, e3];
    assert log[..2] == [e1, e2];
    TwoStarts(a, b);
    RunConsistent([e1, e2]);
    var s := Run([e1, e2]);
    assert Dequeue(s, b).open[a] == [Pending(1)];
    assert IsOpen(Dequeue(s, b).open, Pending(1));
    StaleIdBreaks(s, e3);
    assert Run(log) == Complete(s, e3);
  }

  // --- first in, first out ---------------------------------------------------------------------------

  /** When each start of a name happened, in order. */
  function StartTimes(events: seq<Event>, name: string): seq<Time> {
    if events == [] then [] else
      var e, before := events[|events| - 1], StartTimes(events[..|events| - 1], name);
      if e.ToolStarted? && e.name == name then before + [e.ts] else before
  }

  /** How many starts of a name have been taken: each completion takes one while any is left. */
  function Taken(events: seq<Event>, name: string): (n: nat)
    ensures n <= |StartTimes(events, name)|
  {
    if events == [] then 0 else
      var e, before := events[|events| - 1], Taken(events[..|events| - 1], name);
      if e.ToolCompleted? && e.name == name && before < |StartTimes(events[..|events| - 1], name)| then before + 1 else before
  }

  /** What an event does to the queue of one name, and that calls left open keep their start. */
  lemma {:induction false} StepQueues(s: State, e: Event, name: string)
    requires Consistent(s) && Counted(s) && Fresh(s, e)
    ensures var q, q' := Queue(s.open, name), Queue(Step(s, e).open, name);
            if e.ToolStarted? && e.name == name then q' == q + [Pending(s.synth + 1)]
            else if e.ToolCompleted? && e.name == name && q != [] then q' == q[1..]
            else q' == q
    ensures forall k | k in s.tools.recs && IsOpen(s.open, k) && IsOpen(Step(s, e).open, k) ::
              k in Step(s, e).tools.recs && Step(s, e).tools.recs[k].startedAt == s.tools.recs[k].startedAt
    ensures e.ToolStarted? ==> var k := Pending(s.synth + 1);
              k in Step(s, e).tools.recs && Step(s, e).tools.recs[k].startedAt == e.ts
  {
    hide Latest, Consistent, Finish, InTurn, IsOpen, KeyOf, Oldest, Place;
    if e.ToolCompleted? { PlaceKeeps(s, e); }
    OpenNumbered(s);
  }

  lemma OpenNumbered(s: State)
    requires Counted(s)
    ensures forall k | IsOpen(s.open, k) :: k != Pending(s.synth + 1)
  {
  }

  /** The queue of a name holds calls started at the times from `taken` on. */
  ghost predicate QueuedFrom(s: State, name: string, times: seq<Time>, taken: nat) {
    var q := Queue(s.open, name);
    && |q| == |times| - taken
    && forall i | 0 <= i < |q| :: q[i] in s.tools.recs && s.tools.recs[q[i]].startedAt == times[taken + i]
  }

  lemma {:induction false} StepQueuedFrom(s: State, e: Event, name: string, times: seq<Time>, taken: nat)
    requires Consistent(s) && Counted(s) && Fresh(s, e) && QueuedFrom(s, name, times, taken)
    ensures if e.ToolStarted? && e.name == name then QueuedFrom(Step(s, e), name, times + [e.ts], taken)
            else if e.ToolCompleted? && e.name == name && taken < |times| then QueuedFrom(Step(s, e), name, times, taken + 1)
            else QueuedFrom(Step(s, e), name, times, taken)
  {
    StepQueues(s, e, name);
    var q, q' := Queue(s.open, name), Queue(Step(s, e).open, name);
    QueuedIsOpen(s, name);
    QueuedIsOpen(Step(s, e), name);
    forall i | 0 <= i < |q'| && q'[i] in q
      ensures q'[i] in Step(s, e).tools.recs && Step(s, e).tools.recs[q'[i]].startedAt == s.tools.recs[q'[i]].startedAt
    {
      assert IsOpen(s.open, q'[i]) && IsOpen(Step(s, e).open, q'[i]);
    }
  }

  /** The starts still queued under a name are exactly the last ones, in the order they happened. */
  lemma {:induction false} FirstInFirstOut(events: seq<Event>, name: string)
    requires AllFresh(events)
    ensures QueuedFrom(Run(events), name, StartTimes(events, name), Taken(events, name))
  {
    hide Step, Consistent, Counted, Fresh;
    if events != [] {
      var k := |events| - 1;
      var before, e := events[..k], events[k];
      FreshInit(events);
      FirstInFirstOut(before, name);
      FreshConsistent(before);
      StepQueuedFrom(Run(before), e, name, StartTimes(before, name), Taken(before, name));
    }
  }

  lemma FreshInit(events: seq<Event>)
    requires events != [] && AllFresh(events)
    ensures AllFresh(events[..|events| - 1])
  {
    hide Fresh, Run;
    var before := events[..|events| - 1];
    forall i | 0 <= i < |before| ensures Fresh(Run(before[..i]), before[i]) { assert before[..i] == events[..i]; }
  }

  lemma QueuedIsOpen(s: State, name: string)
    ensures forall k | k in Queue(s.open, name) :: IsOpen(s.open, k)
  {}

  /** A completion is recorded under its own id, or that of the call it closes, with the time of the
      oldest start of its name that no completion has taken; with none left, without a start. */
  lemma {:induction false} CompletionTakesOldest(events: seq<Event>, e: Event)
    requires AllFresh(events) && e.ToolCompleted?
    ensures var s, key, taken := Run(events), KeyOf(Run(events), e.name, e.id), Taken(events, e.name);
            var rec := Complete(s, e).tools.recs[key];
            && rec.name == e.name && rec.completedAt == e.ts
            && (taken < |StartTimes(events, e.name)| ==> rec.startedAt == StartTimes(events, e.name)[taken])
            && (taken == |StartTimes(events, e.name)| && key !in s.tools.recs ==> rec.startedAt.None?)
  {
    hide Run, Fresh, Counted;
    FirstInFirstOut(events, e.name);
    FreshConsistent(events);
    DequeueOpen(Run(events), e.name);
  }

  // --- nothing is lost -------------------------------------------------------------------------------

  function Started(events: seq<Event>): nat {
    if events == [] then 0 else Started(events[..|events| - 1]) + if events[|events| - 1].ToolStarted? then 1 else 0
  }

  /** Completions that found no start of their name left. */
  function Unannounced(events: seq<Event>): nat {
    if events == [] then 0 else
      var before, e := events[..|events| - 1], events[|events| - 1];
      Unannounced(before)
      + if e.ToolCompleted? && Taken(before, e.name) == |StartTimes(before, e.name)| then 1 else 0
  }

  /** The ids completions have brought. */
  function Named(events: seq<Event>): set<Id> {
    if events == [] then {} else
      var before, e := events[..|events| - 1], events[|events| - 1];
      Named(before) + if e.ToolCompleted? && e.id.Some? then {e.id.value} else {}
  }

  /** Completions that brought an id an earlier one had brought already. */
  function Repeated(events: seq<Event>): nat {
    if events == [] then 0 else
      var before, e := events[..|events| - 1], events[|events| - 1];
      Repeated(before) + if e.ToolCompleted? && e.id.Some? && e.id.value in Named(before) then 1 else 0
  }

  lemma {:induction false} StepSize(s: State, e: Event)
    requires Consistent(s) && HandedOut(s) && BringsExternal(e)
    ensures |Step(s, e).tools.order| == |s.tools.order|
            + (if e.ToolStarted? || (e.ToolCompleted? && Queue(s.open, e.name) == []) then 1 else 0)
            - (if e.ToolCompleted? && e.id.Some? && e.id.value in s.tools.recs then 1 else 0)
    ensures forall k: Id | k.External? ::
              k in Step(s, e).tools.recs <==> k in s.tools.recs || (e.ToolCompleted? && e.id == Some(k))
  {
    hide Latest, Without, Dequeue, Distinct, Finish, InTurn, NewTool, TurnsOk;
    if e.ToolCompleted? {
      DequeueOpen(s, e.name);
      if Oldest(s, e.name).Some? {
        var q := Queue(s.open, e.name);
        assert QueueOk(s.tools, e.name, q);
        WithoutOne(s.tools.order, q[0]);
      }
    }
  }

  /** The table holds one record per start and per unannounced completion, less one for each
      completion that repeats an id. */
  lemma {:induction false} RecordsConserved(events: seq<Event>)
    requires IdsExternal(events)
    ensures |Run(events).tools.order| + Repeated(events) == Started(events) + Unannounced(events)
    ensures forall k: Id | k.External? :: k in Run(events).tools.recs <==> k in Named(events)
  {
    if events != [] {
      var before, e := events[..|events| - 1], events[|events| - 1];
      RecordsConserved(before);
      RunConsistent(before);
      StepSize(Run(before), e);
      ExternalFresh(before);
      if e.ToolCompleted? { FirstInFirstOut(before, e.name); }
    }
  }
}
