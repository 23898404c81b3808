/** The PTY session protocol of `crates/codegen/ptyctl/src/session.rs` as a state machine: a feeder
    task, any number of concurrent `resize` calls and any number of readers share one terminal lock
    and a generation counter. Each step is one action between two await or release points. */
module PtySession {
  import opened Common

  type Chunk = seq<nat>

  datatype Size = Size(cols: nat, rows: nat)

  /** The grid is what its changes, in order, have made of it. */
  datatype Change = Fed(chunk: Chunk) | Resized(size: Size)

  datatype Holder = Free | ByFeeder | ByResizer(id: nat) | ByReader(id: nat)

  datatype FeederPc =
    | Waiting                    // in recv().await
    | Received(chunk: Chunk)     // broadcast and raw tail done, waiting for the lock
    | Feeding(chunk: Chunk)      // holds the lock
    | FedLocked                  // grid changed, lock still held
    | Unannounced                // lock released, generation not bumped yet
    | Exited                     // task ended, its strong sender is dropped

  datatype ResizerPc =
    | Called(size: Size)         // waiting for the lock
    | Locked(size: Size)
    | PtyDone(size: Size)        // the PTY has the new size, the grid not yet
    | GridDone                   // grid changed, sender not upgraded yet
    | Upgraded                   // holds a strong sender, about to bump
    | Leaving                    // about to release the lock
    | Returned

  /** A reader notes a generation and later looks at the grid; `log` is what had happened when it
      noted the generation. */
  datatype ReaderPc = Idle | Noted(generation: nat, log: seq<Change>) | Looking(generation: nat, log: seq<Change>)

  datatype State = State(
    sent: seq<Chunk>, queue: seq<Chunk>, closed: bool,
    log: seq<Change>, generation: nat,
    holder: Holder, pty: Size, grid: Size,
    feeder: FeederPc, resizers: map<nat, ResizerPc>, readers: map<nat, ReaderPc>)

  function Start(size: Size): State {
    State([], [], false, [], 0, Free, size, size, Waiting, map[], map[])
  }

  // --- steps ----------------------------------------------------------------------------------

  datatype Step =
    | Send(chunk: Chunk) | Close
    | Receive | Exit | FeederLock | Feed | FeederUnlock | FeederBump
    | Call(id: nat, size: Size) | ResizerLock(id: nat) | ResizePty(id: nat, ok: bool) | ResizeGrid(id: nat)
    | Upgrade(id: nat) | ResizerBump(id: nat) | Return(id: nat)
    | Note(id: nat) | ReaderLock(id: nat) | ReaderUnlock(id: nat)

  predicate Enabled(s: State, step: Step) {
    match step
    case Send(_) => !s.closed
    case Close => true
    case Receive => s.feeder.Waiting? && s.queue != []
    case Exit => s.feeder.Waiting? && s.queue == [] && s.closed
    case FeederLock => s.feeder.Received? && s.holder.Free?
    case Feed => s.feeder.Feeding?
    case FeederUnlock => s.feeder.FedLocked?
    case FeederBump => s.feeder.Unannounced?
    case Call(id, _) => id !in s.resizers
    case ResizerLock(id) => id in s.resizers && s.resizers[id].Called? && s.holder.Free?
    case ResizePty(id, _) => id in s.resizers && s.resizers[id].Locked?
    case ResizeGrid(id) => id in s.resizers && s.resizers[id].PtyDone?
    case Upgrade(id) => id in s.resizers && s.resizers[id].GridDone?
    case ResizerBump(id) => id in s.resizers && s.resizers[id].Upgraded?
    case Return(id) => id in s.resizers && s.resizers[id].Leaving?
    case Note(id) => id in s.readers ==> !s.readers[id].Looking?
    case ReaderLock(id) => id in s.readers && s.readers[id].Noted? && s.holder.Free?
    case ReaderUnlock(id) => id in s.readers && s.readers[id].Looking?
  }

  /** The generation sender exists while the feeder or an upgraded resizer holds it. */
  predicate SenderLive(s: State) { !s.feeder.Exited? || exists id | id in s.resizers :: s.resizers[id].Upgraded? }

  function Do(s: State, step: Step): State
    requires Enabled(s, step)
  {
    match step
    case Send(chunk) => s.(sent := s.sent + [chunk], queue := s.queue + [chunk])
    case Close => s.(closed := true)
    case Receive => s.(feeder := Received(s.queue[0]), queue := s.queue[1..])
    case Exit => s.(feeder := Exited)
    case FeederLock => s.(feeder := Feeding(s.feeder.chunk), holder := ByFeeder)
    case Feed => s.(feeder := FedLocked, log := s.log + [Fed(s.feeder.chunk)])
    case FeederUnlock => s.(feeder := Unannounced, holder := Free)
    case FeederBump => s.(feeder := Waiting, generation := s.generation + 1)
    case Call(id, size) => s.(resizers := s.resizers[id := Called(size)])
    case ResizerLock(id) => s.(resizers := s.resizers[id := Locked(s.resizers[id].size)], holder := ByResizer(id))
    case ResizePty(id, ok) =>
      if ok then s.(resizers := s.resizers[id := PtyDone(s.resizers[id].size)], pty := s.resizers[id].size)
      else s.(resizers := s.resizers[id := Returned], holder := Free)
    case ResizeGrid(id) =>
      var size := s.resizers[id].size;
      s.(resizers := s.resizers[id := GridDone], grid := size, log := s.log + [Resized(size)])
    case Upgrade(id) =>
      if SenderLive(s) then s.(resizers := s.resizers[id := Upgraded])
      else s.(resizers := s.resizers[id := Leaving])
    case ResizerBump(id) => s.(resizers := s.resizers[id := Leaving], generation := s.generation + 1)
    case Return(id) => s.(resizers := s.resizers[id := Returned], holder := Free)
    case Note(id) => s.(readers := s.readers[id := Noted(s.generation, s.log)])
    case ReaderLock(id) =>
      s.(readers := s.readers[id := Looking(s.readers[id].generation, s.readers[id].log)], holder := ByReader(id))
    case ReaderUnlock(id) => s.(readers := s.readers[id := Idle], holder := Free)
  }

  /** The state after a run, or `None` when some step was not possible. */
  function Run(s: State, steps: seq<Step>): Option<State> {
    if steps == [] then Some(s)
    else
      var r := Run(s, steps[..|steps| - 1]);
      if r.Some? && Enabled(r.value, steps[|steps| - 1]) then Some(Do(r.value, steps[|steps| - 1])) else None
  }

  // --- the invariant ------------------------------------------------------------------------------

  predicate InSection(pc: ResizerPc) { !pc.Called? && !pc.Returned? }

  predicate FeederInSection(pc: FeederPc) { pc.Feeding? || pc.FedLocked? }

  /** Whoever is inside a locked section holds the lock, and conversely. */
  ghost predicate Exclusive(s: State) {
    && (FeederInSection(s.feeder) <==> s.holder == ByFeeder)
    && (forall id | id in s.resizers :: InSection(s.resizers[id]) <==> s.holder == ByResizer(id))
    && (forall id | id in s.readers :: s.readers[id].Looking? <==> s.holder == ByReader(id))
    && (s.holder.ByResizer? ==> s.holder.id in s.resizers)
    && (s.holder.ByReader? ==> s.holder.id in s.readers)
  }

  predicate FeederPending(s: State) { s.feeder.FedLocked? || s.feeder.Unannounced? }

  predicate ResizerPending(s: State) {
    s.holder.ByResizer? && s.holder.id in s.resizers && (s.resizers[s.holder.id].GridDone? || s.resizers[s.holder.id].Upgraded?)
  }

  /** Changes made but not announced yet. */
  function Pending(s: State): nat { (if FeederPending(s) then 1 else 0) + if ResizerPending(s) then 1 else 0 }

  predicate MidResize(s: State) {
    s.holder.ByResizer? && s.holder.id in s.resizers && s.resizers[s.holder.id].PtyDone?
  }

  ghost predicate ReadersBehind(s: State) {
    forall id | id in s.readers && !s.readers[id].Idle? ::
      s.readers[id].generation <= |s.readers[id].log| && s.readers[id].log <= s.log
  }

  function Chunks(log: seq<Change>): seq<Chunk> {
    if log == [] then []
    else Chunks(log[..|log| - 1]) + if log[|log| - 1].Fed? then [log[|log| - 1].chunk] else []
  }

  /** The chunk the feeder has taken from the queue but not fed yet. */
  function InHand(pc: FeederPc): seq<Chunk> { if pc.Received? || pc.Feeding? then [pc.chunk] else [] }

  /** What holds in a state reached with `late` changes that found no sender to announce them. */
  ghost predicate Inv(s: State, late: nat) {
    && Exclusive(s)
    && s.generation + Pending(s) + late == |s.log|
    && (late > 0 ==> s.feeder.Exited?)
    && (if MidResize(s) then s.pty == s.resizers[s.holder.id].size else s.pty == s.grid)
    && ReadersBehind(s)
    && Chunks(s.log) + InHand(s.feeder) + s.queue == s.sent
    && (s.feeder.Exited? ==> s.queue == [] && s.closed)
  }

  lemma StartInv(size: Size)
    ensures Inv(Start(size), 0)
  {
  }

  lemma QueueSteps(s: State, late: nat, step: Step)
    requires Inv(s, late) && Enabled(s, step) && (step.Send? || step.Close? || step.Receive? || step.Exit?)
    ensures Inv(Do(s, step), late)
  {
    hide InSection, SenderLive, Chunks;
    if step.Send? {
      Assoc(Chunks(s.log) + InHand(s.feeder), s.queue, [step.chunk]);
    } else if step.Receive? {
      assert s.queue == [s.queue[0]] + s.queue[1..];
      Assoc(Chunks(s.log), [s.queue[0]], s.queue[1..]);
      assert Chunks(s.log) + [] == Chunks(s.log);
    }
  }

  lemma FeedKeepsInv(s: State, late: nat)
    requires Inv(s, late) && Enabled(s, Feed)
    ensures Inv(Do(s, Feed), late)
  {
    hide InSection, SenderLive, Chunks, ReadersBehind;
    ReadersStayBehind(s, Do(s, Feed));
    ChunkFed(s.log, s.feeder.chunk, s.queue);
  }

  /** A chunk moves from the feeder's hand to the grid. */
  lemma ChunkFed(log: seq<Change>, chunk: Chunk, queue: seq<Chunk>)
    ensures Chunks(log + [Fed(chunk)]) + [] + queue == Chunks(log) + [chunk] + queue
  {
    AppendInit(log, [Fed(chunk)]);
    var fed := Chunks(log + [Fed(chunk)]);
    assert log + [] == log;
    assert fed == Chunks(log) + [chunk];
    assert fed + [] == fed;
  }

  lemma ChunksResized(log: seq<Change>, size: Size)
    ensures Chunks(log + [Resized(size)]) == Chunks(log)
  {
    AppendInit(log, [Resized(size)]);
    assert log + [] == log;
    assert Chunks(log) + [] == Chunks(log);
  }

  lemma ReadersStayBehind(s: State, t: State)
    requires ReadersBehind(s) && t.readers == s.readers && s.log <= t.log
    ensures ReadersBehind(t)
  {
  }

  lemma FeederSteps(s: State, late: nat, step: Step)
    requires Inv(s, late) && Enabled(s, step) && (step.FeederLock? || step.FeederUnlock? || step.FeederBump?)
    ensures Inv(Do(s, step), late)
  {
    hide InSection, SenderLive, Chunks;
  }

  lemma CallKeepsInv(s: State, late: nat, id: nat, size: Size)
    requires Inv(s, late) && Enabled(s, Call(id, size))
    ensures Inv(Do(s, Call(id, size)), late)
  {
  }

  lemma ResizerLockKeepsInv(s: State, late: nat, id: nat)
    requires Inv(s, late) && Enabled(s, ResizerLock(id))
    ensures Inv(Do(s, ResizerLock(id)), late)
  {
  }

  lemma ResizePtyKeepsInv(s: State, late: nat, id: nat, ok: bool)
    requires Inv(s, late) && Enabled(s, ResizePty(id, ok))
    ensures Inv(Do(s, ResizePty(id, ok)), late)
  {
    assert s.holder == ByResizer(id);
  }

  lemma ResizeGridKeepsInv(s: State, late: nat, id: nat)
    requires Inv(s, late) && Enabled(s, ResizeGrid(id))
    ensures Inv(Do(s, ResizeGrid(id)), late)
  {
    hide FeederInSection, SenderLive, Chunks, ReadersBehind;
    assert s.holder == ByResizer(id);
    ReadersStayBehind(s, Do(s, ResizeGrid(id)));
    ChunksResized(s.log, s.resizers[id].size);
  }

  lemma UpgradeKeepsInv(s: State, late: nat, id: nat)
    requires Inv(s, late) && Enabled(s, Upgrade(id))
    ensures Inv(Do(s, Upgrade(id)), if s.feeder.Exited? then late + 1 else late)
  {
    hide Chunks, ReadersBehind, SenderLive, FeederInSection;
    assert s.holder == ByResizer(id);
    SenderAtUpgrade(s, id);
    ReadersStayBehind(s, Do(s, Upgrade(id)));
  }

  /** A resizer about to ask for the sender finds it exactly while the feeder lives. */
  lemma SenderAtUpgrade(s: State, id: nat)
    requires Exclusive(s) && Enabled(s, Upgrade(id))
    ensures SenderLive(s) <==> !s.feeder.Exited?
  {
    assert InSection(s.resizers[id]);
    assert forall k | k in s.resizers :: InSection(s.resizers[k]) ==> k == id;
  }

  lemma LeaveKeepsInv(s: State, late: nat, id: nat)
    requires Inv(s, late)
    ensures Enabled(s, ResizerBump(id)) ==> Inv(Do(s, ResizerBump(id)), late)
    ensures Enabled(s, Return(id)) ==> Inv(Do(s, Return(id)), late)
  {
    if Enabled(s, ResizerBump(id)) || Enabled(s, Return(id)) { assert s.holder == ByResizer(id); }
  }

  lemma ReaderSteps(s: State, late: nat, step: Step)
    requires Inv(s, late) && Enabled(s, step)
    requires step.Note? || step.ReaderLock? || step.ReaderUnlock?
    ensures Inv(Do(s, step), late)
  {
    hide Chunks, FeederInSection, InHand, InSection, SenderLive;
  }

  lemma {:induction false} StepKeepsInv(s: State, late: nat, step: Step)
    requires Inv(s, late) && Enabled(s, step)
    ensures Inv(Do(s, step), if step.Upgrade? && s.feeder.Exited? then late + 1 else late)
    ensures s.log <= Do(s, step).log && s.generation <= Do(s, step).generation
  {
    hide Enabled, Inv, SenderLive;
    match step
    case Send(_) => QueueSteps(s, late, step);
    case Close => QueueSteps(s, late, step);
    case Receive => QueueSteps(s, late, step);
    case Exit => QueueSteps(s, late, step);
    case FeederLock => FeederSteps(s, late, step);
    case Feed => FeedKeepsInv(s, late);
    case FeederUnlock => FeederSteps(s, late, step);
    case FeederBump => FeederSteps(s, late, step);
    case Note(_) => ReaderSteps(s, late, step);
    case ReaderLock(_) => ReaderSteps(s, late, step);
    case ReaderUnlock(_) => ReaderSteps(s, late, step);
    case Call(id, size) => CallKeepsInv(s, late, id, size);
    case ResizerLock(id) => ResizerLockKeepsInv(s, late, id);
    case ResizePty(id, ok) => ResizePtyKeepsInv(s, late, id, ok);
    case ResizeGrid(id) => ResizeGridKeepsInv(s, late, id);
    case Upgrade(id) => UpgradeKeepsInv(s, late, id);
    case ResizerBump(id) => LeaveKeepsInv(s, late, id);
    case Return(id) => LeaveKeepsInv(s, late, id);
  }

  // --- what holds in every interleaving ------------------------------------------------------------

  /** How often a resizer asked for the sender after the feeder had exited. */
  function LateUpgrades(steps: seq<Step>): nat {
    if steps == [] then 0 else
      var before, step := steps[..|steps| - 1], steps[|steps| - 1];
      LateUpgrades(before) + if step.Upgrade? && Exit in before then 1 else 0
  }

  /** Some resizer asks for the sender after the feeder's exit. */
  predicate ResizedLate(steps: seq<Step>) { exists i, j | 0 <= i < j < |steps| :: steps[i].Exit? && steps[j].Upgrade? }

  lemma {:induction false} LateCounted(steps: seq<Step>)
    ensures LateUpgrades(steps) > 0 <==> ResizedLate(steps)
  {
    if steps != [] {
      var k := |steps| - 1;
      LateCounted(steps[..k]);
      assert steps == steps[..k] + [steps[k]];
      if ResizedLate(steps[..k]) {
        var i, j :| 0 <= i < j < k && steps[..k][i].Exit? && steps[..k][j].Upgrade?;
        assert steps[i].Exit? && steps[j].Upgrade?;
      }
      if steps[k].Upgrade? && Exit in steps[..k] {
        var i :| 0 <= i < k && steps[..k][i] == Exit;
        assert steps[i].Exit? && steps[k].Upgrade?;
      }
      if ResizedLate(steps) {
        var i, j :| 0 <= i < j < |steps| && steps[i].Exit? && steps[j].Upgrade?;
        assert steps[..k][i] == Exit;
        if j < k { assert steps[..k][j].Upgrade?; }
      }
    }
  }

  lemma ExitedForGood(s: State, step: Step)
    requires Enabled(s, step)
    ensures Do(s, step).feeder.Exited? <==> s.feeder.Exited? || step.Exit?
  {
  }

  lemma {:induction false} RunInv(size: Size, steps: seq<Step>)
    requires Run(Start(size), steps).Some?
    ensures Inv(Run(Start(size), steps).value, LateUpgrades(steps))
    ensures Run(Start(size), steps).value.feeder.Exited? <==> Exit in steps
  {
    hide Inv, Enabled, Do;
    if steps == [] {
      StartInv(size);
    } else {
      var k := |steps| - 1;
      RunInv(size, steps[..k]);
      InitLast(steps);
      StepKeepsInv(Run(Start(size), steps[..k]).value, LateUpgrades(steps[..k]), steps[k]);
      ExitedForGood(Run(Start(size), steps[..k]).value, steps[k]);
    }
  }

  /** A reader that noted generation `g` and now holds the lock sees the first `g` changes, the same
      ones that had happened when it noted `g`. */
  lemma {:induction false} ReaderSeesItsGeneration(size: Size, steps: seq<Step>, id: nat)
    requires Run(Start(size), steps).Some?
    requires var s := Run(Start(size), steps).value; id in s.readers && s.readers[id].Looking?
    ensures var s := Run(Start(size), steps).value;
            var r := s.readers[id];
            && s.holder == ByReader(id)
            && r.generation <= |r.log| <= |s.log| && s.log[..r.generation] == r.log[..r.generation]
  {
    RunInv(size, steps);
  }

  /** The generation never runs ahead of the grid: it trails it by the changes in flight and by the
      resizes that asked for the sender too late. */
  lemma {:induction false} GenerationTrailsGrid(size: Size, steps: seq<Step>)
    requires Run(Start(size), steps).Some?
    ensures var s := Run(Start(size), steps).value;
            s.generation + Pending(s) + LateUpgrades(steps) == |s.log|
  {
    RunInv(size, steps);
  }

  /** No change in flight: the generation is the number of changes exactly when no resizer asked for
      the sender after the feeder had gone, which is always so while the feeder lives. */
  lemma {:induction false} QuietGeneration(size: Size, steps: seq<Step>)
    requires Run(Start(size), steps).Some?
    ensures var s := Run(Start(size), steps).value;
            && (s.generation == |s.log| <==> Pending(s) == 0 && !ResizedLate(steps))
            && (!s.feeder.Exited? ==> !ResizedLate(steps))
  {
    GenerationTrailsGrid(size, steps);
    RunInv(size, steps);
    LateCounted(steps);
  }

  /** No wakeup is lost: once no change is in flight and no resize came too late, a reader whose grid
      has changed since it noted its generation finds a later one, and a later generation means
      changes beyond those it counted. */
  lemma {:induction false} NoLostWakeup(size: Size, steps: seq<Step>, id: nat)
    requires Run(Start(size), steps).Some?
    requires var s := Run(Start(size), steps).value; id in s.readers && !s.readers[id].Idle?
    ensures var s := Run(Start(size), steps).value;
            var r := s.readers[id];
            && (Pending(s) == 0 && !ResizedLate(steps) && r.log != s.log ==> r.generation < s.generation)
            && (r.generation < s.generation ==> r.generation < |s.log|)
  {
    RunInv(size, steps);
    QuietGeneration(size, steps);
    var s := Run(Start(size), steps).value;
    assert s.readers[id].log <= s.log;
  }

  /** Whenever no resizer is between its two resizes -- in particular whenever the lock is free or a
      reader holds it -- the PTY and the grid have the same size. */
  lemma {:induction false} SizesAgree(size: Size, steps: seq<Step>)
    requires Run(Start(size), steps).Some?
    ensures var s := Run(Start(size), steps).value;
            && (!MidResize(s) ==> s.pty == s.grid)
            && (!s.holder.ByResizer? ==> s.pty == s.grid)
  {
    RunInv(size, steps);
  }

  /** At most one task is inside the locked section. */
  lemma {:induction false} MutualExclusion(size: Size, steps: seq<Step>, a: nat, b: nat)
    requires Run(Start(size), steps).Some?
    ensures var s := Run(Start(size), steps).value;
            && (a in s.resizers && b in s.resizers && InSection(s.resizers[a]) && InSection(s.resizers[b]) ==> a == b)
            && (a in s.resizers && InSection(s.resizers[a]) ==> !FeederInSection(s.feeder))
            && (a in s.readers && s.readers[a].Looking? ==> !FeederInSection(s.feeder) && (b in s.resizers ==> !InSection(s.resizers[b])))
            && (a in s.readers && b in s.readers && s.readers[a].Looking? && s.readers[b].Looking? ==> a == b)
  {
    RunInv(size, steps);
  }

  /** Output reaches the grid in order and without loss: what was fed is a prefix of what was sent,
      and all of it once the feeder has ended. */
  lemma {:induction false} OutputFedInOrder(size: Size, steps: seq<Step>)
    requires Run(Start(size), steps).Some?
    ensures var s := Run(Start(size), steps).value;
            && Chunks(s.log) <= s.sent
            && (s.feeder.Exited? ==> Chunks(s.log) == s.sent)
  {
    RunInv(size, steps);
  }

  // --- the lock is never stuck -----------------------------------------------------------------------

  /** How many steps the holder still needs before it releases the lock. */
  function Distance(s: State): nat {
    match s.holder
    case Free => 0
    case ByFeeder => if s.feeder.Feeding? then 2 else 1
    case ByReader(_) => 1
    case ByResizer(id) =>
      if id !in s.resizers then 0
      else match s.resizers[id]
        case Locked(_) => 5
        case PtyDone(_) => 4
        case GridDone => 3
        case Upgraded => 2
        case _ => 1
  }

  /** What the holder does next. */
  function HolderStep(s: State, ok: bool): Step
    requires !s.holder.Free? && (s.holder.ByResizer? ==> s.holder.id in s.resizers)
  {
    match s.holder
    case ByFeeder => if s.feeder.Feeding? then Feed else FeederUnlock
    case ByReader(id) => ReaderUnlock(id)
    case ByResizer(id) =>
      match s.resizers[id]
      case Locked(_) => ResizePty(id, ok)
      case PtyDone(_) => ResizeGrid(id)
      case GridDone => Upgrade(id)
      case Upgraded => ResizerBump(id)
      case _ => Return(id)
  }

  /** The holder is never blocked, whatever the PTY answers, and gets closer to the release. */
  lemma HolderMoves(s: State, ok: bool)
    requires Exclusive(s) && !s.holder.Free?
    ensures var step := HolderStep(s, ok);
            Enabled(s, step) && Distance(Do(s, step)) < Distance(s)
            && (Do(s, step).holder == s.holder || Do(s, step).holder.Free?)
  {
    if s.holder.ByResizer? {
      assert InSection(s.resizers[s.holder.id]);
    }
  }

  /** The holder's own next steps and nobody else's, as the PTY answers `ok`, until the lock is free. */
  predicate HolderOnly(s: State, ok: bool, steps: seq<Step>)
    decreases |steps|
  {
    if s.holder.Free? then steps == []
    else
      && steps != [] && (s.holder.ByResizer? ==> s.holder.id in s.resizers)
      && steps[0] == HolderStep(s, ok) && Enabled(s, steps[0])
      && HolderOnly(Do(s, steps[0]), ok, steps[1..])
  }

  lemma {:induction false} RunFirst(s: State, step: Step, rest: seq<Step>)
    requires Enabled(s, step)
    ensures Run(s, [step] + rest) == Run(Do(s, step), rest)
  {
    var steps := [step] + rest;
    if rest == [] {
      assert steps[..0] == [] && Run(s, steps[..0]) == Some(s);
    } else {
      var k := |rest| - 1;
      RunFirst(s, step, rest[..k]);
      assert steps[..|steps| - 1] == [step] + rest[..k];
    }
  }

  /** The steps of one undisturbed successful resize that finds no sender. */
  function LateResize(id: nat, size: Size): seq<Step> {
    [Call(id, size), ResizerLock(id), ResizePty(id, true), ResizeGrid(id), Upgrade(id), Return(id)]
  }

  lemma RunSix(s: State, a: Step, b: Step, c: Step, d: Step, e: Step, f: Step)
    requires Enabled(s, a) && Enabled(Do(s, a), b)
    requires var t := Do(Do(s, a), b); Enabled(t, c) && Enabled(Do(t, c), d)
    requires var u := Do(Do(Do(Do(s, a), b), c), d); Enabled(u, e) && Enabled(Do(u, e), f)
    ensures Run(s, [a, b, c, d, e, f]) == Some(Do(Do(Do(Do(Do(Do(s, a), b), c), d), e), f))
  {
    hide Enabled, Do, Run;
    RunFirst(s, a, [b, c, d, e, f]);
    RunFirst(Do(s, a), b, [c, d, e, f]);
    var t := Do(Do(s, a), b);
    RunFirst(t, c, [d, e, f]);
    RunFirst(Do(t, c), d, [e, f]);
    var u := Do(Do(t, c), d);
    RunFirst(u, e, [f]);
    RunFirst(Do(u, e), f, []);
    RunNone(Do(Do(u, e), f));
    assert [a] + [b, c, d, e, f] == [a, b, c, d, e, f] && [b] + [c, d, e, f] == [b, c, d, e, f];
    assert [c] + [d, e, f] == [c, d, e, f] && [d] + [e, f] == [d, e, f] && [e] + [f] == [e, f] && [f] + [] == [f];
  }

  lemma RunNone(s: State)
    ensures Run(s, []) == Some(s)
  {
  }

  lemma {:induction false} ReleasedBy(s: State, late: nat, ok: bool) returns (steps: seq<Step>)
    requires Inv(s, late)
    ensures |steps| <= Distance(s) && HolderOnly(s, ok, steps) && Run(s, steps).Some? && Run(s, steps).value.holder.Free?
    decreases Distance(s)
  {
    hide Enabled, Do, InSection;
    if s.holder.Free? {
      steps := [];
    } else {
      HolderMoves(s, ok);
      var step := HolderStep(s, ok);
      StepKeepsInv(s, late, step);
      var rest := ReleasedBy(Do(s, step), if step.Upgrade? && s.feeder.Exited? then late + 1 else late, ok);
      RunFirst(s, step, rest);
      steps := [step] + rest;
      assert steps[1..] == rest;
    }
  }

  /** In every reachable state, and whatever the PTY answers, the holder's own next steps release the
      lock, and there are at most five of them. */
  lemma {:induction false} LockReleasable(size: Size, steps: seq<Step>, ok: bool)
    requires Run(Start(size), steps).Some?
    ensures exists more :: |more| <= 5 && HolderOnly(Run(Start(size), steps).value, ok, more)
                           && Run(Run(Start(size), steps).value, more).Some?
                           && Run(Run(Start(size), steps).value, more).value.holder.Free?
  {
    RunInv(size, steps);
    var more := ReleasedBy(Run(Start(size), steps).value, LateUpgrades(steps), ok);
  }

  /** With the feeder gone and nobody in the locked section, no sender is left. */
  lemma NoSender(s: State)
    requires Exclusive(s) && s.feeder.Exited? && s.holder.Free?
    ensures !SenderLive(s)
  {
    assert forall k | k in s.resizers :: !InSection(s.resizers[k]);
  }

  lemma LateLocked(s: State, id: nat, size: Size)
    requires s.holder.Free? && id !in s.resizers
    ensures Enabled(s, Call(id, size)) && Enabled(Do(s, Call(id, size)), ResizerLock(id))
    ensures var t := Do(Do(s, Call(id, size)), ResizerLock(id));
            t == s.(resizers := t.resizers, holder := ByResizer(id)) && t.resizers == s.resizers[id := Locked(size)]
  {
    assert s.resizers[id := Called(size)][id := Locked(size)] == s.resizers[id := Locked(size)];
  }

  lemma LateResized(s: State, t: State, id: nat, size: Size)
    requires t == s.(resizers := t.resizers, holder := ByResizer(id)) && t.resizers == s.resizers[id := Locked(size)]
    ensures Enabled(t, ResizePty(id, true)) && Enabled(Do(t, ResizePty(id, true)), ResizeGrid(id))
    ensures var u := Do(Do(t, ResizePty(id, true)), ResizeGrid(id));
            && u == s.(resizers := u.resizers, holder := ByResizer(id), pty := size, grid := size, log := s.log + [Resized(size)])
            && u.resizers == s.resizers[id := GridDone]
  {
    assert s.resizers[id := Locked(size)][id := PtyDone(size)][id := GridDone] == s.resizers[id := GridDone];
  }

  lemma LateReturned(s: State, u: State, id: nat, size: Size)
    requires !SenderLive(s) && u.resizers == s.resizers[id := GridDone]
    requires u == s.(resizers := u.resizers, holder := ByResizer(id), pty := size, grid := size, log := s.log + [Resized(size)])
    ensures Enabled(u, Upgrade(id)) && Enabled(Do(u, Upgrade(id)), Return(id))
    ensures var t := Do(Do(u, Upgrade(id)), Return(id));
            t.grid == t.pty == size && t.log == s.log + [Resized(size)] && t.generation == s.generation
            && t.holder.Free? && t.feeder == s.feeder && t.readers == s.readers
  {
    assert !SenderLive(u);
  }

  lemma {:induction false} RunConcat(s: State, a: seq<Step>, b: seq<Step>)
    requires Run(s, a).Some?
    ensures Run(s, a + b) == Run(Run(s, a).value, b)
  {
    if b == [] {
      assert a + b == a;
    } else {
      AppendInit(a, b);
      RunConcat(s, a, b[..|b| - 1]);
    }
  }

  lemma {:induction false} LateResizeRuns(s: State, id: nat, size: Size)
    requires Exclusive(s) && s.feeder.Exited? && s.holder.Free? && id !in s.resizers
    ensures var r := Run(s, LateResize(id, size));
            && r.Some? && r.value.grid == r.value.pty == size && r.value.log == s.log + [Resized(size)]
            && r.value.generation == s.generation && r.value.holder.Free?
            && r.value.feeder == s.feeder && r.value.readers == s.readers
  {
    hide Exclusive, Enabled, Do, Run, SenderLive;
    NoSender(s);
    LateLocked(s, id, size);
    var t := Do(Do(s, Call(id, size)), ResizerLock(id));
    LateResized(s, t, id, size);
    var u := Do(Do(t, ResizePty(id, true)), ResizeGrid(id));
    LateReturned(s, u, id, size);
    RunSix(s, Call(id, size), ResizerLock(id), ResizePty(id, true), ResizeGrid(id), Upgrade(id), Return(id));
  }

  /** Whenever the feeder has ended and the lock is free, a successful resize runs to its end, changes
      the grid, and leaves the generation where it was. */
  lemma {:induction false} LateResizeUnannounced(start: Size, steps: seq<Step>, id: nat, size: Size)
    requires Run(Start(start), steps).Some?
    requires var s := Run(Start(start), steps).value; s.feeder.Exited? && s.holder.Free? && id !in s.resizers
    ensures var s, r := Run(Start(start), steps).value, Run(Start(start), steps + LateResize(id, size));
            && r.Some? && r.value.grid == r.value.pty == size && r.value.log == s.log + [Resized(size)]
            && r.value.generation == s.generation && r.value.holder.Free? && r.value.readers == s.readers
  {
    hide Enabled, Do, Run, LateResize;
    RunInv(start, steps);
    LateResizeRuns(Run(Start(start), steps).value, id, size);
    RunConcat(Start(start), steps, LateResize(id, size));
  }

  lemma EndedSession(start: Size)
    ensures var r := Run(Start(start), [Close, Exit, Note(0)]);
            && r.Some? && r.value.feeder.Exited? && r.value.holder.Free? && r.value.resizers == map[]
            && r.value.log == [] && r.value.generation == 0 && r.value.readers == map[0 := Noted(0, [])]
  {
    var s := Start(start);
    RunNone(Do(Do(Do(s, Close), Exit), Note(0)));
    RunFirst(Do(Do(s, Close), Exit), Note(0), []);
    RunFirst(Do(s, Close), Exit, [Note(0)]);
    RunFirst(s, Close, [Exit, Note(0)]);
    assert [Note(0)] + [] == [Note(0)] && [Exit] + [Note(0)] == [Exit, Note(0)];
    assert [Close] + [Exit, Note(0)] == [Close, Exit, Note(0)];
  }

  /** A session that has ended, a reader that notes its generation, and a resize: nothing is in
      flight, the grid has changed, and the reader finds the generation it noted. */
  lemma {:induction false} WakeupLost(start: Size, size: Size)
    ensures var r := Run(Start(start), [Close, Exit, Note(0)] + LateResize(0, size));
            && r.Some? && Pending(r.value) == 0 && r.value.log == [Resized(size)] && r.value.generation == 0
            && r.value.readers == map[0 := Noted(0, [])]
  {
    EndedSession(start);
    LateResizeUnannounced(start, [Close, Exit, Note(0)], 0, size);
    assert [] + [Resized(size)] == [Resized(size)];
  }
}
