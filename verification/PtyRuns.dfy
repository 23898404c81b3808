/** What the runs of the PTY session protocol (`crates/codegen/ptyctl/src/session.rs`) do, said of their
    steps: which resizes reach the grid, what a refused one leaves behind, which output was sent, and
    which generation a reader holds. */
module PtyRuns {
  import opened Common
  import opened PtySession

  /** The state before the last step of a run, and the step. */
  lemma LastStep(size: Size, steps: seq<Step>) returns (s: State, step: Step)
    requires steps != [] && Run(Start(size), steps).Some?
    ensures Run(Start(size), steps[..|steps| - 1]) == Some(s) && step == steps[|steps| - 1]
    ensures Enabled(s, step) && Run(Start(size), steps) == Some(Do(s, step))
  {
    hide Enabled, Do;
    s, step := Run(Start(size), steps[..|steps| - 1]).value, steps[|steps| - 1];
  }

  // --- a refused resize -----------------------------------------------------------------------------

  /** A resize the PTY refuses changes neither size, nor the log, nor the generation; the lock is free and
      the call is over. */
  lemma {:induction false} RefusedResize(size: Size, steps: seq<Step>, id: nat)
    requires Run(Start(size), steps + [ResizePty(id, false)]).Some?
    ensures Run(Start(size), steps).Some?
    ensures var s, t := Run(Start(size), steps).value, Run(Start(size), steps + [ResizePty(id, false)]).value;
            && t.pty == s.pty && t.grid == s.grid && t.pty == t.grid && t.log == s.log && t.generation == s.generation
            && s.holder == ByResizer(id) && t.holder == Free
            && id in t.resizers && t.resizers[id].Returned?
            && t.feeder == s.feeder && t.readers == s.readers && t.queue == s.queue
  {
    var all := steps + [ResizePty(id, false)];
    assert all[..|steps|] == steps;
    var s, step := LastStep(size, all);
    RunInv(size, steps);
    assert InSection(s.resizers[id]);
  }

  // --- which resizes reach the grid -------------------------------------------------------------------

  /** The size a call asked for. */
  function Asked(steps: seq<Step>, id: nat): Option<Size> {
    if steps == [] then None
    else
      var step := steps[|steps| - 1];
      if step.Call? && step.id == id then Some(step.size) else Asked(steps[..|steps| - 1], id)
  }

  /** The sizes asked for by the calls whose grid step ran, in the order of those steps. */
  function GridSizes(steps: seq<Step>): seq<Option<Size>> {
    if steps == [] then []
    else
      var before, step := steps[..|steps| - 1], steps[|steps| - 1];
      GridSizes(before) + if step.ResizeGrid? then [Asked(before, step.id)] else []
  }

  /** The sizes a log's resizes gave the grid. */
  function LoggedSizes(log: seq<Change>): seq<Option<Size>> {
    if log == [] then []
    else LoggedSizes(log[..|log| - 1]) + if log[|log| - 1].Resized? then [Some(log[|log| - 1].size)] else []
  }

  /** How far a call has come, read off the steps. */
  ghost predicate Tracked(s: State, steps: seq<Step>, id: nat) {
    var yes, no, grid := ResizePty(id, true) in steps, ResizePty(id, false) in steps, ResizeGrid(id) in steps;
    if id !in s.resizers then Asked(steps, id).None? && !yes && !no && !grid
    else
      Asked(steps, id).Some?
      && match s.resizers[id]
         case Called(size) => Asked(steps, id) == Some(size) && !yes && !no && !grid
         case Locked(size) => Asked(steps, id) == Some(size) && !yes && !no && !grid
         case PtyDone(size) => Asked(steps, id) == Some(size) && yes && !no && !grid
         case Returned => !(yes && no) && (grid ==> yes)
         case _ => yes && !no
  }

  ghost predicate CallsTracked(s: State, steps: seq<Step>) { forall id :: Tracked(s, steps, id) }

  lemma AskedNext(steps: seq<Step>, step: Step, id: nat)
    ensures Asked(steps + [step], id) == if step.Call? && step.id == id then Some(step.size) else Asked(steps, id)
  {
    assert (steps + [step])[..|steps|] == steps;
  }

  /** The call a step belongs to. */
  predicate Concerns(step: Step, id: nat) {
    (step.Call? || step.ResizerLock? || step.ResizePty? || step.ResizeGrid? || step.Upgrade? || step.ResizerBump? || step.Return?)
    && step.id == id
  }

  lemma {:induction false} TrackedStep(s: State, steps: seq<Step>, step: Step, id: nat)
    requires Tracked(s, steps, id) && Enabled(s, step)
    ensures Tracked(Do(s, step), steps + [step], id)
  {
    hide Asked, SenderLive;
    AskedNext(steps, step, id);
    SeenNext(steps, step, id);
    if !Concerns(step, id) { Unconcerned(s, step, id); }
  }

  lemma SeenNext(steps: seq<Step>, step: Step, id: nat)
    ensures ResizePty(id, true) in steps + [step] <==> ResizePty(id, true) in steps || step == ResizePty(id, true)
    ensures ResizePty(id, false) in steps + [step] <==> ResizePty(id, false) in steps || step == ResizePty(id, false)
    ensures ResizeGrid(id) in steps + [step] <==> ResizeGrid(id) in steps || step == ResizeGrid(id)
  {
  }

  lemma Unconcerned(s: State, step: Step, id: nat)
    requires Enabled(s, step) && !Concerns(step, id)
    ensures id in Do(s, step).resizers <==> id in s.resizers
    ensures id in s.resizers ==> Do(s, step).resizers[id] == s.resizers[id]
  {
    hide SenderLive;
  }

  lemma {:induction false} RunTracked(size: Size, steps: seq<Step>)
    requires Run(Start(size), steps).Some?
    ensures CallsTracked(Run(Start(size), steps).value, steps)
  {
    hide CallsTracked, Enabled, Do;
    if steps == [] {
      NothingTracked(size);
    } else {
      var s, step := LastStep(size, steps);
      RunTracked(size, steps[..|steps| - 1]);
      InitLast(steps);
      TrackedNext(s, steps[..|steps| - 1], step);
    }
  }

  lemma TrackedNext(s: State, steps: seq<Step>, step: Step)
    requires CallsTracked(s, steps) && Enabled(s, step)
    ensures CallsTracked(Do(s, step), steps + [step])
  {
    hide Tracked, Enabled, Do;
    forall id ensures Tracked(Do(s, step), steps + [step], id) { TrackedStep(s, steps, step, id); }
  }

  lemma NothingTracked(size: Size)
    ensures CallsTracked(Start(size), [])
  {
  }

  /** What a step adds to the resizes of the log, and the size the grid then has. */
  lemma StepLogs(s: State, step: Step)
    requires Enabled(s, step)
    ensures step.ResizeGrid? ==> var size := s.resizers[step.id].size;
              LoggedSizes(Do(s, step).log) == LoggedSizes(s.log) + [Some(size)] && Do(s, step).grid == size
    ensures !step.ResizeGrid? ==> LoggedSizes(Do(s, step).log) == LoggedSizes(s.log) && Do(s, step).grid == s.grid
  {
    hide SenderLive;
    if step.ResizeGrid? {
      AppendInit(s.log, [Resized(s.resizers[step.id].size)]);
      assert s.log + [] == s.log;
    } else if step.Feed? {
      AppendInit(s.log, [Fed(s.feeder.chunk)]);
      assert s.log + [] == s.log;
    }
  }

  /** The grid is resized exactly by the calls whose PTY resize was answered with yes and whose grid step
      ran, in the order of those steps and to the sizes they asked for; the grid has the last of them. */
  lemma {:induction false} ResizesLogged(size: Size, steps: seq<Step>)
    requires Run(Start(size), steps).Some?
    ensures var s, sizes := Run(Start(size), steps).value, GridSizes(steps);
            LoggedSizes(s.log) == sizes && Some(s.grid) == if sizes == [] then Some(size) else sizes[|sizes| - 1]
    ensures forall id | ResizeGrid(id) in steps :: ResizePty(id, true) in steps && ResizePty(id, false) !in steps && Asked(steps, id).Some?
  {
    hide CallsTracked, Enabled, Do, LoggedSizes, Asked;
    RunTracked(size, steps);
    TrackedMeans(Run(Start(size), steps).value, steps);
    if steps == [] {
      NothingLogged();
    } else {
      var s, step := LastStep(size, steps);
      var before := steps[..|steps| - 1];
      ResizesLogged(size, before);
      StepLogs(s, step);
      RunTracked(size, before);
      if step.ResizeGrid? { AskedIsHeld(s, before, step.id); }
    }
  }

  lemma NothingLogged()
    ensures LoggedSizes([]) == []
  {
  }

  lemma TrackedMeans(s: State, steps: seq<Step>)
    requires CallsTracked(s, steps)
    ensures forall id | ResizeGrid(id) in steps :: ResizePty(id, true) in steps && ResizePty(id, false) !in steps && Asked(steps, id).Some?
  {
    hide Asked;
    forall id | ResizeGrid(id) in steps
      ensures ResizePty(id, true) in steps && ResizePty(id, false) !in steps && Asked(steps, id).Some?
    {
      assert Tracked(s, steps, id);
    }
  }

  lemma AskedIsHeld(s: State, steps: seq<Step>, id: nat)
    requires CallsTracked(s, steps) && Enabled(s, ResizeGrid(id))
    ensures Asked(steps, id) == Some(s.resizers[id].size)
  {
    hide Asked;
    assert Tracked(s, steps, id);
  }

  // --- output and readers ---------------------------------------------------------------------------------

  function SentChunk(step: Step): Chunk { if step.Send? then step.chunk else [] }

  function IsSend(): Step -> bool { (step: Step) => step.Send? }

  /** What was sent is what the send steps sent, in order, and the output has ended once it was closed. */
  lemma {:induction false} SentSoFar(size: Size, steps: seq<Step>)
    requires Run(Start(size), steps).Some?
    ensures var s := Run(Start(size), steps).value;
            s.sent == Map(SentChunk, Filter(IsSend(), steps)) && (s.closed <==> Close in steps)
  {
    hide Enabled, Do;
    if steps != [] {
      var s, step := LastStep(size, steps);
      var before := steps[..|steps| - 1];
      SentSoFar(size, before);
      StepSends(s, step);
      InitLast(steps);
      MapAppend(SentChunk, Filter(IsSend(), before), [step]);
    }
  }

  lemma StepSends(s: State, step: Step)
    requires Enabled(s, step)
    ensures Do(s, step).sent == if step.Send? then s.sent + [step.chunk] else s.sent
    ensures Do(s, step).closed <==> s.closed || step.Close?
  {
    hide SenderLive;
  }

  /** The reader's last note is step `k`. */
  ghost predicate LastNote(steps: seq<Step>, id: nat, k: nat) {
    k < |steps| && steps[k] == Note(id) && forall j | k < j < |steps| :: steps[j] != Note(id)
  }

  /** What a reader holds is the generation, and the changes, at its last note. */
  lemma {:induction false} HeldSinceNote(size: Size, steps: seq<Step>, id: nat, k: nat)
    requires Run(Start(size), steps).Some? && LastNote(steps, id, k)
    ensures Run(Start(size), steps[..k]).Some?
    ensures var s, noted := Run(Start(size), steps).value, Run(Start(size), steps[..k]).value;
            && id in s.readers
            && (!s.readers[id].Idle? ==> s.readers[id].generation == noted.generation && s.readers[id].log == noted.log)
  {
    hide Enabled, Do;
    var s, step := LastStep(size, steps);
    var before := steps[..|steps| - 1];
    if k == |before| {
      NoteHolds(s, id);
    } else {
      assert LastNote(before, id, k) && before[..k] == steps[..k];
      HeldSinceNote(size, before, id, k);
      OthersKeepNote(s, step, id);
    }
  }

  lemma NoteHolds(s: State, id: nat)
    requires Enabled(s, Note(id))
    ensures var t := Do(s, Note(id)); id in t.readers && t.readers[id] == Noted(s.generation, s.log)
  {
  }

  lemma OthersKeepNote(s: State, step: Step, id: nat)
    requires Enabled(s, step) && step != Note(id) && id in s.readers
    ensures var t := Do(s, step);
            && id in t.readers
            && (!t.readers[id].Idle? ==> !s.readers[id].Idle? && t.readers[id].generation == s.readers[id].generation
                                         && t.readers[id].log == s.readers[id].log)
  {
    hide SenderLive;
  }
}
