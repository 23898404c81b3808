/** Applying patches to a harness version: `interstellar/harness.py`. Diffs and reasons are not
    modelled; a skill's other fields travel in `meta`. */
module Harness {
  import opened Common
  import opened Lines
  import opened Ranges
  import McpConfig

  datatype Skill = Skill(name: string, meta: string, content: string)

  datatype Patch =
    | Truncate(id: string, target: string, ranges: seq<Range>)
    | RemoveSkill(id: string, target: string)
    | Insert(id: string, target: string, text: Option<string>, after: Option<int>)
    | RemoveServer(id: string, target: string)
    | AppendRule(id: string, rule: Option<string>)
    | UnknownKind(id: string, kind: string)

  datatype Application = Application(id: string, applied: bool, linesChanged: nat)

  datatype Version = Version(skills: seq<Skill>, servers: seq<string>, config: string, rules: seq<string>)

  function Skipped(p: Patch): Application { Application(p.id, false, 0) }

  /** Index of the first skill of that name, or the number of skills. */
  function FindSkill(skills: seq<Skill>, name: string): (i: nat)
    ensures i <= |skills|
    ensures i < |skills| ==> skills[i].name == name
    ensures forall k | 0 <= k < i :: skills[k].name != name
  {
    if skills == [] then 0 else if skills[0].name == name then 0 else 1 + FindSkill(skills[1..], name)
  }

  function WithContent(skills: seq<Skill>, i: nat, content: string): seq<Skill>
    requires i < |skills|
  {
    skills[i := skills[i].(content := content)]
  }

  // --- the effect of one patch ---------------------------------------------------------------

  predicate InBounds(ranges: seq<Range>, n: nat) {
    forall i | 0 <= i < |ranges| :: 1 <= ranges[i].start <= ranges[i].end <= n
  }

  /** The content without the lines the ranges cover. */
  ghost function Truncated(content: string, ranges: seq<Range>): string {
    Join(Keep(Split(content), 0, Gone(ranges)))
  }

  /** The block that is inserted always ends its last line. */
  function Block(text: string): string { if Terminated(text) then text else text + "\n" }

  function Inserted(content: string, after: nat, text: string): string
    requires after <= |Split(content)|
  {
    var ls := Split(content);
    Join(ls[..after] + Split(Block(text)) + ls[after..])
  }

  ghost function TruncateSpec(v: Version, p: Patch): (Version, Application)
    requires p.Truncate?
  {
    var i := FindSkill(v.skills, p.target);
    if i == |v.skills| || p.ranges == [] || !InBounds(p.ranges, |Split(v.skills[i].content)|) then (v, Skipped(p))
    else (v.(skills := WithContent(v.skills, i, Truncated(v.skills[i].content, p.ranges))),
          Application(p.id, true, |CoveredLines(p.ranges)|))
  }

  function ApplyRemoveSkill(v: Version, p: Patch): (Version, Application)
    requires p.RemoveSkill?
  {
    var i := FindSkill(v.skills, p.target);
    if i == |v.skills| then (v, Skipped(p))
    else (v.(skills := v.skills[..i] + v.skills[i + 1..]), Application(p.id, true, |Split(v.skills[i].content)|))
  }

  /** The line after which a block goes; the beginning when none is given. */
  function Anchor(p: Patch): int
    requires p.Insert?
  {
    if p.after.Some? then p.after.value else 0
  }

  function ApplyInsert(v: Version, p: Patch): (Version, Application)
    requires p.Insert?
  {
    var i := FindSkill(v.skills, p.target);
    if i == |v.skills| || p.text.None? || p.text.value == "" then (v, Skipped(p))
    else
      var after := Anchor(p);
      var content := v.skills[i].content;
      if !(0 <= after <= |Split(content)|) then (v, Skipped(p))
      else (v.(skills := WithContent(v.skills, i, Inserted(content, after, p.text.value))),
            Application(p.id, true, |Split(Block(p.text.value))|))
  }

  ghost function RemoveServerSpec(v: Version, p: Patch): (Version, Application)
    requires p.RemoveServer?
  {
    match McpConfig.RemoveSpec(v.servers, v.config, p.target)
    case NotFound => (v, Skipped(p))
    case Removed(servers, config, n) => (v.(servers := servers, config := config), Application(p.id, true, n))
  }

  function ApplyAppendRule(v: Version, p: Patch): (Version, Application)
    requires p.AppendRule?
  {
    if p.rule.None? || p.rule.value == "" then (v, Skipped(p))
    else (v.(rules := v.rules + [p.rule.value]), Application(p.id, true, 1))
  }

  ghost function Step(v: Version, p: Patch): (Version, Application) {
    match p
    case Truncate(_, _, _) => TruncateSpec(v, p)
    case RemoveSkill(_, _) => ApplyRemoveSkill(v, p)
    case Insert(_, _, _, _) => ApplyInsert(v, p)
    case RemoveServer(_, _) => RemoveServerSpec(v, p)
    case AppendRule(_, _) => ApplyAppendRule(v, p)
    case UnknownKind(_, _) => (v, Skipped(p))
  }

  /** All patches, left to right. */
  ghost function Run(v: Version, patches: seq<Patch>): (Version, seq<Application>) {
    if patches == [] then (v, [])
    else
      var k := |patches| - 1;
      var (w, apps) := Run(v, patches[..k]);
      var (x, app) := Step(w, patches[k]);
      (x, apps + [app])
  }

  // --- the code ---------------------------------------------------------------------------------

  method ApplyTruncate(v: Version, p: Patch) returns (w: Version, app: Application)
    requires p.Truncate?
    ensures (w, app) == TruncateSpec(v, p)
  {
    var i := FindSkill(v.skills, p.target);
    if i == |v.skills| || p.ranges == [] { return v, Skipped(p); }
    var lines := Split(v.skills[i].content);
    for k := 0 to |p.ranges|
      invariant InBounds(p.ranges[..k], |lines|)
    {
      var r := p.ranges[k];
      if !(1 <= r.start <= r.end <= |lines|) { return v, Skipped(p); }
    }
    assert p.ranges[..|p.ranges|] == p.ranges;
    var merged := MergeRanges(p.ranges);
    MergedInBounds(p.ranges, |lines|);
    var kept, deleted := DeleteRanges(lines, merged);
    MergedKeeps(lines, p.ranges);
    w := v.(skills := WithContent(v.skills, i, Join(kept)));
    app := Application(p.id, true, deleted);
  }

  lemma {:induction false} MergedInBounds(ranges: seq<Range>, n: nat)
    requires InBounds(ranges, n)
    ensures var m := Merged(ranges);
            Ordered(m) && Separated(0, m) && forall i | 0 <= i < |m| :: 1 <= m[i].start && m[i].end <= n
  {
    var m := Merged(ranges);
    NormaliserKeepsLines(0, ranges, 0);
    forall x ensures Covers(m, x) <==> Covers(ranges, x) { NormaliserKeepsLines(0, ranges, x); }
    forall i | 0 <= i < |m|
      ensures 1 <= m[i].start && m[i].end <= n
    {
      assert Covers(m, m[i].start) && Covers(m, m[i].end);
      assert Covers(ranges, m[i].start) && Covers(ranges, m[i].end);
    }
  }

  lemma {:induction false} MergedKeeps<T>(lines: seq<T>, ranges: seq<Range>)
    requires Ordered(ranges)
    ensures Keep(lines, 0, Gone(Merged(ranges))) == Keep(lines, 0, Gone(ranges))
    ensures LinesIn(Merged(ranges)) == |CoveredLines(ranges)|
  {
    var m := Merged(ranges);
    NormaliserKeepsLines(0, ranges, 0);
    forall x ensures Covers(m, x) <==> Covers(ranges, x) { NormaliserKeepsLines(0, ranges, x); }
    KeepSame(lines, 0, Gone(m), Gone(ranges));
    SeparatedCount(m);
    SameLines(m, ranges);
  }

  method ApplyRemoveServer(v: Version, p: Patch) returns (w: Version, app: Application)
    requires p.RemoveServer?
    ensures (w, app) == RemoveServerSpec(v, p)
  {
    var r := McpConfig.Remove(v.servers, v.config, p.target);
    match r
    case NotFound => w, app := v, Skipped(p);
    case Removed(servers, config, n) => w, app := v.(servers := servers, config := config), Application(p.id, true, n);
  }

  method Apply(v: Version, patches: seq<Patch>) returns (w: Version, apps: seq<Application>)
    ensures (w, apps) == Run(v, patches)
  {
    w, apps := v, [];
    for k := 0 to |patches|
      invariant (w, apps) == Run(v, patches[..k])
    {
      assert patches[..k + 1][..k] == patches[..k];
      var p := patches[k];
      var app;
      match p {
        case Truncate(_, _, _) => w, app := ApplyTruncate(w, p);
        case RemoveSkill(_, _) => var r := ApplyRemoveSkill(w, p); w, app := r.0, r.1;
        case Insert(_, _, _, _) => var r := ApplyInsert(w, p); w, app := r.0, r.1;
        case RemoveServer(_, _) => w, app := ApplyRemoveServer(w, p);
        case AppendRule(_, _) => var r := ApplyAppendRule(w, p); w, app := r.0, r.1;
        case UnknownKind(_, _) => app := Skipped(p);
      }
      apps := apps + [app];
    }
    assert patches[..|patches|] == patches;
  }

  // --- laws ---------------------------------------------------------------------------------------

  /** Applying a concatenation is applying one list after the other, with the reports in order. */
  lemma {:induction false} RunConcat(v: Version, a: seq<Patch>, b: seq<Patch>)
    ensures Run(v, a + b) == (Run(Run(v, a).0, b).0, Run(v, a).1 + Run(Run(v, a).0, b).1)
  {
    var w, apps := Run(v, a).0, Run(v, a).1;
    if b == [] {
      assert a + b == a && apps + [] == apps;
    } else {
      var k := |b| - 1;
      RunConcat(v, a, b[..k]);
      AppendInit(a, b);
      var x, more := Run(w, b[..k]).0, Run(w, b[..k]).1;
      RunLast(v, a + b, x, apps + more);
      RunLast(w, b, x, more);
      Assoc(apps, more, [Step(x, b[k]).1]);
    }
  }

  lemma RunLast(v: Version, patches: seq<Patch>, w: Version, apps: seq<Application>)
    requires patches != [] && Run(v, patches[..|patches| - 1]) == (w, apps)
    ensures var r := Step(w, patches[|patches| - 1]); Run(v, patches) == (r.0, apps + [r.1])
  {
  }

  /** One application report per patch, in order; a skipped patch changes nothing. */
  lemma {:induction false} RunReports(v: Version, patches: seq<Patch>)
    ensures |Run(v, patches).1| == |patches|
    ensures forall i | 0 <= i < |patches| :: Run(v, patches).1[i].id == patches[i].id
    ensures (forall i | 0 <= i < |patches| :: !Run(v, patches).1[i].applied) ==> Run(v, patches).0 == v
  {
    if patches != [] {
      var k := |patches| - 1;
      var w, apps := Run(v, patches[..k]).0, Run(v, patches[..k]).1;
      hide Step, Run;
      RunReports(v, patches[..k]);
      RunLast(v, patches, w, apps);
      StepReports(w, patches[k]);
      assert forall i | 0 <= i < k :: Run(v, patches).1[i] == apps[i] && patches[i] == patches[..k][i];
      assert Run(v, patches).1[k] == Step(w, patches[k]).1;
    }
  }

  lemma StepReports(v: Version, p: Patch)
    ensures Step(v, p).1.id == p.id
    ensures !Step(v, p).1.applied ==> Step(v, p).0 == v
  {
  }

  lemma {:induction false} BlockLines(text: string)
    ensures Closed(Block(text)) && Block(text) != ""
    ensures WellFormed(Split(Block(text))) && Split(Block(text)) != [] && Terminated(Split(Block(text))[|Split(Block(text))| - 1])
  {
    SplitWellFormed(Block(text));
    ClosedSplit(Block(text));
  }

  lemma OneRange(r: Range, x: int)
    ensures Covers([r], x) <==> r.start <= x <= r.end
  {
    if r.start <= x <= r.end { assert [r][0] == r; }
  }

  lemma {:induction false} KeepOutside<T>(a: seq<T>, b: seq<T>, c: seq<T>, r: seq<Range>)
    requires b != [] && r == [Range(|a| + 1, |a| + |b|)]
    ensures Keep(a + b + c, 0, Gone(r)) == a + c
  {
    var gone := Gone(r);
    forall x ensures gone(x) <==> |a| + 1 <= x <= |a| + |b| { OneRange(r[0], x); }
    KeepAppend(a + b, c, 0, gone);
    KeepAppend(a, b, 0, gone);
    KeepAll(a, 0, gone);
    KeepNone(b, |a|, gone);
    KeepAll(c, |a| + |b|, gone);
    assert a + [] == a;
  }

  lemma {:induction false} InsertWellFormed(ls: seq<string>, b: seq<string>, after: nat)
    requires WellFormed(ls) && WellFormed(b) && b != [] && Terminated(b[|b| - 1]) && after <= |ls|
    requires after == |ls| && ls != [] ==> Terminated(ls[|ls| - 1])
    ensures WellFormed(ls[..after] + b + ls[after..])
  {
    var e := ls[..after] + b + ls[after..];
    forall i | 0 <= i < |e|
      ensures IsLine(e[i]) && (i < |e| - 1 ==> Terminated(e[i]))
    {
      assert e[i] == if i < after then ls[i] else if i < after + |b| then b[i - after] else ls[i - |b|];
    }
  }

  lemma {:induction false} InsertedLines(content: string, after: nat, text: string)
    requires after <= |Split(content)| && (after < |Split(content)| || Closed(content))
    ensures var ls := Split(content);
            Split(Inserted(content, after, text)) == ls[..after] + Split(Block(text)) + ls[after..]
  {
    hide Split, Join, Block, IsLine, Terminated;
    var ls, b := Split(content), Split(Block(text));
    SplitWellFormed(content);
    BlockLines(text);
    if after == |ls| { ClosedSplit(content); }
    InsertWellFormed(ls, b, after);
    SplitJoin(ls[..after] + b + ls[after..]);
  }

  /** Splicing lines into a list and cutting the same stretch out again. */
  lemma {:induction false} SpliceUndone(ls: seq<string>, after: nat, b: seq<string>, edited: string, ranges: seq<Range>)
    requires after <= |ls| && b != [] && Split(edited) == ls[..after] + b + ls[after..]
    requires ranges == [Range(after + 1, after + |b|)]
    ensures |Split(edited)| == |ls| + |b| && InBounds(ranges, |Split(edited)|) && Truncated(edited, ranges) == Join(ls)
  {
    TruncatedMiddle(edited, ls[..after], b, ls[after..]);
    TakeDrop(ls, after);
  }

  /** An insertion that does not continue an unterminated last line is undone by deleting the
      inserted lines. */
  lemma {:induction false} InsertUndone(content: string, after: nat, text: string, ranges: seq<Range>)
    requires after <= |Split(content)| && (after < |Split(content)| || Closed(content))
    requires ranges == [Range(after + 1, after + |Split(Block(text))|)]
    ensures var edited := Inserted(content, after, text);
            && |Split(edited)| == |Split(content)| + |Split(Block(text))|
            && InBounds(ranges, |Split(edited)|)
            && Truncated(edited, ranges) == content
  {
    hide *;
    InsertedLines(content, after, text);
    BlockLines(text);
    SpliceUndone(Split(content), after, Split(Block(text)), Inserted(content, after, text), ranges);
    JoinSplit(content);
  }

  lemma TakeDrop<T>(s: seq<T>, k: nat)
    requires k <= |s|
    ensures s[..k] + s[k..] == s
  {
  }

  lemma {:induction false} TruncatedMiddle(text: string, a: seq<string>, b: seq<string>, c: seq<string>)
    requires Split(text) == a + b + c && b != []
    ensures Truncated(text, [Range(|a| + 1, |a| + |b|)]) == Join(a + c)
  {
    KeepOutside(a, b, c, [Range(|a| + 1, |a| + |b|)]);
  }

  lemma {:induction false} GlueFirst(u: string, b: string)
    requires IsLine(u) && !Terminated(u) && b != ""
    ensures |Split(u + b)| == |Split(b)|
  {
    var k := FirstLine(b);
    assert u + b == (u + b[..k]) + b[k..];
    assert IsLine(u + b[..k]) by {
      var l := u + b[..k];
      assert forall i | 0 <= i < |u| - 1 :: u[i] == u[..|u| - 1][i];
      assert forall i | 0 <= i < k - 1 :: b[i] == b[..k - 1][i];
      assert forall i | 0 <= i < |l| - 1 :: l[i] != '\n';
    }
    FirstLineIs(u + b[..k], b[k..]);
    assert (u + b)[..|u| + k] == u + b[..k] && (u + b)[|u| + k..] == b[k..];
  }

  lemma {:induction false} JoinLast(ls: seq<string>)
    requires ls != []
    ensures Join(ls) == Join(ls[..|ls| - 1]) + ls[|ls| - 1]
  {
    var k := |ls| - 1;
    JoinAppend(ls[..k], [ls[k]]);
    assert ls == ls[..k] + [ls[k]];
    assert Join([ls[k]]) == ls[k] + Join([ls[k]][1..]);
  }

  lemma {:induction false} InitClosed(ls: seq<string>)
    requires WellFormed(ls) && ls != []
    ensures Closed(Join(ls[..|ls| - 1])) && Split(Join(ls[..|ls| - 1])) == ls[..|ls| - 1]
  {
    JoinClosed(ls[..|ls| - 1]);
    SplitJoin(ls[..|ls| - 1]);
  }

  /** The content as closed text followed by its unterminated last line. */
  lemma {:induction false} LastLine(content: string) returns (head: string, last: string)
    requires !Closed(content)
    ensures content == head + last && Closed(head) && IsLine(last) && !Terminated(last)
    ensures |Split(content)| == |Split(head)| + 1
  {
    var ls := Split(content);
    LastUnterminated(content);
    SplitWellFormed(content);
    JoinSplit(content);
    head, last := Join(ls[..|ls| - 1]), ls[|ls| - 1];
    JoinLast(ls);
    InitClosed(ls);
  }

  lemma {:induction false} InsertedAtEnd(content: string, text: string)
    ensures Inserted(content, |Split(content)|, text) == content + Block(text)
  {
    var ls, b := Split(content), Split(Block(text));
    JoinSplit(content);
    JoinSplit(Block(text));
    assert ls[..|ls|] + b + ls[|ls|..] == ls + b;
    JoinAppend(ls, b);
  }

  /** Inserting after an unterminated last line glues the block to it, so one line fewer results. */
  lemma {:induction false} InsertGlues(content: string, text: string)
    requires !Closed(content)
    ensures var edited := Inserted(content, |Split(content)|, text);
            |Split(edited)| == |Split(content)| + |Split(Block(text))| - 1 && edited != content
  {
    var b := Block(text);
    InsertedAtEnd(content, text);
    var head, last := LastLine(content);
    GluedLineCount(head, last, b);
    Assoc(head, last, b);
    Longer(content, b);
  }

  lemma {:induction false} LastUnterminated(content: string)
    requires !Closed(content)
    ensures Split(content) != [] && !Terminated(Split(content)[|Split(content)| - 1])
  {
    SplitWellFormed(content);
    JoinSplit(content);
    var ls := Split(content);
    if Terminated(ls[|ls| - 1]) { JoinClosed(ls); }
  }

  ghost predicate Undoes(v: Version, i: nat, p: Patch, q: Patch) {
    && p.Insert? && q.Truncate? && p.target == q.target && i == FindSkill(v.skills, p.target) < |v.skills|
    && p.text.Some? && p.text.value != "" && 0 <= Anchor(p) <= |Split(v.skills[i].content)|
    && q.ranges == [Range(Anchor(p) + 1, Anchor(p) + |Split(Block(p.text.value))|)]
  }

  lemma Longer(a: string, b: string)
    requires b != ""
    ensures a + b != a
  {
    assert |a + b| > |a|;
  }

  lemma {:induction false} GluedLineCount(head: string, last: string, b: string)
    requires Closed(head) && IsLine(last) && !Terminated(last) && b != ""
    ensures |Split(head + (last + b))| == |Split(head)| + |Split(b)|
  {
    SplitAppend(head, last + b);
    GlueFirst(last, b);
  }

  lemma {:induction false} UndoRestores(v: Version, i: nat, p: Patch, q: Patch)
    requires Undoes(v, i, p, q)
    requires Anchor(p) < |Split(v.skills[i].content)| || Closed(v.skills[i].content)
    ensures Step(Step(v, p).0, q).0 == v
  {
    hide CoveredLines, FindSkill, Join, McpConfig.Without, Split, StripLeft, StripRight;
    InsertStep(v, i, p);
    InsertUndone(v.skills[i].content, Anchor(p), p.text.value, q.ranges);
    TruncateRestores(v, i, Inserted(v.skills[i].content, Anchor(p), p.text.value), q);
  }

  lemma {:induction false} UndoFails(v: Version, i: nat, p: Patch, q: Patch)
    requires Undoes(v, i, p, q)
    requires Anchor(p) == |Split(v.skills[i].content)| && !Closed(v.skills[i].content)
    ensures Step(Step(v, p).0, q).0 != v
  {
    var content, after, text := v.skills[i].content, Anchor(p), p.text.value;
    InsertGlues(content, text);
    TruncateSkips(v, i, Inserted(content, after, text), q);
    InsertStep(v, i, p);
  }

  /** Insert, then truncate exactly the inserted range: the version is back to what it was
      exactly when the anchor is before the end or the skill's text ends its last line. */
  lemma {:induction false} InsertThenTruncate(v: Version, i: nat, p: Patch, q: Patch)
    requires Undoes(v, i, p, q)
    ensures Run(v, [p, q]).0 == v <==> Anchor(p) < |Split(v.skills[i].content)| || Closed(v.skills[i].content)
  {
    RunTwo(v, p, q);
    if Anchor(p) < |Split(v.skills[i].content)| || Closed(v.skills[i].content) {
      UndoRestores(v, i, p, q);
    } else {
      UndoFails(v, i, p, q);
    }
  }

  /** A skill whose only line is unterminated: the block inserted after it is glued to it, and
      truncating the inserted range does not bring the skill back. */
  lemma {:induction false} GluedInsertStays(meta: string, text: string, id: string)
    requires text != ""
    ensures var v := Version([Skill("s", meta, "a")], [], "", []);
            var p := Insert(id, "s", Some(text), Some(1));
            var q := Truncate(id, "s", [Range(2, 1 + |Split(Block(text))|)]);
            Run(v, [p, q]).0 != v
  {
    var v := Version([Skill("s", meta, "a")], [], "", []);
    OneLine("a");
    InsertThenTruncate(v, 0, Insert(id, "s", Some(text), Some(1)), Truncate(id, "s", [Range(2, 1 + |Split(Block(text))|)]));
  }

  lemma {:induction false} InsertStep(v: Version, i: nat, p: Patch)
    requires p.Insert? && i == FindSkill(v.skills, p.target) < |v.skills| && p.text.Some? && p.text.value != ""
    requires 0 <= Anchor(p) <= |Split(v.skills[i].content)|
    ensures Step(v, p).0 == v.(skills := WithContent(v.skills, i, Inserted(v.skills[i].content, Anchor(p), p.text.value)))
  {
  }

  lemma {:induction false} TruncateRestores(v: Version, i: nat, edited: string, q: Patch)
    requires q.Truncate? && |q.ranges| == 1 && i == FindSkill(v.skills, q.target) < |v.skills|
    requires InBounds(q.ranges, |Split(edited)|) && Truncated(edited, q.ranges) == v.skills[i].content
    ensures Step(v.(skills := WithContent(v.skills, i, edited)), q).0 == v
  {
    FindAfterUpdate(v.skills, q.target, edited);
    assert WithContent(WithContent(v.skills, i, edited), i, v.skills[i].content) == v.skills;
  }

  lemma {:induction false} TruncateSkips(v: Version, i: nat, edited: string, q: Patch)
    requires q.Truncate? && |q.ranges| == 1 && i == FindSkill(v.skills, q.target) < |v.skills|
    requires q.ranges[0].end > |Split(edited)| && edited != v.skills[i].content
    ensures Step(v.(skills := WithContent(v.skills, i, edited)), q).0 != v
  {
    FindAfterUpdate(v.skills, q.target, edited);
    assert WithContent(v.skills, i, edited)[i].content == edited;
  }

  lemma {:induction false} RunTwo(v: Version, p: Patch, q: Patch)
    ensures Run(v, [p, q]).0 == Step(Step(v, p).0, q).0
  {
    assert [p, q][..1] == [p] && [p][..0] == [];
    assert Run(v, [p]).0 == Step(v, p).0;
  }

  lemma {:induction false} FindAfterUpdate(skills: seq<Skill>, name: string, content: string)
    requires FindSkill(skills, name) < |skills|
    ensures FindSkill(WithContent(skills, FindSkill(skills, name), content), name) == FindSkill(skills, name)
  {
    var i := FindSkill(skills, name);
    var after := WithContent(skills, i, content);
    var j := FindSkill(after, name);
    assert forall k | 0 <= k < |skills| :: after[k].name == skills[k].name;
  }

  /** Truncating and inserting touch only the first skill of the target name. */
  lemma {:induction false} OtherSkillsUntouched(v: Version, p: Patch)
    requires p.Truncate? || p.Insert?
    ensures var w := Step(v, p).0;
            && |w.skills| == |v.skills| && w.servers == v.servers && w.config == v.config && w.rules == v.rules
            && (forall k | 0 <= k < |v.skills| :: w.skills[k].name == v.skills[k].name && w.skills[k].meta == v.skills[k].meta)
            && forall k | 0 <= k < |v.skills| && k != FindSkill(v.skills, p.target) :: w.skills[k] == v.skills[k]
  {
  }

  // --- what a run leaves alone --------------------------------------------------------------------

  /** The skill a patch edits or removes. */
  function Target(p: Patch): set<string> { if p.Truncate? || p.RemoveSkill? || p.Insert? then {p.target} else {} }

  function Targets(patches: seq<Patch>): set<string> {
    if patches == [] then {} else Targets(patches[..|patches| - 1]) + Target(patches[|patches| - 1])
  }

  /** The skills of other names, in order. */
  function Others(skills: seq<Skill>, names: set<string>): seq<Skill> {
    if skills == [] then [] else (if skills[0].name in names then [] else [skills[0]]) + Others(skills[1..], names)
  }

  lemma {:induction false} OthersAppend(a: seq<Skill>, b: seq<Skill>, names: set<string>)
    ensures Others(a + b, names) == Others(a, names) + Others(b, names)
  {
    if a == [] {
      assert a + b == b;
    } else {
      AppendTail(a, b);
      OthersAppend(a[1..], b, names);
    }
  }

  /** Replacing or removing one skill of a listed name leaves the others. */
  lemma {:induction false} OthersSpliced(skills: seq<Skill>, i: nat, put: seq<Skill>, names: set<string>)
    requires i < |skills| && skills[i].name in names && forall k | 0 <= k < |put| :: put[k].name in names
    ensures Others(skills[..i] + put + skills[i + 1..], names) == Others(skills, names)
  {
    var a, b := skills[..i], skills[i + 1..];
    assert skills == a + [skills[i]] + b;
    OthersAppend(a + put, b, names);
    OthersAppend(a, put, names);
    OthersAppend(a + [skills[i]], b, names);
    OthersAppend(a, [skills[i]], names);
    OthersNone(put, names);
    OthersNone([skills[i]], names);
  }

  lemma {:induction false} OthersNone(skills: seq<Skill>, names: set<string>)
    requires forall k | 0 <= k < |skills| :: skills[k].name in names
    ensures Others(skills, names) == []
  {
    if skills != [] { OthersNone(skills[1..], names); }
  }

  /** What one patch does to the list of skills: nothing, or it replaces or removes one target. */
  lemma StepSkills(v: Version, p: Patch) returns (put: seq<Skill>)
    requires Step(v, p).0.skills != v.skills
    ensures p.Truncate? || p.RemoveSkill? || p.Insert?
    ensures Target(p) == {p.target} && forall k | 0 <= k < |put| :: put[k].name == p.target
    ensures var i := FindSkill(v.skills, p.target);
            i < |v.skills| && Step(v, p).0.skills == v.skills[..i] + put + v.skills[i + 1..]
  {
    hide FindSkill, Truncated, Inserted, Split, McpConfig.RemoveSpec, InBounds, CoveredLines;
    var i, skills := FindSkill(v.skills, p.target), Step(v, p).0.skills;
    if p.RemoveSkill? {
      put := [];
      assert v.skills[..i] + [] == v.skills[..i];
    } else {
      put := [skills[i]];
      Replaced(v.skills, i, skills[i]);
    }
  }

  lemma Replaced(s: seq<Skill>, i: nat, x: Skill)
    requires i < |s|
    ensures s[i := x] == s[..i] + [x] + s[i + 1..]
  {
  }

  /** A patch leaves alone what it does not name. */
  lemma StepElsewhere(v: Version, p: Patch)
    ensures var w := Step(v, p).0;
            && (p.RemoveServer? || (w.servers == v.servers && w.config == v.config))
            && (if p.AppendRule? then v.rules <= w.rules else w.rules == v.rules)
  {
    hide FindSkill, Truncated, Inserted, Split, McpConfig.RemoveSpec, InBounds, CoveredLines;
  }

  lemma {:induction false} StepKeepsOthers(v: Version, p: Patch, names: set<string>)
    requires Target(p) <= names
    ensures Others(Step(v, p).0.skills, names) == Others(v.skills, names)
  {
    hide Step, FindSkill, Others, Target;
    if Step(v, p).0.skills != v.skills {
      var put := StepSkills(v, p);
      OthersSpliced(v.skills, FindSkill(v.skills, p.target), put, names);
    }
  }

  /** Whatever a list of patches does, every skill that none of them targets is still there, unchanged
      and in its place among the others; the configuration changes only by a removed server, and rules
      are only ever added at the end. */
  lemma {:induction false} UntargetedKept(v: Version, patches: seq<Patch>, names: set<string>)
    requires Targets(patches) <= names
    ensures var w := Run(v, patches).0;
            && Others(w.skills, names) == Others(v.skills, names)
            && ((forall p | p in patches :: !p.RemoveServer?) ==> w.servers == v.servers && w.config == v.config)
            && v.rules <= w.rules
            && ((forall p | p in patches :: !p.AppendRule?) ==> w.rules == v.rules)
  {
    hide Step, Others, Target;
    if patches != [] {
      var k := |patches| - 1;
      var w, apps := Run(v, patches[..k]).0, Run(v, patches[..k]).1;
      UntargetedKept(v, patches[..k], names);
      StepKeepsOthers(w, patches[k], names);
      StepElsewhere(w, patches[k]);
      RunLast(v, patches, w, apps);
      InitLast(patches);
      assert patches[k] in patches;
      PrefixChain(v.rules, w.rules, Step(w, patches[k]).0.rules);
    }
  }

  lemma PrefixChain(a: seq<string>, b: seq<string>, c: seq<string>)
    requires a <= b && b <= c
    ensures a <= c
  {
  }
}
