/** Building bounded truncate patches from cited ranges (`_skill_truncate_patch` in
    `interstellar/patches.py`) and what becomes of them when they are applied. */
module Patches {
  import opened Common
  import opened Lines
  import opened Ranges
  import opened Harness
  import Sections

  const MAX_PATCH_LINES := 60

  /** Index of the last skill of that name (a dictionary keeps the last), or the number of skills. */
  function LastSkill(skills: seq<Skill>, name: string): (i: nat)
    ensures i <= |skills|
    ensures i < |skills| ==> skills[i].name == name && forall k | i < k < |skills| :: skills[k].name != name
    ensures i == |skills| ==> forall k | 0 <= k < |skills| :: skills[k].name != name
  {
    if skills == [] then 0
    else if skills[|skills| - 1].name == name then |skills| - 1
    else
      var init := skills[..|skills| - 1];
      var i := LastSkill(init, name);
      assert forall k | 0 <= k < |init| :: init[k] == skills[k];
      if i == |init| then |skills| else i
  }

  /** The ranges of an unskipped truncate patch; `None` when the patch is skipped. */
  function Request(skills: seq<Skill>, target: string, cited: seq<Cited>): Option<seq<Range>> {
    var i := LastSkill(skills, target);
    if cited == [] || i == |skills| then None
    else
      var ranges := Coalesced(cited, Some(|Split(skills[i].content)|));
      if ranges == [] || LinesIn(ranges) > MAX_PATCH_LINES then None else Some(ranges)
  }

  /** The number of dangling fragments a deletion leaves in a text. */
  ghost predicate LeavesOrphans(content: string, ranges: seq<Range>, n: nat) {
    exists gone :: Sections.Deletes(ranges, gone) && n == Sections.Orphans(Split(content), gone, |Split(content)|)
  }

  method BuildTruncate(skills: seq<Skill>, target: string, cited: seq<Cited>)
    returns (request: Option<seq<Range>>, dropped: seq<Cited>, orphans: nat)
    ensures request == Request(skills, target, cited)
    ensures var i := LastSkill(skills, target);
            request.Some? ==>
              && dropped == Rejected(cited, Some(|Split(skills[i].content)|))
              && LeavesOrphans(skills[i].content, request.value, orphans)
  {
    if cited == [] { return None, [], 0; }
    var i := LastSkill(skills, target);
    if i == |skills| { return None, [], 0; }
    var lines := Split(skills[i].content);
    var ranges, notes := ValidateAndCoalesce(cited, Some(|lines|));
    if ranges == [] { return None, notes, 0; }
    var count := Sections.CountOrphans(lines, ranges);
    var touched := 0;
    for k := 0 to |ranges|
      invariant touched == LinesIn(ranges[..k])
    {
      assert ranges[..k + 1][..k] == ranges[..k];
      touched := touched + Max(0, ranges[k].end - ranges[k].start + 1);
    }
    assert ranges[..|ranges|] == ranges;
    request := if touched > MAX_PATCH_LINES then None else Some(ranges);
    dropped, orphans := notes, count;
  }

  /** Ranges that cover the same lines lie in the same bounds. */
  lemma CoveredBounds(m: seq<Range>, valid: seq<Range>, limit: nat, i: nat)
    requires i < |m| && m[i].start <= m[i].end && forall x :: Covers(m, x) <==> Covers(valid, x)
    requires forall r | r in valid :: 1 <= r.start <= r.end <= limit
    ensures 1 <= m[i].start <= m[i].end <= limit
  {
    assert Covers(m, m[i].start) && Covers(m, m[i].end);
    assert Covers(valid, m[i].start) && Covers(valid, m[i].end);
  }

  lemma {:induction false} CoalescedFacts(cited: seq<Cited>, limit: nat)
    ensures var valid, m := ValidRanges(cited, Some(limit)), Coalesced(cited, Some(limit));
            && InBounds(m, limit) && Ordered(valid) && Ordered(m) && Separated(1, m)
            && (forall x :: Covers(m, x) <==> Covers(valid, x))
            && LinesIn(m) == |CoveredLines(valid)|
  {
    hide ValidRanges, Fold, SortRanges, LinesIn, CoveredLines, Covers;
    var valid, m := ValidRanges(cited, Some(limit)), Coalesced(cited, Some(limit));
    ValidRangesFacts(cited, Some(limit));
    NormaliserKeepsLines(1, valid, 0);
    forall x ensures Covers(m, x) <==> Covers(valid, x) { NormaliserKeepsLines(1, valid, x); }
    forall i | 0 <= i < |m| ensures 1 <= m[i].start <= m[i].end <= limit { CoveredBounds(m, valid, limit, i); }
    SeparatedCount(m);
    SameLines(m, valid);
  }

  /** An unskipped truncate patch, applied where the first and last skill of its name coincide,
      applies; it deletes exactly the lines in the union of the validly cited ranges, reports
      their number, and that number is between 1 and 60. */
  lemma {:induction false} RequestApplies(v: Version, target: string, cited: seq<Cited>, id: string)
    requires Request(v.skills, target, cited).Some?
    requires FindSkill(v.skills, target) == LastSkill(v.skills, target)
    ensures var i := FindSkill(v.skills, target);
            var content := v.skills[i].content;
            var valid := ValidRanges(cited, Some(|Split(content)|));
            var (w, app) := Step(v, Truncate(id, target, Request(v.skills, target, cited).value));
            && app == Application(id, true, |CoveredLines(valid)|)
            && 1 <= app.linesChanged <= MAX_PATCH_LINES
            && w == v.(skills := WithContent(v.skills, i, Truncated(content, valid)))
  {
    var i := FindSkill(v.skills, target);
    var content := v.skills[i].content;
    var ls := Split(content);
    var ranges, valid := Coalesced(cited, Some(|ls|)), ValidRanges(cited, Some(|ls|));
    CoalescedFacts(cited, |ls|);
    KeepSame(ls, 0, Gone(ranges), Gone(valid));
    SameLines(ranges, valid);
    assert Covers(ranges, ranges[0].start);
    assert ranges[0].start in CoveredLines(valid);
    SetNonempty(CoveredLines(valid), ranges[0].start);
  }

  lemma SetNonempty(s: set<int>, x: int)
    requires x in s
    ensures |s| >= 1
  {
    assert s == (s - {x}) + {x};
  }

  /** In general the patch applies exactly when its ranges fit the first skill of the name, which
      is not the skill they were validated against when the name occurs twice. */
  lemma {:induction false} RequestAppliesExactly(v: Version, target: string, cited: seq<Cited>, id: string)
    requires Request(v.skills, target, cited).Some?
    ensures var first, last := FindSkill(v.skills, target), LastSkill(v.skills, target);
            && first <= last < |v.skills|
            && var ranges := Request(v.skills, target, cited).value;
               Step(v, Truncate(id, target, ranges)).1.applied <==>
               ranges[|ranges| - 1].end <= |Split(v.skills[first].content)|
  {
    hide CoveredLines, FindSkill, LastSkill, LinesIn, Split, ApplyAppendRule, ApplyInsert, ApplyRemoveSkill, Coalesced, RemoveServerSpec, Truncated, WithContent;
    var first, last := FindSkill(v.skills, target), LastSkill(v.skills, target);
    var ranges := Request(v.skills, target, cited).value;
    assert first <= last;
    CoalescedFacts(cited, |Split(v.skills[last].content)|);
    var n, k := |Split(v.skills[first].content)|, |ranges| - 1;
    assert forall i | 0 <= i < k :: ranges[i].end < ranges[k].start;
    assert InBounds(ranges, n) <==> ranges[k].end <= n;
  }

  lemma {:induction false} OneLineTexts()
    ensures |Split("a\n")| == 1 && |Split("a\nb\n")| == 2
  {
    assert "a\nb\n" == "a\n" + "b\n";
    SplitJoin(["a\n"]);
    SplitJoin(["b\n"]);
    assert Join(["a\n"]) == "a\n" + Join(["a\n"][1..]) && Join(["b\n"]) == "b\n" + Join(["b\n"][1..]);
    SplitAppend("a\n", "b\n");
  }

  lemma {:induction false} SecondLineCited()
    ensures Coalesced([Pair(2, 2)], Some(2)) == [Range(2, 2)] && LinesIn([Range(2, 2)]) == 1
  {
    var cited, valid := [Pair(2, 2)], [Range(2, 2)];
    assert cited[..0] == [];
    assert ValidRanges(cited, Some(2)) == ValidRanges(cited[..0], Some(2)) + valid;
    assert valid[1..] == [] && SortRanges(valid) == Sort(Before, valid) == valid;
    assert valid[..0] == [] && Fold(1, valid) == Fold(1, valid[..0]) + valid;
    assert LinesIn(valid) == LinesIn(valid[..0]) + 1;
  }

  /** Two skills of one name: the patch is built against the second and refused by the first. */
  lemma {:induction false} DuplicateNameRefused(id: string)
    ensures var v := Version([Skill("s", "user", "a\n"), Skill("s", "project", "a\nb\n")], [], "", []);
            var request := Request(v.skills, "s", [Pair(2, 2)]);
            request == Some([Range(2, 2)]) && !Step(v, Truncate(id, "s", request.value)).1.applied
  {
    var skills := [Skill("s", "user", "a\n"), Skill("s", "project", "a\nb\n")];
    var v := Version(skills, [], "", []);
    OneLineTexts();
    SecondLineCited();
    assert LastSkill(skills, "s") == 1 && FindSkill(skills, "s") == 0;
    RequestAppliesExactly(v, "s", [Pair(2, 2)], id);
  }

  // --- whole sections -----------------------------------------------------------------------------

  /** The citations of the dropped sections' line ranges, in order. */
  ghost function Citations(s: seq<Range>, dropped: set<int>, n: nat): seq<Cited>
    requires n <= |s|
  {
    if n == 0 then []
    else if n - 1 in dropped then Citations(s, dropped, n - 1) + [Pair(s[n - 1].start, s[n - 1].end)]
    else Citations(s, dropped, n - 1)
  }

  /** Citing sections covers exactly their lines; only a section without lines is refused. */
  lemma {:induction false} CitedSections(lines: seq<string>, s: seq<Range>, dropped: set<int>, n: nat, x: int)
    requires Sections.IsSectioning(lines, s) && n <= |s|
    ensures Covers(ValidRanges(Citations(s, dropped, n), Some(|lines|)), x) <==> Covers(Sections.DroppedRanges(s, dropped, n), x)
  {
    if n > 0 {
      CitedSections(lines, s, dropped, n - 1, x);
      Sections.SectionBounds(lines, s, n - 1);
      if n - 1 in dropped {
        var before, c := Citations(s, dropped, n - 1), Pair(s[n - 1].start, s[n - 1].end);
        AppendInit(before, [c]);
        assert before + [] == before;
        CoversAppended(Sections.DroppedRanges(s, dropped, n - 1), s[n - 1], x);
        CoversAppended(ValidRanges(before, Some(|lines|)), s[n - 1], x);
      }
    }
  }

  /** Deleting the lines of whole sections, whatever ranges name them. */
  lemma {:induction false} SectionsTruncated(content: string, s: seq<Range>, dropped: set<int>, ranges: seq<Range>)
    requires Sections.IsSectioning(Split(content), s)
    requires forall x :: Covers(ranges, x) <==> Covers(Sections.DroppedRanges(s, dropped, |s|), x)
    ensures Truncated(content, ranges) == Join(Sections.Concat(Split(content), s, dropped, |s|))
    ensures Sections.HeadingsHaveBodies(Split(content)) ==> forall n | LeavesOrphans(content, ranges, n) :: n == 0
  {
    hide Join, Split, Covers, Sections.DroppedRanges, Sections.Concat, Sections.Orphans;
    var ls, whole := Split(content), Sections.DroppedRanges(s, dropped, |s|);
    Sections.DropSections(ls, s, dropped);
    KeepSame(ls, 0, Gone(ranges), Gone(whole));
    Sections.WholeSectionsLeaveNoOrphan(ls, s);
    if Sections.HeadingsHaveBodies(ls) {
      forall n | LeavesOrphans(content, ranges, n)
        ensures n == 0
      {
        var gone :| Sections.Deletes(ranges, gone) && n == Sections.Orphans(ls, gone, |ls|);
        assert Sections.DropsSections(s, dropped, gone);
      }
    }
  }

  /** Citing whole sections of a uniquely named skill, between 1 and 60 lines in all, yields a patch
      that applies, reports those lines and leaves the other sections one after another; and no
      dangling fragment when every heading has a following line that is not a heading. */
  lemma {:induction false} WholeSectionTruncation(v: Version, target: string, s: seq<Range>, dropped: set<int>, id: string)
    requires FindSkill(v.skills, target) == LastSkill(v.skills, target) < |v.skills|
    requires Sections.IsSectioning(Split(v.skills[FindSkill(v.skills, target)].content), s)
    ensures var i := FindSkill(v.skills, target);
            var content, request := v.skills[i].content, Request(v.skills, target, Citations(s, dropped, |s|));
            var lines := |CoveredLines(Sections.DroppedRanges(s, dropped, |s|))|;
            && (request.Some? <==> 1 <= lines <= MAX_PATCH_LINES)
            && (request.Some? ==>
                  && Step(v, Truncate(id, target, request.value))
                     == (v.(skills := WithContent(v.skills, i, Join(Sections.Concat(Split(content), s, dropped, |s|)))),
                         Application(id, true, lines))
                  && (Sections.HeadingsHaveBodies(Split(content)) ==>
                        forall n | LeavesOrphans(content, request.value, n) :: n == 0))
  {
    hide Join, Split, Covers, Step, FindSkill, LastSkill, ValidRanges, Truncated, Citations, LeavesOrphans, CoveredLines,
         Sections.DroppedRanges, Sections.Concat, Sections.IsSectioning, Sections.HeadingsHaveBodies, Coalesced, LinesIn;
    var i := FindSkill(v.skills, target);
    var content := v.skills[i].content;
    var ls, cited, whole := Split(content), Citations(s, dropped, |s|), Sections.DroppedRanges(s, dropped, |s|);
    var valid, ranges := ValidRanges(cited, Some(|ls|)), Coalesced(cited, Some(|ls|));
    forall x ensures Covers(valid, x) <==> Covers(whole, x) { CitedSections(ls, s, dropped, |s|, x); }
    CoalescedFacts(cited, |ls|);
    SameLines(valid, whole);
    RequestedLines(v.skills, target, cited, i);
    if Request(v.skills, target, cited).Some? {
      RequestApplies(v, target, cited, id);
      SectionsTruncated(content, s, dropped, valid);
      SectionsTruncated(content, s, dropped, ranges);
    }
  }

  /** A patch is built exactly when the valid citations cover between 1 and 60 lines. */
  lemma {:induction false} RequestedLines(skills: seq<Skill>, target: string, cited: seq<Cited>, i: nat)
    requires i == LastSkill(skills, target) < |skills|
    ensures var lines := |CoveredLines(ValidRanges(cited, Some(|Split(skills[i].content)|)))|;
            Request(skills, target, cited).Some? <==> 1 <= lines <= MAX_PATCH_LINES
  {
    hide Split, LastSkill, Covers;
    var limit := |Split(skills[i].content)|;
    var valid, m := ValidRanges(cited, Some(limit)), Coalesced(cited, Some(limit));
    CoalescedFacts(cited, limit);
    if m == [] {
      assert LinesIn(m) == 0;
    } else {
      RangeCounted(m, m[0].start);
      SameLines(m, valid);
    }
    if cited == [] { assert valid == [] && m == []; }
  }

  lemma RangeCounted(m: seq<Range>, x: int)
    requires m != [] && Ordered(m) && x == m[0].start
    ensures |CoveredLines(m)| >= 1
  {
    assert Covers(m, x);
    SetNonempty(CoveredLines(m), x);
  }
}
