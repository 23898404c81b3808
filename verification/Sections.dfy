/** Skill sections (`split_sections` in `normalizer/grok_normalize.py`) and the dangling fragments
    a range deletion leaves (`_count_orphans` in `interstellar/patches.py`). Lines are numbered
    from 1. */
module Sections {
  import opened Common
  import opened Ranges
  import opened Lines

  predicate IsHeading(line: string) { |line| >= 3 && line[0] == '#' && line[1] == '#' && line[2] == ' ' }

  /** Line `x`, counted from 1, is a heading. */
  predicate HeadingAt(lines: seq<string>, x: int) { 1 <= x <= |lines| && IsHeading(lines[x - 1]) }

  // --- splitting ------------------------------------------------------------------------

  /** All heading lines, ascending. */
  ghost predicate IsMarks(lines: seq<string>, marks: seq<int>, n: int) {
    && (forall k | 0 <= k < |marks| :: marks[k] <= n && HeadingAt(lines, marks[k]))
    && (forall k, l | 0 <= k < l < |marks| :: marks[k] < marks[l])
    && (forall x | HeadingAt(lines, x) && x <= n :: x in marks)
  }

  /** Consecutive ranges from line 1 to line `end`; every boundary is a heading and no section
      holds a second heading. */
  ghost predicate IsChain(lines: seq<string>, s: seq<Range>, end: int) {
    && 0 <= end <= |lines|
    && (if s == [] then end == 0 else s[0].start == 1 && s[|s| - 1].end == end)
    && (forall l | 0 <= l < |s| :: 1 <= s[l].start && s[l].start - 1 <= s[l].end <= end)
    && (forall k, l | 0 <= k && k + 1 == l < |s| :: s[l].start == s[k].end + 1)
    && (forall l | 0 < l < |s| :: s[l].start <= s[l].end && HeadingAt(lines, s[l].start))
    && (forall l, x | 0 <= l < |s| && s[l].start < x <= s[l].end :: !HeadingAt(lines, x))
  }

  /** The chain covers the whole text, and only the one section of an empty text is empty. A text
      without headings is one section. */
  ghost predicate IsSectioning(lines: seq<string>, s: seq<Range>) {
    s != [] && IsChain(lines, s, |lines|) && (lines != [] ==> s[0].start <= s[0].end)
  }

  lemma {:induction false} ChainAppend(lines: seq<string>, s: seq<Range>, end: int, r: Range)
    requires IsChain(lines, s, end)
    requires r.start == end + 1 && r.start <= r.end <= |lines| && (s != [] ==> HeadingAt(lines, r.start))
    requires forall x | r.start < x <= r.end :: !HeadingAt(lines, x)
    ensures IsChain(lines, s + [r], r.end)
  {
  }

  lemma {:induction false} NoHeadingBetween(lines: seq<string>, marks: seq<int>, k: int)
    requires IsMarks(lines, marks, |lines|) && -1 <= k < |marks|
    ensures var lo := if k < 0 then 0 else marks[k];
            var hi := if k + 1 < |marks| then marks[k + 1] else |lines| + 1;
            lo < hi && forall x | lo < x < hi :: !HeadingAt(lines, x)
  {
    assert k >= 0 ==> HeadingAt(lines, marks[k]);
    assert k + 1 < |marks| ==> HeadingAt(lines, marks[k + 1]);
    var lo, hi := if k < 0 then 0 else marks[k], if k + 1 < |marks| then marks[k + 1] else |lines| + 1;
    forall x | lo < x < hi
      ensures !HeadingAt(lines, x)
    {
      forall j | 0 <= j < |marks|
        ensures marks[j] != x
      {
        assert j < k ==> marks[j] < marks[k];
        assert k + 1 < j ==> marks[k + 1] < marks[j];
      }
      assert x !in marks;
    }
  }

  method HeadingLines(lines: seq<string>) returns (marks: seq<int>)
    ensures IsMarks(lines, marks, |lines|)
  {
    marks := [];
    for i := 0 to |lines|
      invariant IsMarks(lines, marks, i)
    {
      if IsHeading(lines[i]) {
        assert HeadingAt(lines, i + 1);
        marks := marks + [i + 1];
      }
    }
  }

  /** The title of the section that starts at a line. */
  ghost function Title(lines: seq<string>, start: int): string {
    if HeadingAt(lines, start) then Strip(lines[start - 1][3..])
    else if exists x :: HeadingAt(lines, x) then "(preamble)"
    else "(whole body)"
  }

  ghost predicate Titled(lines: seq<string>, s: seq<Range>, titles: seq<string>) {
    |titles| == |s| && forall k | 0 <= k < |s| :: titles[k] == Title(lines, s[k].start)
  }

  /** Sections up to line `end`, none of them empty, with their titles. */
  ghost predicate SectionedTo(lines: seq<string>, s: seq<Range>, titles: seq<string>, end: int) {
    IsChain(lines, s, end) && (s != [] ==> s[0].start <= s[0].end) && Titled(lines, s, titles)
  }

  lemma HeadingTitle(lines: seq<string>, x: int)
    requires HeadingAt(lines, x)
    ensures |lines[x - 1]| >= 3 && Title(lines, x) == Strip(lines[x - 1][3..])
  {
  }

  lemma {:induction false} SectionedAppend(lines: seq<string>, s: seq<Range>, titles: seq<string>, r: Range)
    requires SectionedTo(lines, s, titles, r.start - 1) && HeadingAt(lines, r.start) && r.start <= r.end <= |lines|
    requires forall x | r.start < x <= r.end :: !HeadingAt(lines, x)
    ensures SectionedTo(lines, s + [r], titles + [Title(lines, r.start)], r.end)
  {
    hide HeadingAt, Title;
    ChainAppend(lines, s, r.start - 1, r);
    TitledAppend(lines, s, titles, r);
  }

  lemma TitledAppend(lines: seq<string>, s: seq<Range>, titles: seq<string>, r: Range)
    requires Titled(lines, s, titles)
    ensures Titled(lines, s + [r], titles + [Title(lines, r.start)])
  {
    hide Title;
  }

  lemma PreambleSection(lines: seq<string>, first: int)
    requires HeadingAt(lines, first) && forall x | 0 < x < first :: !HeadingAt(lines, x)
    ensures SectionedTo(lines, [], [], 0)
    ensures first > 1 ==> SectionedTo(lines, [Range(1, first - 1)], ["(preamble)"], first - 1)
  {
    hide IsHeading, Strip;
  }

  lemma WholeBody(lines: seq<string>)
    requires forall x | 0 < x < |lines| + 1 :: !HeadingAt(lines, x)
    ensures IsSectioning(lines, [Range(1, |lines|)]) && Titled(lines, [Range(1, |lines|)], ["(whole body)"])
  {
    assert forall x :: !HeadingAt(lines, x);
  }

  method SplitSections(lines: seq<string>) returns (sections: seq<Range>, titles: seq<string>)
    ensures IsSectioning(lines, sections) && Titled(lines, sections, titles)
  {
    hide Strip, IsHeading, Title, SectionedTo, IsSectioning, Titled;
    var marks := HeadingLines(lines);
    NoHeadingBetween(lines, marks, -1);
    if marks == [] {
      WholeBody(lines);
      return [Range(1, |lines|)], ["(whole body)"];
    }
    assert HeadingAt(lines, marks[0]);
    PreambleSection(lines, marks[0]);
    sections, titles := [], [];
    if marks[0] > 1 { sections, titles := [Range(1, marks[0] - 1)], ["(preamble)"]; }
    for k := 0 to |marks|
      invariant SectionedTo(lines, sections, titles, if k < |marks| then marks[k] - 1 else |lines|)
      invariant k > 0 ==> sections != []
    {
      var end := if k + 1 < |marks| then marks[k + 1] - 1 else |lines|;
      NoHeadingBetween(lines, marks, k);
      assert HeadingAt(lines, marks[k]);
      HeadingTitle(lines, marks[k]);
      SectionedAppend(lines, sections, titles, Range(marks[k], end));
      sections, titles := sections + [Range(marks[k], end)], titles + [Strip(lines[marks[k] - 1][3..])];
    }
    AllSections(lines, sections, titles);
  }

  lemma AllSections(lines: seq<string>, s: seq<Range>, titles: seq<string>)
    requires SectionedTo(lines, s, titles, |lines|) && s != []
    ensures IsSectioning(lines, s) && Titled(lines, s, titles)
  {
  }

  /** Two sectionings that agree on their first sections agree on the next one. */
  lemma {:induction false} NextSectionSame(lines: seq<string>, s: seq<Range>, t: seq<Range>, k: nat)
    requires IsSectioning(lines, s) && IsSectioning(lines, t) && lines != [] && k < |s| && k < |t|
    requires forall i | 0 <= i < k :: s[i] == t[i]
    ensures s[k] == t[k]
  {
    assert s[k].start == t[k].start by {
      if k > 0 { assert s[k - 1] == t[k - 1]; }
    }
    EndsNoEarlier(lines, s, t, k);
    EndsNoEarlier(lines, t, s, k);
  }

  /** A section does not end before another one that starts with it: the line after its end would be
      a heading inside that one. */
  lemma {:induction false} EndsNoEarlier(lines: seq<string>, s: seq<Range>, t: seq<Range>, k: nat)
    requires IsSectioning(lines, s) && IsSectioning(lines, t) && lines != [] && k < |s| && k < |t|
    requires s[k].start == t[k].start
    ensures t[k].end <= s[k].end
  {
    hide HeadingAt;
    assert s[k].start <= s[k].end && (k + 1 == |s| ==> s[k].end == |lines|);
    assert k + 1 < |s| ==> s[k + 1].start == s[k].end + 1 && HeadingAt(lines, s[k + 1].start);
  }

  /** A text has one sectioning. */
  lemma {:induction false} SectioningUnique(lines: seq<string>, s: seq<Range>, t: seq<Range>)
    requires IsSectioning(lines, s) && IsSectioning(lines, t)
    ensures s == t
  {
    if lines == [] {
      EmptySectioning(lines, s);
      EmptySectioning(lines, t);
    } else {
      SamePrefix(lines, s, t, if |s| <= |t| then |s| else |t|);
      NoShorter(lines, s, t);
      NoShorter(lines, t, s);
    }
  }

  lemma EmptySectioning(lines: seq<string>, s: seq<Range>)
    requires lines == [] && IsSectioning(lines, s)
    ensures s == [Range(1, 0)]
  {
    if |s| > 1 { assert false; }
  }

  lemma {:induction false} SamePrefix(lines: seq<string>, s: seq<Range>, t: seq<Range>, n: nat)
    requires IsSectioning(lines, s) && IsSectioning(lines, t) && lines != [] && n <= |s| && n <= |t|
    ensures forall i | 0 <= i < n :: s[i] == t[i]
  {
    if n > 0 {
      SamePrefix(lines, s, t, n - 1);
      NextSectionSame(lines, s, t, n - 1);
    }
  }

  lemma EndsLater(lines: seq<string>, t: seq<Range>, k: nat)
    requires IsSectioning(lines, t) && k + 1 < |t|
    ensures t[k].end < |lines|
  {
    assert t[k + 1].start == t[k].end + 1 && t[k + 1].start <= t[k + 1].end;
  }

  lemma {:induction false} NoShorter(lines: seq<string>, s: seq<Range>, t: seq<Range>)
    requires IsSectioning(lines, s) && IsSectioning(lines, t)
    requires forall i | 0 <= i < |s| && i < |t| :: s[i] == t[i]
    ensures |t| <= |s|
  {
    if |s| < |t| {
      EndsLater(lines, t, |s| - 1);
      assert false;
    }
  }

  function SectionLines(lines: seq<string>, r: Range): seq<string>
    requires 1 <= r.start && r.start - 1 <= r.end <= |lines|
  {
    lines[r.start - 1..r.end]
  }

  lemma {:induction false} SectionEnds(lines: seq<string>, s: seq<Range>, k: int, l: int)
    requires IsSectioning(lines, s) && 0 <= k < l < |s|
    ensures s[k].end < s[l].start
  {
    if k + 1 < l { SectionEnds(lines, s, k, l - 1); }
  }

  lemma SectionBounds(lines: seq<string>, s: seq<Range>, k: int)
    requires IsSectioning(lines, s) && 0 <= k < |s|
    ensures 1 <= s[k].start && s[k].start - 1 <= s[k].end <= |lines|
  {
  }

  /** The kept sections' lines, one section after another. */
  ghost function Concat(lines: seq<string>, s: seq<Range>, dropped: set<int>, n: nat): seq<string>
    requires IsSectioning(lines, s) && n <= |s|
  {
    if n == 0 then []
    else if n - 1 in dropped then Concat(lines, s, dropped, n - 1)
    else
      SectionBounds(lines, s, n - 1);
      Concat(lines, s, dropped, n - 1) + SectionLines(lines, s[n - 1])
  }

  /** The ranges of the dropped sections, in order. */
  ghost function DroppedRanges(s: seq<Range>, dropped: set<int>, n: nat): seq<Range>
    requires n <= |s|
  {
    if n == 0 then []
    else if n - 1 in dropped then DroppedRanges(s, dropped, n - 1) + [s[n - 1]]
    else DroppedRanges(s, dropped, n - 1)
  }

  ghost predicate InDropped(s: seq<Range>, dropped: set<int>, n: nat, x: int)
    requires n <= |s|
  {
    exists k :: 0 <= k < n && k in dropped && s[k].start <= x <= s[k].end
  }

  lemma {:induction false} DroppedCovers(s: seq<Range>, dropped: set<int>, n: nat, x: int)
    requires n <= |s|
    ensures Covers(DroppedRanges(s, dropped, n), x) <==> InDropped(s, dropped, n, x)
  {
    if n > 0 {
      DroppedCovers(s, dropped, n - 1, x);
      assert InDropped(s, dropped, n, x) <==>
             InDropped(s, dropped, n - 1, x) || (n - 1 in dropped && s[n - 1].start <= x <= s[n - 1].end);
      CoversAppended(DroppedRanges(s, dropped, n - 1), s[n - 1], x);
    }
  }

  /** A line of a section is deleted exactly when its section is dropped. */
  lemma {:induction false} SectionDeleted(lines: seq<string>, s: seq<Range>, dropped: set<int>, l: int, x: int)
    requires IsSectioning(lines, s) && 0 <= l < |s| && s[l].start <= x <= s[l].end
    ensures Covers(DroppedRanges(s, dropped, |s|), x) <==> l in dropped
  {
    DroppedCovers(s, dropped, |s|, x);
    forall k | 0 <= k < |s| && s[k].start <= x <= s[k].end
      ensures k == l
    {
      if k < l { SectionEnds(lines, s, k, l); }
      if l < k { SectionEnds(lines, s, l, k); }
    }
  }

  /** Lines are deleted by whole sections. */
  ghost predicate ByWholeSections(s: seq<Range>, dropped: set<int>, gone: int -> bool) {
    forall l, x | 0 <= l < |s| && s[l].start <= x <= s[l].end :: gone(x) <==> l in dropped
  }

  lemma {:induction false} SectionKept(lines: seq<string>, s: seq<Range>, dropped: set<int>, gone: int -> bool, l: int)
    requires IsSectioning(lines, s) && 0 <= l < |s| && ByWholeSections(s, dropped, gone)
    ensures s[l].start - 1 <= s[l].end <= |lines|
    ensures Keep(SectionLines(lines, s[l]), s[l].start - 1, gone) == if l in dropped then [] else SectionLines(lines, s[l])
  {
    hide Keep, HeadingAt;
    var r := s[l];
    var sec := SectionLines(lines, r);
    if l in dropped { KeepNone(sec, r.start - 1, gone); } else { KeepAll(sec, r.start - 1, gone); }
  }

  lemma FirstSection(lines: seq<string>, s: seq<Range>)
    requires IsSectioning(lines, s)
    ensures s[0].start == 1
  {
  }

  lemma ConcatNext(lines: seq<string>, s: seq<Range>, dropped: set<int>, n: nat)
    requires IsSectioning(lines, s) && 0 < n <= |s|
    ensures 1 <= s[n - 1].start && s[n - 1].start - 1 <= s[n - 1].end <= |lines|
    ensures Concat(lines, s, dropped, n)
            == Concat(lines, s, dropped, n - 1) + if n - 1 in dropped then [] else SectionLines(lines, s[n - 1])
    ensures Concat(lines, s, dropped, 0) == []
  {
    SectionBounds(lines, s, n - 1);
  }

  lemma SectionFollows(lines: seq<string>, s: seq<Range>, l: int)
    requires IsSectioning(lines, s) && 0 < l < |s|
    ensures s[l].start == s[l - 1].end + 1
  {
  }

  lemma {:induction false} DropPrefix(lines: seq<string>, s: seq<Range>, dropped: set<int>, gone: int -> bool, n: nat)
    requires IsSectioning(lines, s) && 0 < n <= |s| && ByWholeSections(s, dropped, gone)
    ensures 0 <= s[n - 1].end <= |lines|
    ensures Keep(lines[..s[n - 1].end], 0, gone) == Concat(lines, s, dropped, n)
  {
    hide HeadingAt, Keep, IsSectioning, Concat, ByWholeSections;
    ConcatNext(lines, s, dropped, n);
    var r := s[n - 1];
    SectionBounds(lines, s, n - 1);
    SectionKept(lines, s, dropped, gone, n - 1);
    FirstSection(lines, s);
    if n == 1 {
      assert lines[..r.end] == SectionLines(lines, r);
    } else {
      DropPrefix(lines, s, dropped, gone, n - 1);
      SectionFollows(lines, s, n - 1);
      var before := lines[..s[n - 2].end];
      assert lines[..r.end] == before + SectionLines(lines, r);
      KeepAppend(before, SectionLines(lines, r), 0, gone);
      assert Concat(lines, s, dropped, n - 1) + [] == Concat(lines, s, dropped, n - 1);
    }
  }

  lemma DroppedByWhole(lines: seq<string>, s: seq<Range>, dropped: set<int>)
    requires IsSectioning(lines, s)
    ensures ByWholeSections(s, dropped, Gone(DroppedRanges(s, dropped, |s|)))
  {
    hide DroppedRanges, Covers, IsSectioning;
    forall l, x | 0 <= l < |s| && s[l].start <= x <= s[l].end
      ensures Gone(DroppedRanges(s, dropped, |s|))(x) <==> l in dropped
    {
      SectionDeleted(lines, s, dropped, l, x);
    }
  }

  /** Deleting whole sections leaves the other sections, one after another; dropping none gives
      the text back, so the sections partition it. */
  lemma {:induction false} DropSections(lines: seq<string>, s: seq<Range>, dropped: set<int>)
    requires IsSectioning(lines, s)
    ensures Keep(lines, 0, Gone(DroppedRanges(s, dropped, |s|))) == Concat(lines, s, dropped, |s|)
    ensures Concat(lines, s, {}, |s|) == lines
  {
    hide Keep, HeadingAt, Concat, DroppedRanges, Covers;
    TakeAll(lines);
    DroppedByWhole(lines, s, dropped);
    DropPrefix(lines, s, dropped, Gone(DroppedRanges(s, dropped, |s|)), |s|);
    var none := (x: int) => false;
    DropPrefix(lines, s, {}, none, |s|);
    KeepAll(lines, 0, none);
  }

  // --- orphans ---------------------------------------------------------------------------

  ghost predicate Survives(lines: seq<string>, gone: set<int>, x: int) { 1 <= x <= |lines| && x !in gone }

  ghost predicate AllGone(gone: set<int>, lo: int, hi: int) { forall x | lo <= x <= hi :: x in gone }

  /** A surviving heading with no body: the next survivor is another heading, or there is none. */
  ghost predicate BareHeading(lines: seq<string>, gone: set<int>, x: int) {
    && Survives(lines, gone, x) && HeadingAt(lines, x)
    && forall y | x < y && Survives(lines, gone, y) && AllGone(gone, x + 1, y - 1) :: HeadingAt(lines, y)
  }

  /** Surviving text right after a deleted block that held a heading. */
  ghost predicate StrayText(lines: seq<string>, gone: set<int>, x: int) {
    && Survives(lines, gone, x) && !HeadingAt(lines, x) && !IsBlank(lines[x - 1])
    && exists h :: h < x && HeadingAt(lines, h) && AllGone(gone, h, x - 1)
  }

  ghost predicate Orphan(lines: seq<string>, gone: set<int>, x: int) {
    BareHeading(lines, gone, x) || StrayText(lines, gone, x)
  }

  ghost function Orphans(lines: seq<string>, gone: set<int>, n: nat): nat {
    if n == 0 then 0 else Orphans(lines, gone, n - 1) + if Orphan(lines, gone, n) then 1 else 0
  }

  lemma {:induction false} OrphansSkip(lines: seq<string>, gone: set<int>, a: nat, b: nat)
    requires a <= b && forall x | a < x <= b :: !Orphan(lines, gone, x)
    ensures Orphans(lines, gone, b) == Orphans(lines, gone, a)
  {
    if a < b { OrphansSkip(lines, gone, a, b - 1); }
  }

  /** Survivors in ascending order. */
  ghost predicate IsSurvivors(lines: seq<string>, gone: set<int>, s: seq<int>, n: int) {
    && (forall k | 0 <= k < |s| :: Survives(lines, gone, s[k]) && s[k] <= n)
    && (forall k, l | 0 <= k < l < |s| :: s[k] < s[l])
    && (forall x | Survives(lines, gone, x) && x <= n :: x in s)
  }

  /** Between neighbouring survivors, and past the ends, everything is deleted. */
  lemma SurvivorGap(lines: seq<string>, gone: set<int>, s: seq<int>, k: int)
    requires IsSurvivors(lines, gone, s, |lines|) && 0 <= k <= |s|
    ensures var lo := if k == 0 then 0 else s[k - 1];
            var hi := if k == |s| then |lines| + 1 else s[k];
            forall x | lo < x < hi :: x in gone
  {
    var lo := if k == 0 then 0 else s[k - 1];
    var hi := if k == |s| then |lines| + 1 else s[k];
    forall x | lo < x < hi
      ensures x in gone
    {
      forall j | 0 <= j < |s|
        ensures s[j] != x
      {
        assert j < k - 1 ==> s[j] < s[k - 1];
        assert k < j ==> s[k] < s[j];
      }
      assert x !in s;
      assert !Survives(lines, gone, x);
    }
  }

  /** `gone` holds exactly the line numbers the ranges cover. */
  ghost predicate Deletes(ranges: seq<Range>, gone: set<int>) { forall x :: x in gone <==> Covers(ranges, x) }

  lemma MoreDeleted(ranges: seq<Range>, i: nat, gone: set<int>)
    requires i < |ranges| && Deletes(ranges[..i], gone)
    ensures Deletes(ranges[..i + 1], gone + Interval(ranges[i].start, ranges[i].end))
  {
    hide Covers;
    assert ranges[..i + 1] == ranges[..i] + [ranges[i]];
    forall x
      ensures x in gone + Interval(ranges[i].start, ranges[i].end) <==> Covers(ranges[..i + 1], x)
    {
      CoversAppended(ranges[..i], ranges[i], x);
    }
  }

  method DeletedLines(ranges: seq<Range>) returns (gone: set<int>)
    ensures Deletes(ranges, gone)
  {
    gone := {};
    for i := 0 to |ranges|
      invariant Deletes(ranges[..i], gone)
    {
      MoreDeleted(ranges, i, gone);
      gone := gone + Interval(ranges[i].start, ranges[i].end);
    }
    assert ranges[..|ranges|] == ranges;
  }

  /** Walks back over the deleted block right before line `x`. */
  method BlockHadHeading(lines: seq<string>, gone: set<int>, x: int) returns (had: bool)
    requires 1 <= x <= |lines|
    ensures had <==> exists h :: h < x && HeadingAt(lines, h) && AllGone(gone, h, x - 1)
  {
    var j := x - 1;
    had := false;
    while j >= 1 && j in gone
      invariant 0 <= j < x && AllGone(gone, j + 1, x - 1)
      invariant had <==> exists h :: j < h < x && HeadingAt(lines, h)
    {
      if IsHeading(lines[j - 1]) {
        assert HeadingAt(lines, j);
        had := true;
      }
      j := j - 1;
    }
    if had {
      var h :| j < h < x && HeadingAt(lines, h);
      assert AllGone(gone, h, x - 1);
    }
  }

  method Survivors(lines: seq<string>, gone: set<int>) returns (survivors: seq<int>)
    ensures IsSurvivors(lines, gone, survivors, |lines|)
  {
    survivors := [];
    for i := 0 to |lines|
      invariant IsSurvivors(lines, gone, survivors, i)
    {
      if i + 1 !in gone {
        assert Survives(lines, gone, i + 1);
        survivors := survivors + [i + 1];
      }
    }
  }

  lemma NoOrphanYet(lines: seq<string>, gone: set<int>)
    ensures Orphans(lines, gone, 0) == 0
  {
  }

  lemma OneMoreLine(lines: seq<string>, gone: set<int>, n: nat)
    requires n > 0
    ensures Orphans(lines, gone, n) == Orphans(lines, gone, n - 1) + if Orphan(lines, gone, n) then 1 else 0
    ensures HeadingAt(lines, n) ==> !StrayText(lines, gone, n)
    ensures !HeadingAt(lines, n) ==> !BareHeading(lines, gone, n)
  {
  }

  method CountOrphans(lines: seq<string>, ranges: seq<Range>) returns (count: nat)
    ensures exists gone :: Deletes(ranges, gone) && count == Orphans(lines, gone, |lines|)
  {
    hide Covers, Orphans, BareHeading, IsBlank, IsHeading, AllGone;
    var gone := DeletedLines(ranges);
    var survivors := Survivors(lines, gone);
    NoOrphanYet(lines, gone);
    count := 0;
    var n := |survivors|;
    for k := 0 to n
      invariant count == Orphans(lines, gone, Previous(survivors, k))
    {
      var x := survivors[k];
      SkipToSurvivor(lines, gone, survivors, k);
      OneMoreLine(lines, gone, x);
      if IsHeading(lines[x - 1]) {
        BareHeadingNext(lines, gone, survivors, k);
        if k + 1 == n || IsHeading(lines[survivors[k + 1] - 1]) { count := count + 1; }
      } else if !IsBlank(lines[x - 1]) {
        var had := BlockHadHeading(lines, gone, x);
        if had { count := count + 1; }
      }
    }
    SkipToSurvivor(lines, gone, survivors, n);
  }

  /** The line number of the survivor before the `k`th, or zero. */
  ghost function Previous(s: seq<int>, k: int): (p: nat)
    requires 0 <= k <= |s| && forall i | 0 <= i < |s| :: s[i] >= 1
  {
    if k == 0 then 0 else s[k - 1]
  }

  lemma {:induction false} SkipToSurvivor(lines: seq<string>, gone: set<int>, s: seq<int>, k: int)
    requires IsSurvivors(lines, gone, s, |lines|) && 0 <= k <= |s|
    ensures forall i | 0 <= i < |s| :: s[i] >= 1
    ensures Orphans(lines, gone, if k == |s| then |lines| else s[k] - 1) == Orphans(lines, gone, Previous(s, k))
  {
    SurvivorGap(lines, gone, s, k);
    assert k > 0 && k < |s| ==> s[k - 1] < s[k];
    OrphansSkip(lines, gone, Previous(s, k), if k == |s| then |lines| else s[k] - 1);
  }

  lemma BareHeadingNext(lines: seq<string>, gone: set<int>, s: seq<int>, k: int)
    requires IsSurvivors(lines, gone, s, |lines|) && 0 <= k < |s| && HeadingAt(lines, s[k])
    ensures BareHeading(lines, gone, s[k]) <==> k + 1 == |s| || HeadingAt(lines, s[k + 1])
  {
    var x := s[k];
    SurvivorGap(lines, gone, s, k + 1);
    forall y | x < y && Survives(lines, gone, y) && AllGone(gone, x + 1, y - 1)
      ensures k + 1 < |s| && y == s[k + 1]
    {
      var j :| 0 <= j < |s| && s[j] == y;
      assert forall i | 0 <= i < k :: s[i] < s[k];
      assert forall i | k + 1 < i < |s| :: s[k] < s[k + 1] < s[i];
      assert k + 1 < |s| ==> s[k + 1] !in gone;
    }
    if k + 1 < |s| { assert Survives(lines, gone, s[k + 1]) && AllGone(gone, x + 1, s[k + 1] - 1); }
  }

  // --- dropping whole sections leaves no orphan ----------------------------------------------

  /** Every heading is followed by a line that is not a heading. */
  ghost predicate HeadingsHaveBodies(lines: seq<string>) {
    forall x | HeadingAt(lines, x) :: x + 1 <= |lines| && !HeadingAt(lines, x + 1)
  }

  lemma {:induction false} SectionOf(lines: seq<string>, s: seq<Range>, x: int, n: nat) returns (l: int)
    requires IsSectioning(lines, s) && n < |s| && 1 <= x <= s[n].end
    ensures 0 <= l <= n && s[l].start <= x <= s[l].end
  {
    if s[n].start <= x { l := n; } else { l := SectionOf(lines, s, x, n - 1); }
  }

  ghost predicate DropsSections(s: seq<Range>, dropped: set<int>, gone: set<int>) {
    Deletes(DroppedRanges(s, dropped, |s|), gone)
  }

  lemma {:induction false} NoOrphanInSections(lines: seq<string>, s: seq<Range>, dropped: set<int>, gone: set<int>, x: int)
    requires IsSectioning(lines, s) && HeadingsHaveBodies(lines) && DropsSections(s, dropped, gone)
    requires 1 <= x <= |lines|
    ensures !Orphan(lines, gone, x)
  {
    if x in gone { return; }
    var l := SectionOf(lines, s, x, |s| - 1);
    SectionDeleted(lines, s, dropped, l, x);
    if HeadingAt(lines, x) {
      var l' := SectionOf(lines, s, x + 1, |s| - 1);
      assert l' == l by {
        if l' < l { SectionEnds(lines, s, l', l); }
        if l < l' { SectionEnds(lines, s, l, l'); }
      }
      SectionDeleted(lines, s, dropped, l, x + 1);
      assert Survives(lines, gone, x + 1) && AllGone(gone, x + 1, x);
    } else if x > 1 {
      assert s[l].start <= x - 1;
      SectionDeleted(lines, s, dropped, l, x - 1);
      assert x - 1 !in gone;
    }
  }

  lemma {:induction false} NoOrphans(lines: seq<string>, gone: set<int>, n: nat)
    requires forall x | 1 <= x <= n :: !Orphan(lines, gone, x)
    ensures Orphans(lines, gone, n) == 0
  {
    if n > 0 { NoOrphans(lines, gone, n - 1); }
  }

  lemma {:induction false} OrphanCounts(lines: seq<string>, gone: set<int>, n: nat, x: int)
    requires 1 <= x <= n && Orphan(lines, gone, x)
    ensures Orphans(lines, gone, n) > 0
  {
    if x < n { OrphanCounts(lines, gone, n - 1, x); }
  }

  /** Dropping any set of whole sections leaves no orphan exactly for the texts whose every
      heading has a following non-heading line. */
  lemma {:induction false} WholeSectionsLeaveNoOrphan(lines: seq<string>, s: seq<Range>)
    requires IsSectioning(lines, s)
    ensures HeadingsHaveBodies(lines) <==>
            forall dropped: set<int>, gone: set<int> | DropsSections(s, dropped, gone) :: Orphans(lines, gone, |lines|) == 0
  {
    if HeadingsHaveBodies(lines) {
      forall dropped: set<int>, gone: set<int> | DropsSections(s, dropped, gone)
        ensures Orphans(lines, gone, |lines|) == 0
      {
        forall x | 1 <= x <= |lines| ensures !Orphan(lines, gone, x) { NoOrphanInSections(lines, s, dropped, gone, x); }
        NoOrphans(lines, gone, |lines|);
      }
    } else {
      var x :| HeadingAt(lines, x) && (x + 1 <= |lines| ==> HeadingAt(lines, x + 1));
      var gone: set<int> := {};
      assert DropsSections(s, {}, gone) by {
        forall x ensures x in gone <==> Covers(DroppedRanges(s, {}, |s|), x) { DroppedCovers(s, {}, |s|, x); }
      }
      assert BareHeading(lines, gone, x) by {
        assert x + 1 !in gone;
      }
      OrphanCounts(lines, gone, |lines|, x);
    }
  }
}
