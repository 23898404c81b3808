/** The two range normalisers (`_validate_and_coalesce_ranges` in `interstellar/patches.py`,
    `_merge_ranges` in `interstellar/harness.py`) and deletion of ranges high-to-low. */
module Ranges {
  import opened Common

  /** A 1-based inclusive line range. */
  datatype Range = Range(start: int, end: int)

  /** What an analyzer may cite as a range. */
  datatype Cited = Malformed | Pair(start: int, end: int)

  predicate Before(a: Range, b: Range) { a.start < b.start || (a.start == b.start && a.end <= b.end) }

  function SortRanges(s: seq<Range>): (r: seq<Range>)
    ensures SortedBy(Before, r) && multiset(r) == multiset(s) && |r| == |s|
  {
    SortSorts(Before, s);
    Sort(Before, s)
  }

  predicate Ordered(s: seq<Range>) { forall i | 0 <= i < |s| :: s[i].start <= s[i].end }

  ghost predicate Covers(s: seq<Range>, x: int) { exists i :: 0 <= i < |s| && s[i].start <= x <= s[i].end }

  /** Ascending, and each range ends more than `gap` before the next one starts. */
  predicate Separated(gap: int, s: seq<Range>) {
    forall i, j | 0 <= i < j < |s| :: s[i].end + gap < s[j].start
  }

  /** Merge a sorted list left to right, joining ranges at most `gap` apart. */
  function Fold(gap: int, s: seq<Range>): seq<Range> {
    if s == [] then []
    else
      var m, x := Fold(gap, s[..|s| - 1]), s[|s| - 1];
      if m != [] && x.start <= m[|m| - 1].end + gap
      then m[|m| - 1 := Range(m[|m| - 1].start, Max(m[|m| - 1].end, x.end))]
      else m + [x]
  }

  lemma {:induction false} FoldSeparates(gap: int, s: seq<Range>)
    requires 0 <= gap <= 1 && SortedBy(Before, s) && Ordered(s)
    ensures var m := Fold(gap, s);
            && Ordered(m) && Separated(gap, m)
            && (s != [] ==> m != [] && m[|m| - 1].start <= s[|s| - 1].start)
            && (s != [] ==> m[0].start == s[0].start)
  {
    if s != [] {
      var init := s[..|s| - 1];
      FoldSeparates(gap, init);
      if init != [] { assert Before(init[|init| - 1], s[|s| - 1]); }
    }
  }

  /** The sequence after folding in one more range. */
  lemma CoversLast(gap: int, m: seq<Range>, r: Range, x: int)
    requires 0 <= gap <= 1 && Ordered(m) && r.start <= r.end && (m != [] ==> m[|m| - 1].start <= r.start)
    ensures var k := |m| - 1;
            var m' := if m != [] && r.start <= m[k].end + gap then m[k := Range(m[k].start, Max(m[k].end, r.end))] else m + [r];
            Covers(m', x) <==> Covers(m, x) || r.start <= x <= r.end
  {
    if m != [] && r.start <= m[|m| - 1].end + gap {
      CoversReplaced(m, r, x);
    } else {
      CoversAppended(m, r, x);
    }
  }

  /** Merging touching or adjacent ranges never changes which lines are covered. */
  lemma {:induction false} FoldCovers(gap: int, s: seq<Range>, x: int)
    requires 0 <= gap <= 1 && SortedBy(Before, s) && Ordered(s)
    ensures Covers(Fold(gap, s), x) <==> Covers(s, x)
  {
    if s != [] {
      var init, last := s[..|s| - 1], s[|s| - 1];
      FoldCovers(gap, init, x);
      FoldSeparates(gap, init);
      if init != [] { assert Before(init[|init| - 1], last); }
      CoversLast(gap, Fold(gap, init), last, x);
      InitLast(s);
      CoversAppended(init, last, x);
    }
  }

  lemma CoversAppended(m: seq<Range>, r: Range, x: int)
    ensures Covers(m + [r], x) <==> Covers(m, x) || r.start <= x <= r.end
  {
    var n := m + [r];
    if Covers(m, x) {
      var i :| 0 <= i < |m| && m[i].start <= x <= m[i].end;
      assert n[i] == m[i];
    }
    assert n[|m|] == r;
  }

  lemma {:induction false} CoversReplaced(m: seq<Range>, r: Range, x: int)
    requires m != [] && m[|m| - 1].start <= r.start <= m[|m| - 1].end + 1 && Ordered(m)
    requires r.start <= r.end
    ensures var last := m[|m| - 1];
            Covers(m[|m| - 1 := Range(last.start, Max(last.end, r.end))], x) <==> Covers(m, x) || r.start <= x <= r.end
  {
    var k := |m| - 1;
    var last := m[k];
    var init, big := m[..k], Range(last.start, Max(last.end, r.end));
    assert m == init + [last] && m[k := big] == init + [big];
    CoversAppended(init, last, x);
    CoversAppended(init, big, x);
  }

  lemma CoversPermuted(a: seq<Range>, b: seq<Range>, x: int)
    requires multiset(a) == multiset(b)
    ensures Covers(a, x) <==> Covers(b, x)
  {
    CoversSubset(a, b, x);
    CoversSubset(b, a, x);
  }

  lemma CoversSubset(a: seq<Range>, b: seq<Range>, x: int)
    requires multiset(a) == multiset(b)
    ensures Covers(a, x) ==> Covers(b, x)
  {
    if Covers(a, x) {
      var i :| 0 <= i < |a| && a[i].start <= x <= a[i].end;
      assert a[i] in multiset(b);
      assert a[i] in b;
    }
  }

  // --- the two normalisers ---------------------------------------------------------------

  predicate Acceptable(c: Cited, limit: Option<nat>) {
    c.Pair? && 1 <= c.start <= c.end && (limit.Some? ==> c.end <= limit.value)
  }

  /** The cited ranges that survive validation, in citation order. */
  function ValidRanges(cited: seq<Cited>, limit: Option<nat>): seq<Range> {
    if cited == [] then []
    else
      var c := cited[|cited| - 1];
      ValidRanges(cited[..|cited| - 1], limit) + if Acceptable(c, limit) then [Range(c.start, c.end)] else []
  }

  /** The cited ranges that are dropped, each with its own note in the source. */
  function Rejected(cited: seq<Cited>, limit: Option<nat>): seq<Cited> {
    if cited == [] then []
    else
      var c := cited[|cited| - 1];
      Rejected(cited[..|cited| - 1], limit) + if Acceptable(c, limit) then [] else [c]
  }

  function Coalesced(cited: seq<Cited>, limit: Option<nat>): seq<Range> {
    Fold(1, SortRanges(ValidRanges(cited, limit)))
  }

  function Merged(ranges: seq<Range>): seq<Range> { Fold(0, SortRanges(ranges)) }

  method Validate(cited: seq<Cited>, limit: Option<nat>) returns (valid: seq<Range>, dropped: seq<Cited>)
    ensures valid == ValidRanges(cited, limit) && dropped == Rejected(cited, limit)
  {
    valid, dropped := [], [];
    for i := 0 to |cited|
      invariant valid == ValidRanges(cited[..i], limit) && dropped == Rejected(cited[..i], limit)
    {
      TakeOneMore(cited, i);
      var c := cited[i];
      if c.Malformed? {
        dropped := dropped + [c];
      } else if c.start < 1 || c.end < c.start {
        dropped := dropped + [c];
      } else if limit.Some? && c.end > limit.value {
        dropped := dropped + [c];
      } else {
        valid := valid + [Range(c.start, c.end)];
      }
    }
    TakeAll(cited);
  }

  method ValidateAndCoalesce(cited: seq<Cited>, limit: Option<nat>) returns (coalesced: seq<Range>, dropped: seq<Cited>)
    ensures coalesced == Coalesced(cited, limit)
    ensures dropped == Rejected(cited, limit)
  {
    var valid;
    valid, dropped := Validate(cited, limit);
    valid := SortRanges(valid);
    coalesced := [];
    for i := 0 to |valid|
      invariant coalesced == Fold(1, valid[..i])
    {
      TakeOneMore(valid, i);
      var x, k := valid[i], |coalesced| - 1;
      if coalesced != [] && x.start <= coalesced[k].end + 1 {
        coalesced := coalesced[k := Range(coalesced[k].start, Max(coalesced[k].end, x.end))];
      } else {
        coalesced := coalesced + [x];
      }
    }
    TakeAll(valid);
  }

  method MergeRanges(ranges: seq<Range>) returns (merged: seq<Range>)
    ensures merged == Merged(ranges)
  {
    var ordered := SortRanges(ranges);
    merged := [];
    for i := 0 to |ordered|
      invariant merged == Fold(0, ordered[..i])
    {
      assert ordered[..i + 1][..i] == ordered[..i];
      var x, k := ordered[i], |merged| - 1;
      if merged != [] && x.start <= merged[k].end {
        merged := merged[k := Range(merged[k].start, Max(merged[k].end, x.end))];
      } else {
        merged := merged + [x];
      }
    }
    assert ordered[..|ordered|] == ordered;
  }

  lemma {:induction false} ValidRangesFacts(cited: seq<Cited>, limit: Option<nat>)
    ensures Ordered(ValidRanges(cited, limit))
    ensures forall r | r in ValidRanges(cited, limit) :: 1 <= r.start <= r.end && (limit.Some? ==> r.end <= limit.value)
  {
    if cited != [] { ValidRangesFacts(cited[..|cited| - 1], limit); }
  }

  lemma SortedOrdered(s: seq<Range>)
    requires Ordered(s)
    ensures Ordered(SortRanges(s))
  {
    forall i | 0 <= i < |s| ensures SortRanges(s)[i].start <= SortRanges(s)[i].end {
      assert SortRanges(s)[i] in multiset(s);
      assert SortRanges(s)[i] in s;
    }
  }

  /** Both normalisers produce disjoint ascending ranges that cover exactly the given lines. */
  lemma {:induction false} NormaliserKeepsLines(gap: int, s: seq<Range>, x: int)
    requires 0 <= gap <= 1 && Ordered(s)
    ensures var m := Fold(gap, SortRanges(s));
            && Ordered(m) && Separated(gap, m)
            && (Covers(m, x) <==> Covers(s, x))
  {
    SortedOrdered(s);
    FoldSeparates(gap, SortRanges(s));
    FoldCovers(gap, SortRanges(s), x);
    CoversPermuted(SortRanges(s), s, x);
  }

  /** The two normalisers agree on every line, and re-merging coalesced ranges changes nothing. */
  lemma {:induction false} NormalisersAgree(s: seq<Range>, x: int)
    requires Ordered(s)
    ensures Covers(Fold(1, SortRanges(s)), x) <==> Covers(Merged(s), x)
    ensures Merged(Fold(1, SortRanges(s))) == Fold(1, SortRanges(s))
  {
    NormaliserKeepsLines(0, s, x);
    NormaliserKeepsLines(1, s, x);
    SeparatedMerged(Fold(1, SortRanges(s)));
  }

  lemma {:induction false} SeparatedFold(s: seq<Range>)
    requires Ordered(s) && Separated(0, s)
    ensures Fold(0, s) == s
  {
    if s != [] { SeparatedFold(s[..|s| - 1]); }
  }

  lemma {:induction false} SeparatedMerged(s: seq<Range>)
    requires Ordered(s) && Separated(0, s)
    ensures Merged(s) == s
  {
    SeparatedFold(s);
    SortedUnique(Before, SortRanges(s), s);
  }

  // --- how many lines -----------------------------------------------------------------------

  function LinesIn(s: seq<Range>): nat {
    if s == [] then 0
    else
      var r := s[|s| - 1];
      LinesIn(s[..|s| - 1]) + Max(0, r.end - r.start + 1)
  }

  function Interval(lo: int, hi: int): (r: set<int>)
    ensures forall x :: x in r <==> lo <= x <= hi
    ensures |r| == Max(0, hi - lo + 1)
    decreases hi - lo + 1
  {
    if hi < lo then {} else Interval(lo, hi - 1) + {hi}
  }

  ghost function CoveredLines(s: seq<Range>): (r: set<int>)
    ensures forall x :: x in r <==> Covers(s, x)
  {
    if s == [] then {}
    else
      var k := |s| - 1;
      assert s == s[..k] + [s[k]];
      assert forall x :: Covers(s, x) <==> Covers(s[..k], x) || s[k].start <= x <= s[k].end by {
        forall x ensures Covers(s, x) <==> Covers(s[..k], x) || s[k].start <= x <= s[k].end {
          CoversAppended(s[..k], s[k], x);
        }
      }
      CoveredLines(s[..k]) + Interval(s[k].start, s[k].end)
  }

  lemma {:induction false} SeparatedCount(s: seq<Range>)
    requires Ordered(s) && Separated(0, s)
    ensures LinesIn(s) == |CoveredLines(s)|
  {
    if s != [] {
      var k := |s| - 1;
      SeparatedCount(s[..k]);
      assert CoveredLines(s[..k]) !! Interval(s[k].start, s[k].end);
    }
  }

  lemma SameLines(a: seq<Range>, b: seq<Range>)
    requires forall x :: Covers(a, x) <==> Covers(b, x)
    ensures CoveredLines(a) == CoveredLines(b)
  {
    hide Covers;
    assert forall x :: x in CoveredLines(a) <==> x in CoveredLines(b);
  }

  // --- deletion -----------------------------------------------------------------------------

  /** The lines whose 1-based number, counted from `off + 1`, is not `gone`. */
  ghost function Keep<T>(ls: seq<T>, off: int, gone: int -> bool): seq<T> {
    if ls == [] then [] else (if gone(off + 1) then [] else [ls[0]]) + Keep(ls[1..], off + 1, gone)
  }

  lemma {:induction false} KeepAppend<T>(a: seq<T>, b: seq<T>, off: int, gone: int -> bool)
    ensures Keep(a + b, off, gone) == Keep(a, off, gone) + Keep(b, off + |a|, gone)
  {
    if a == [] {
      assert a + b == b;
      assert Keep(a, off, gone) == [];
    } else {
      var head := if gone(off + 1) then [] else [a[0]];
      var left, right := Keep(a[1..], off + 1, gone), Keep(b, off + |a|, gone);
      KeepAppend(a[1..], b, off + 1, gone);
      AppendTail(a, b);
      assert Keep(a + b, off, gone) == head + (left + right);
      assert Keep(a, off, gone) == head + left;
      Assoc(head, left, right);
    }
  }

  lemma {:induction false} KeepAll<T>(ls: seq<T>, off: int, gone: int -> bool)
    requires forall x | off < x <= off + |ls| :: !gone(x)
    ensures Keep(ls, off, gone) == ls
  {
    if ls != [] { KeepAll(ls[1..], off + 1, gone); }
  }

  lemma {:induction false} KeepNone<T>(ls: seq<T>, off: int, gone: int -> bool)
    requires forall x | off < x <= off + |ls| :: gone(x)
    ensures Keep(ls, off, gone) == []
  {
    if ls != [] { KeepNone(ls[1..], off + 1, gone); }
  }

  lemma {:induction false} KeepSame<T>(ls: seq<T>, off: int, p: int -> bool, q: int -> bool)
    requires forall x | off < x <= off + |ls| :: p(x) == q(x)
    ensures Keep(ls, off, p) == Keep(ls, off, q)
  {
    if ls != [] { KeepSame(ls[1..], off + 1, p, q); }
  }

  ghost function Gone(s: seq<Range>): int -> bool { x => Covers(s, x) }

  /** The part of a text around a deleted range. */
  lemma CutOut<T>(a: seq<T>, b: seq<T>, c: seq<T>)
    ensures (a + b + c)[..|a|] + (a + b + c)[|a| + |b|..] == a + c
  {
    assert (a + b + c)[..|a|] == a && (a + b + c)[|a| + |b|..] == c;
  }

  /** Deleting a range that lies below all ranges deleted so far. */
  lemma {:induction false} DeleteLowest<T>(ls: seq<T>, r: Range, above: seq<Range>)
    requires 1 <= r.start <= r.end <= |ls|
    requires forall i | 0 <= i < |above| :: r.end < above[i].start
    ensures var cur := Keep(ls, 0, Gone(above));
            && r.end <= |cur|
            && cur[..r.start - 1] + cur[r.end..] == Keep(ls, 0, Gone([r] + above))
  {
    var p, q := Gone(above), Gone([r] + above);
    forall x ensures q(x) <==> r.start <= x <= r.end || p(x) { CoversPrepended(above, r, x); }
    var a, b := ls[..r.start - 1], ls[r.start - 1..r.end];
    KeepParts(ls, r, p);
    KeepAll(b, r.start - 1, p);
    CutOut(a, b, Keep(ls[r.end..], r.end, p));
    KeepParts(ls, r, q);
    KeepNone(b, r.start - 1, q);
    KeepSame(ls[r.end..], r.end, p, q);
    assert a + [] == a;
  }

  lemma CoversPrepended(m: seq<Range>, r: Range, x: int)
    ensures Covers([r] + m, x) <==> Covers(m, x) || r.start <= x <= r.end
  {
    var n := [r] + m;
    assert n[0] == r;
    if Covers(m, x) {
      var i :| 0 <= i < |m| && m[i].start <= x <= m[i].end;
      assert n[i + 1] == m[i];
    }
  }

  lemma {:induction false} KeepParts<T>(ls: seq<T>, r: Range, gone: int -> bool)
    requires 1 <= r.start <= r.end <= |ls|
    requires forall x | 0 < x < r.start :: !gone(x)
    ensures Keep(ls, 0, gone) ==
            ls[..r.start - 1] + Keep(ls[r.start - 1..r.end], r.start - 1, gone) + Keep(ls[r.end..], r.end, gone)
  {
    hide *;
    var a, b, c := ls[..r.start - 1], ls[r.start - 1..r.end], ls[r.end..];
    assert ls == a + b + c;
    KeepAppend(a + b, c, 0, gone);
    KeepAppend(a, b, 0, gone);
    KeepAll(a, 0, gone);
  }

  /** One deletion of the loop: range `j`, with everything above it gone already. */
  lemma {:induction false} DeleteNext<T>(lines: seq<T>, merged: seq<Range>, j: nat)
    requires Ordered(merged) && Separated(0, merged) && j < |merged|
    requires forall i | 0 <= i < |merged| :: 1 <= merged[i].start && merged[i].end <= |lines|
    ensures var cur, r := Keep(lines, 0, Gone(merged[j + 1..])), merged[j];
            && 1 <= r.start <= r.end <= |cur|
            && cur[..r.start - 1] + cur[r.end..] == Keep(lines, 0, Gone(merged[j..]))
            && LinesIn(merged[..j + 1]) == LinesIn(merged[..j]) + (r.end - r.start + 1)
  {
    var above := merged[j + 1..];
    assert forall i | 0 <= i < |above| :: merged[j].end < above[i].start;
    DeleteLowest(lines, merged[j], above);
    assert merged[j..] == [merged[j]] + above;
    TakeOneMore(merged, j);
  }

  lemma NothingDeleted<T>(lines: seq<T>)
    ensures Keep(lines, 0, Gone([])) == lines && LinesIn([]) == 0
  {
    KeepAll(lines, 0, Gone([]));
  }

  /** Deletes disjoint ascending ranges from the highest down, so no index shifts under a later
      deletion. */
  method DeleteRanges<T>(lines: seq<T>, merged: seq<Range>) returns (kept: seq<T>, deleted: nat)
    requires Ordered(merged) && Separated(0, merged)
    requires forall i | 0 <= i < |merged| :: 1 <= merged[i].start && merged[i].end <= |lines|
    ensures kept == Keep(lines, 0, Gone(merged))
    ensures deleted == LinesIn(merged)
  {
    hide Keep, Gone, LinesIn, Ordered, Separated;
    NothingDeleted(lines);
    kept, deleted := lines, 0;
    var j := |merged|;
    assert merged[j..] == [];
    TakeAll(merged);
    while j > 0
      invariant 0 <= j <= |merged|
      invariant kept == Keep(lines, 0, Gone(merged[j..]))
      invariant deleted + LinesIn(merged[..j]) == LinesIn(merged)
    {
      j := j - 1;
      DeleteNext(lines, merged, j);
      var r := merged[j];
      deleted := deleted + (r.end - r.start + 1);
      kept := kept[..r.start - 1] + kept[r.end..];
    }
    assert merged[0..] == merged && merged[..0] == [];
  }

  // --- what counts as a valid citation -----------------------------------------------------------------

  /** A line is covered by the valid citations exactly when some citation is a pair that starts at line 1
      or later, ends no earlier than it starts and no later than the text, and spans the line. */
  lemma {:induction false} CitedLines(cited: seq<Cited>, limit: nat, x: int)
    ensures Covers(ValidRanges(cited, Some(limit)), x) <==>
            exists i | 0 <= i < |cited| :: Cites(cited[i], limit, x)
  {
    hide Covers;
    if cited == [] {
      NothingCovered(x);
    } else {
      var k := |cited| - 1;
      CitedLines(cited[..k], limit, x);
      assert forall i | 0 <= i < k :: cited[..k][i] == cited[i];
      var before := ValidRanges(cited[..k], Some(limit));
      if Acceptable(cited[k], Some(limit)) {
        CoversAppended(before, Range(cited[k].start, cited[k].end), x);
      } else {
        assert before + [] == before;
      }
    }
  }

  ghost predicate Cites(c: Cited, limit: nat, x: int) { c.Pair? && 1 <= c.start <= x <= c.end <= limit }

  lemma NothingCovered(x: int)
    ensures !Covers([], x)
  {
  }

  function OutOfOrder(limit: Option<nat>): Cited -> bool {
    (c: Cited) => c.Malformed? || c.start < 1 || c.end < c.start || (limit.Some? && c.end > limit.value)
  }

  /** Every other citation is dropped, in citation order. */
  lemma {:induction false} RejectedAre(cited: seq<Cited>, limit: Option<nat>)
    ensures Rejected(cited, limit) == Filter(OutOfOrder(limit), cited)
  {
    if cited != [] { RejectedAre(cited[..|cited| - 1], limit); }
  }
}
