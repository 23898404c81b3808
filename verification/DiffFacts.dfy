/** What the diff parser does with each kind of line, and how a changed block is laid out in rows:
    `_parse_unified_diff` and `_hunk_rows_html` in `interstellar/report.py`. */
module DiffFacts {
  import opened Common
  import opened Lines
  import opened DiffText
  import opened DiffRows
  import TomlFacts

  // --- paths --------------------------------------------------------------------------------------

  /** A path loses the blanks around it and then one leading `a/` or `b/`. */
  lemma {:induction false} BarePathMeans(path: string) returns (a: string, core: string, z: string)
    ensures path == a + core + z && IsBlank(a) && IsBlank(z)
    ensures core != "" ==> !IsSpace(core[0]) && !IsSpace(core[|core| - 1])
    ensures BarePath(path) == if "a/" <= core || "b/" <= core then core[2..] else core
  {
    hide Strip;
    a, z := TomlFacts.StripMeans(path);
    core := Strip(path);
  }

  /** A line that starts as an old file's header names the path only while there is none. */
  lemma OldFileRead(d: Diff, rest: string)
    ensures ReadLine(d, "--- " + rest) == Diff(if d.path == "" then BarePath(rest) else d.path, d.hunks)
  {
    AfterPrefix(OldFile, rest);
  }

  /** One that starts as a new file's header names it, unless it names no file. */
  lemma NewFileRead(d: Diff, rest: string)
    ensures ReadLine(d, "+++ " + rest)
            == Diff(if BarePath(rest) == "" || BarePath(rest) == "/dev/null" then d.path else BarePath(rest), d.hunks)
  {
    AfterPrefix(NewFile, rest);
    OtherPrefix(NewFile + rest, OldFile);
  }

  /** A printed header opens a hunk of its ranges without lines, whatever follows it. */
  lemma HunkHeaderRead(d: Diff, h: Hunk, tail: string)
    ensures ReadLine(d, PrintHeader(h) + tail) == Diff(d.path, d.hunks + [h.(lines := [])])
  {
    ReadPrintedHeader(h, tail);
    OtherPrefix(PrintHeader(h) + tail, OldFile);
    OtherPrefix(PrintHeader(h) + tail, NewFile);
  }

  /** Any other line belongs to the hunk that is open, and to nothing before the first: what it is shows
      in its first character, and a line that shows nothing is context as it stands. */
  lemma BodyLineRead(d: Diff, raw: string)
    requires !("--- " <= raw) && !("+++ " <= raw) && ReadHeader(raw).None?
    ensures d.hunks == [] ==> ReadLine(d, raw) == d
    ensures d.hunks != [] ==>
            var k, r := |d.hunks| - 1, ReadLine(d, raw);
            && r.path == d.path && |r.hunks| == |d.hunks| && r.hunks[..k] == d.hunks[..k]
            && r.hunks[k] == d.hunks[k].(lines := r.hunks[k].lines) && |r.hunks[k].lines| == |d.hunks[k].lines| + 1
            && r.hunks[k].lines[..|d.hunks[k].lines|] == d.hunks[k].lines
            && var l := r.hunks[k].lines[|d.hunks[k].lines|];
               if raw == "" then l == Ctx("")
               else if raw[0] == '+' then l == Add(raw[1..])
               else if raw[0] == '-' then l == Del(raw[1..])
               else if raw[0] == ' ' then l == Ctx(raw[1..])
               else if raw[0] == '\\' then l == Note(raw)
               else l == Ctx(raw)
  {
    hide ReadHeader;
  }

  /** A diff is read line by line. */
  lemma ReadInOrder(d: Diff, lines: seq<string>, raw: string)
    ensures Feed(d, []) == d && Feed(d, lines + [raw]) == ReadLine(Feed(d, lines), raw) && Parse([]) == Diff("", [])
  {
    hide ReadLine;
    FeedAppend(d, lines, [raw]);
    FeedOne(Feed(d, lines), raw);
  }

  lemma FeedOne(d: Diff, raw: string)
    ensures Feed(d, [raw]) == ReadLine(d, raw)
  {
    hide ReadLine;
    assert [raw][1..] == [];
  }

  // --- pairing ---------------------------------------------------------------------------------------

  /** A run of deletions starts here. */
  predicate BlockStart(lines: seq<Line>, i: nat) { i < |lines| && lines[i].Del? && (i == 0 || !lines[i - 1].Del?) }

  /** The rows from a later block on are those rendered from its first line. */
  lemma {:induction false} RenderedFrom(lines: seq<Line>, j: nat, oldNo: nat, newNo: nat, i: nat) returns (o: nat, n: nat)
    requires j <= i && BlockStart(lines, i) && (j == i || j == 0 || !lines[j - 1].Del? || !lines[j].Del?)
    ensures |Render(lines, j, oldNo, newNo)| == |lines| - j
    ensures Render(lines, j, oldNo, newNo)[i - j..] == Render(lines, i, o, n)
    decreases i - j
  {
    hide Render, DelEnd, AddEnd, RowOf, NextOld, NextNew;
    RowPerLine(lines, j, oldNo, newNo);
    if j == i {
      o, n := oldNo, newNo;
    } else if lines[j].Del? {
      var d := DelEnd(lines, j);
      var a := AddEnd(lines, d);
      DelEndAfter(lines, j);
      BlockPassed(lines, j, d, a, i);
      RenderedBlock(lines, j, d, a, oldNo, newNo);
      o, n := RenderedFrom(lines, a, oldNo + d - j, newNo + a - d, i);
      Dropped(Paired(lines[j..d], lines[d..a], oldNo, newNo), Render(lines, a, oldNo + d - j, newNo + a - d), i - j);
    } else {
      var oldNext, newNext := NextOld(lines[j], oldNo), NextNew(lines[j], newNo);
      RenderedRow(lines, j, oldNo, newNo);
      o, n := RenderedFrom(lines, j + 1, oldNext, newNext, i);
      Dropped([RowOf(lines[j], oldNo, newNo)], Render(lines, j + 1, oldNext, newNext), i - j);
    }
  }

  lemma Dropped<T>(a: seq<T>, b: seq<T>, k: nat)
    requires |a| <= k <= |a| + |b|
    ensures (a + b)[k..] == b[k - |a|..]
  {
  }

  /** A block that starts later lies after this one. */
  lemma BlockPassed(lines: seq<Line>, j: nat, d: nat, a: nat, i: nat)
    requires j < i && BlockStart(lines, i) && j < |lines| && lines[j].Del? && d == DelEnd(lines, j) && a == AddEnd(lines, d)
    ensures a <= i && (a == i || !lines[a - 1].Del? || !lines[a].Del?)
  {
    hide DelEnd, AddEnd;
  }

  /** The rows of a block stand where its lines do. */
  lemma {:induction false} BlockInRows(h: Hunk, i: nat, d: nat, a: nat) returns (o: nat, n: nat)
    requires BlockStart(h.lines, i) && d == DelEnd(h.lines, i) && a == AddEnd(h.lines, d)
    ensures var rows, block := Render(h.lines, 0, h.oldStart, h.newStart), Paired(h.lines[i..d], h.lines[d..a], o, n);
            |rows| == |h.lines| && |block| == a - i && rows[i..a] == block
  {
    hide Render, DelEnd, AddEnd, Paired;
    var rows := Render(h.lines, 0, h.oldStart, h.newStart);
    o, n := RenderedFrom(h.lines, 0, h.oldStart, h.newStart, i);
    RenderedBlock(h.lines, i, d, a, o, n);
    Stretch(rows, Paired(h.lines[i..d], h.lines[d..a], o, n), Render(h.lines, a, o + d - i, n + a - d), i);
  }

  lemma Stretch<T>(rows: seq<T>, block: seq<T>, rest: seq<T>, i: nat)
    requires i <= |rows| && rows[i..] == block + rest
    ensures i + |block| <= |rows| && rows[i..i + |block|] == block
  {
    assert |rows[i..]| == |block| + |rest|;
    assert rows[i..i + |block|] == rows[i..][..|block|];
  }

  /** In the rows of a hunk, the k-th deletion of a block stands directly above the k-th addition after it,
      as long as both last. */
  lemma {:induction false} PairsAdjacent(h: Hunk, i: nat, d: nat, a: nat, k: nat)
    requires BlockStart(h.lines, i) && d == DelEnd(h.lines, i) && a == AddEnd(h.lines, d) && i + k < d && d + k < a
    ensures var rows := Render(h.lines, 0, h.oldStart, h.newStart);
            && |rows| == |h.lines| && i + 2 * k + 1 < |rows|
            && rows[i + 2 * k].DelRow? && rows[i + 2 * k].text == h.lines[i + k].text
            && rows[i + 2 * k + 1].AddRow? && rows[i + 2 * k + 1].text == h.lines[d + k].text
  {
    hide Render, DelEnd, AddEnd, Paired;
    var o, n := BlockInRows(h, i, d, a);
    var rows := Render(h.lines, 0, h.oldStart, h.newStart);
    PairedAdjacent(h.lines[i..d], h.lines[d..a], o, n, k);
    assert rows[i..a][2 * k] == rows[i + 2 * k] && rows[i..a][2 * k + 1] == rows[i + 2 * k + 1];
  }

  /** The deletions, or additions, that have no partner follow the pairs, in their order. */
  lemma {:induction false} UnpairedFollow(h: Hunk, i: nat, d: nat, a: nat, k: nat)
    requires BlockStart(h.lines, i) && d == DelEnd(h.lines, i) && a == AddEnd(h.lines, d)
    requires 2 * Min(d - i, a - d) <= k < a - i
    ensures var rows, pairs := Render(h.lines, 0, h.oldStart, h.newStart), Min(d - i, a - d);
            && |rows| == |h.lines|
            && (d - i > a - d ==> rows[i + k].DelRow? && rows[i + k].text == h.lines[i + k - pairs].text)
            && (d - i <= a - d ==> rows[i + k].AddRow? && rows[i + k].text == h.lines[d + k - pairs].text)
  {
    hide Render, DelEnd, AddEnd, Paired;
    var o, n := BlockInRows(h, i, d, a);
    var rows := Render(h.lines, 0, h.oldStart, h.newStart);
    LeftOverRow(h.lines[i..d], h.lines[d..a], o, n, k);
    assert rows[i..a][k] == rows[i + k];
  }
}
