/** The rows `_hunk_rows_html` of `interstellar/report.py` renders for one hunk: gutter numbers on both
    sides and the pairing of a run of deletions with the run of additions after it. */
module DiffRows {
  import opened Common
  import opened DiffText

  datatype Row =
    | CtxRow(oldNo: nat, newNo: nat, text: string)
    | DelRow(oldNo: nat, text: string)
    | AddRow(newNo: nat, text: string)
    | NoteRow(text: string)

  // --- what is rendered -----------------------------------------------------------------------------

  /** Where the run of deleted (or added) lines starting at an index ends. */
  function DelEnd(lines: seq<Line>, i: nat): (e: nat)
    requires i <= |lines|
    ensures i <= e <= |lines| && (forall k | i <= k < e :: lines[k].Del?) && (e < |lines| ==> !lines[e].Del?)
    decreases |lines| - i
  {
    if i < |lines| && lines[i].Del? then DelEnd(lines, i + 1) else i
  }

  function AddEnd(lines: seq<Line>, i: nat): (e: nat)
    requires i <= |lines|
    ensures i <= e <= |lines| && (forall k | i <= k < e :: lines[k].Add?) && (e < |lines| ==> !lines[e].Add?)
    decreases |lines| - i
  {
    if i < |lines| && lines[i].Add? then AddEnd(lines, i + 1) else i
  }

  /** The row at an index of a block: deletions and additions alternate while both last, then come
      the deletions or additions left over. */
  function PairedAt(dels: seq<Line>, adds: seq<Line>, oldNo: nat, newNo: nat, i: nat): Row
    requires i < |dels| + |adds|
  {
    var k := Min(|dels|, |adds|);
    if i < 2 * k then
      if i % 2 == 0 then DelRow(oldNo + i / 2, dels[i / 2].text) else AddRow(newNo + i / 2, adds[i / 2].text)
    else if |dels| > k then DelRow(oldNo + (i - k), dels[i - k].text)
    else AddRow(newNo + (i - k), adds[i - k].text)
  }

  function Paired(dels: seq<Line>, adds: seq<Line>, oldNo: nat, newNo: nat): (rows: seq<Row>)
    ensures |rows| == |dels| + |adds|
  {
    seq(|dels| + |adds|, i requires 0 <= i < |dels| + |adds| => PairedAt(dels, adds, oldNo, newNo, i))
  }

  function RowOf(line: Line, oldNo: nat, newNo: nat): Row {
    match line
    case Ctx(text) => CtxRow(oldNo, newNo, text)
    case Del(text) => DelRow(oldNo, text)
    case Add(text) => AddRow(newNo, text)
    case Note(text) => NoteRow(text)
  }

  /** The next line number of either file after a line. */
  function NextOld(line: Line, oldNo: nat): nat { if line.Ctx? || line.Del? then oldNo + 1 else oldNo }

  function NextNew(line: Line, newNo: nat): nat { if line.Ctx? || line.Add? then newNo + 1 else newNo }

  /** The rows of the lines from an index on. */
  function Render(lines: seq<Line>, i: nat, oldNo: nat, newNo: nat): seq<Row>
    requires i <= |lines|
    decreases |lines| - i
  {
    if i == |lines| then []
    else if lines[i].Del? then
      var d := DelEnd(lines, i);
      var a := AddEnd(lines, d);
      Paired(lines[i..d], lines[d..a], oldNo, newNo) + Render(lines, a, oldNo + d - i, newNo + a - d)
    else [RowOf(lines[i], oldNo, newNo)] + Render(lines, i + 1, NextOld(lines[i], oldNo), NextNew(lines[i], newNo))
  }

  // --- the renderer -----------------------------------------------------------------------------------

  /** The row of a pair, and of a deletion or addition left over. */
  lemma LeftOverRow(dels: seq<Line>, adds: seq<Line>, oldNo: nat, newNo: nat, i: nat)
    requires 2 * Min(|dels|, |adds|) <= i < |dels| + |adds|
    ensures var k := Min(|dels|, |adds|);
            Paired(dels, adds, oldNo, newNo)[i]
            == if |dels| > k then DelRow(oldNo + (i - k), dels[i - k].text) else AddRow(newNo + (i - k), adds[i - k].text)
  {
  }

  /** Adding the next row of a list to its first rows. */
  lemma NextRow(all: seq<Row>, rows: seq<Row>, n: nat, row: Row)
    requires n < |all| && rows == all[..n] && row == all[n]
    ensures rows + [row] == all[..n + 1]
  {
  }

  /** Rows of a run of deletions and the run of additions after it. */
  method RenderBlock(dels: seq<Line>, adds: seq<Line>, oldStart: nat, newStart: nat) returns (rows: seq<Row>)
    ensures rows == Paired(dels, adds, oldStart, newStart)
  {
    hide Paired, PairedAt;
    rows := [];
    var oldNo, newNo := oldStart, newStart;
    var paired := Min(|dels|, |adds|);
    ghost var all := Paired(dels, adds, oldStart, newStart);
    for k := 0 to paired
      invariant oldNo == oldStart + k && newNo == newStart + k && rows == all[..2 * k]
    {
      PairedAdjacent(dels, adds, oldStart, newStart, k);
      NextRow(all, rows, 2 * k, DelRow(oldNo, dels[k].text));
      rows := rows + [DelRow(oldNo, dels[k].text)];
      oldNo := oldNo + 1;
      NextRow(all, rows, 2 * k + 1, AddRow(newNo, adds[k].text));
      rows := rows + [AddRow(newNo, adds[k].text)];
      newNo := newNo + 1;
    }
    for k := paired to |dels|
      invariant oldNo == oldStart + k && rows == all[..paired + k]
    {
      LeftOverRow(dels, adds, oldStart, newStart, paired + k);
      NextRow(all, rows, paired + k, DelRow(oldNo, dels[k].text));
      rows := rows + [DelRow(oldNo, dels[k].text)];
      oldNo := oldNo + 1;
    }
    for k := paired to |adds|
      invariant newNo == newStart + k && rows == all[..|dels| + k]
    {
      LeftOverRow(dels, adds, oldStart, newStart, paired + k);
      NextRow(all, rows, |dels| + k, AddRow(newNo, adds[k].text));
      rows := rows + [AddRow(newNo, adds[k].text)];
      newNo := newNo + 1;
    }
    TakeAll(all);
  }

  /** Collect the run of deletions at an index and the run of additions after it. */
  method CollectRuns(lines: seq<Line>, from: nat) returns (dels: seq<Line>, adds: seq<Line>, next: nat)
    requires from <= |lines|
    ensures var d := DelEnd(lines, from);
            next == AddEnd(lines, d) && dels == lines[from..d] && adds == lines[d..next]
  {
    hide DelEnd, AddEnd;
    dels, adds, next := [], [], from;
    while next < |lines| && lines[next].Del?
      invariant from <= next <= |lines| && dels == lines[from..next]
      invariant DelEnd(lines, next) == DelEnd(lines, from)
    {
      DelEndNext(lines, next);
      SliceOneMore(lines, from, next);
      dels := dels + [lines[next]];
      next := next + 1;
    }
    DelEndNext(lines, next);
    ghost var d := next;
    while next < |lines| && lines[next].Add?
      invariant d <= next <= |lines| && adds == lines[d..next]
      invariant AddEnd(lines, next) == AddEnd(lines, d)
    {
      AddEndNext(lines, next);
      SliceOneMore(lines, d, next);
      adds := adds + [lines[next]];
      next := next + 1;
    }
    AddEndNext(lines, next);
  }

  lemma DelEndNext(lines: seq<Line>, i: nat)
    requires i <= |lines|
    ensures DelEnd(lines, i) == if i < |lines| && lines[i].Del? then DelEnd(lines, i + 1) else i
  {
  }

  lemma AddEndNext(lines: seq<Line>, i: nat)
    requires i <= |lines|
    ensures AddEnd(lines, i) == if i < |lines| && lines[i].Add? then AddEnd(lines, i + 1) else i
  {
  }

  lemma SliceOneMore(lines: seq<Line>, from: nat, to: nat)
    requires from <= to < |lines|
    ensures lines[from..to + 1] == lines[from..to] + [lines[to]]
  {
  }

  /** What one round of the loop does: a block of changes, or one line. */
  predicate IsRound(lines: seq<Line>, i: nat, oldNo: nat, newNo: nat, rows: seq<Row>, next: nat, oldNext: nat, newNext: nat)
    requires i < |lines|
  {
    if lines[i].Del? then
      var d := DelEnd(lines, i);
      && next == AddEnd(lines, d) && rows == Paired(lines[i..d], lines[d..next], oldNo, newNo)
      && oldNext == oldNo + d - i && newNext == newNo + next - d
    else
      next == i + 1 && rows == [RowOf(lines[i], oldNo, newNo)] && oldNext == NextOld(lines[i], oldNo) && newNext == NextNew(lines[i], newNo)
  }

  lemma DelEndAfter(lines: seq<Line>, i: nat)
    requires i < |lines| && lines[i].Del?
    ensures i < DelEnd(lines, i)
  {
  }

  lemma RenderedBlock(lines: seq<Line>, i: nat, d: nat, a: nat, oldNo: nat, newNo: nat)
    requires i < |lines| && lines[i].Del? && d == DelEnd(lines, i) && a == AddEnd(lines, d)
    ensures i < a && Render(lines, i, oldNo, newNo)
                     == Paired(lines[i..d], lines[d..a], oldNo, newNo) + Render(lines, a, oldNo + d - i, newNo + a - d)
  {
    hide DelEnd, AddEnd, Paired, RowOf, NextOld, NextNew;
    DelEndAfter(lines, i);
  }

  lemma RenderedRow(lines: seq<Line>, i: nat, oldNo: nat, newNo: nat)
    requires i < |lines| && !lines[i].Del?
    ensures Render(lines, i, oldNo, newNo)
            == [RowOf(lines[i], oldNo, newNo)] + Render(lines, i + 1, NextOld(lines[i], oldNo), NextNew(lines[i], newNo))
  {}

  lemma RoundRenders(lines: seq<Line>, i: nat, oldNo: nat, newNo: nat, rows: seq<Row>, next: nat, oldNext: nat, newNext: nat)
    requires i < |lines| && IsRound(lines, i, oldNo, newNo, rows, next, oldNext, newNext)
    ensures i < next <= |lines| && Render(lines, i, oldNo, newNo) == rows + Render(lines, next, oldNext, newNext)
  {
    hide AddEnd, DelEnd, Render;
    if lines[i].Del? {
      var d := DelEnd(lines, i);
      RenderedBlock(lines, i, d, next, oldNo, newNo);
      assert Render(lines, next, oldNext, newNext) == Render(lines, next, oldNo + d - i, newNo + next - d);
    } else {
      RenderedRow(lines, i, oldNo, newNo);
    }
  }

  /** One round of the loop: the rows it adds and the counters after it. */
  method NextRows(lines: seq<Line>, i: nat, oldNo: nat, newNo: nat)
      returns (rows: seq<Row>, next: nat, oldNext: nat, newNext: nat)
    requires i < |lines|
    ensures IsRound(lines, i, oldNo, newNo, rows, next, oldNext, newNext)
  {
    oldNext, newNext, next := oldNo, newNo, i + 1;
    match lines[i] {
      case Ctx(text) =>
        rows := [CtxRow(oldNo, newNo, text)];
        oldNext, newNext := oldNo + 1, newNo + 1;
      case Note(text) =>
        rows := [NoteRow(text)];
      case Add(text) =>
        rows := [AddRow(newNo, text)];
        newNext := newNo + 1;
      case Del(_) =>
        var dels, adds;
        dels, adds, next := CollectRuns(lines, i);
        rows := RenderBlock(dels, adds, oldNo, newNo);
        oldNext, newNext := oldNo + |dels|, newNo + |adds|;
    }
  }

  method HunkRows(h: Hunk) returns (rows: seq<Row>)
    ensures rows == Render(h.lines, 0, h.oldStart, h.newStart)
  {
    var oldNo, newNo, i := h.oldStart, h.newStart, 0;
    rows := [];
    while i < |h.lines|
      invariant i <= |h.lines|
      invariant rows + Render(h.lines, i, oldNo, newNo) == Render(h.lines, 0, h.oldStart, h.newStart)
    {
      var more, next, oldNext, newNext := NextRows(h.lines, i, oldNo, newNo);
      RoundRenders(h.lines, i, oldNo, newNo, more, next, oldNext, newNext);
      Assoc(rows, more, Render(h.lines, next, oldNext, newNext));
      rows, i, oldNo, newNo := rows + more, next, oldNext, newNext;
    }
  }

  // --- either side alone ---------------------------------------------------------------------------------

  datatype Side = Before | After

  datatype Numbered = Numbered(no: nat, text: string)

  /** What a row shows on a side: a numbered line, or nothing. */
  function Shown(side: Side, row: Row): seq<Numbered> {
    match row
    case CtxRow(oldNo, newNo, text) => [Numbered(if side.Before? then oldNo else newNo, text)]
    case DelRow(oldNo, text) => if side.Before? then [Numbered(oldNo, text)] else []
    case AddRow(newNo, text) => if side.After? then [Numbered(newNo, text)] else []
    case NoteRow(_) => []
  }

  /** What the first `n` rows show on a side, top to bottom. */
  function ShownOn(side: Side, rows: seq<Row>, n: nat): seq<Numbered>
    requires n <= |rows|
  {
    if n == 0 then [] else ShownOn(side, rows, n - 1) + Shown(side, rows[n - 1])
  }

  function AllShown(side: Side, rows: seq<Row>): seq<Numbered> { ShownOn(side, rows, |rows|) }

  /** Whether a hunk's line is in the file on that side. */
  predicate IsOn(side: Side, line: Line) { line.Ctx? || (side.Before? && line.Del?) || (side.After? && line.Add?) }

  /** The lines of a hunk from an index on that are in the file on that side, numbered consecutively. */
  function FileLines(side: Side, lines: seq<Line>, i: nat, no: nat): seq<Numbered>
    requires i <= |lines|
    decreases |lines| - i
  {
    if i == |lines| then []
    else if IsOn(side, lines[i]) then [Numbered(no, lines[i].text)] + FileLines(side, lines, i + 1, no + 1)
    else FileLines(side, lines, i + 1, no)
  }

  /** Consecutively numbered texts of the lines from one index to another. */
  function Numbers(lines: seq<Line>, from: nat, to: nat, no: nat): seq<Numbered>
    requires from <= to <= |lines|
  {
    if to == from then [] else Numbers(lines, from, to - 1, no) + [Numbered(no + to - 1 - from, lines[to - 1].text)]
  }

  lemma {:induction false} ShownPrefix(side: Side, a: seq<Row>, b: seq<Row>, n: nat)
    requires n <= |a|
    ensures ShownOn(side, a + b, n) == ShownOn(side, a, n)
  {
    if n > 0 { ShownPrefix(side, a, b, n - 1); }
  }

  lemma {:induction false} ShownSuffix(side: Side, a: seq<Row>, b: seq<Row>, n: nat)
    requires n <= |b|
    ensures ShownOn(side, a + b, |a| + n) == AllShown(side, a) + ShownOn(side, b, n)
  {
    if n > 0 {
      ShownSuffix(side, a, b, n - 1);
      Assoc(AllShown(side, a), ShownOn(side, b, n - 1), Shown(side, b[n - 1]));
    } else {
      ShownPrefix(side, a, b, |a|);
    }
  }

  lemma ShownAppend(side: Side, a: seq<Row>, b: seq<Row>)
    ensures AllShown(side, a + b) == AllShown(side, a) + AllShown(side, b)
  {
    ShownSuffix(side, a, b, |b|);
  }

  lemma ShownOne(side: Side, row: Row)
    ensures AllShown(side, [row]) == Shown(side, row)
  {
    assert ShownOn(side, [row], 0) == [];
  }

  /** Two rows that show, between them, the line with an index. */
  predicate PairShows(side: Side, rows: seq<Row>, lines: seq<Line>, no: nat, j: nat)
    requires 2 * j + 1 < |rows| && j < |lines|
  {
    Shown(side, rows[2 * j]) + Shown(side, rows[2 * j + 1]) == [Numbered(no + j, lines[j].text)]
  }

  lemma NoneShown(side: Side, rows: seq<Row>)
    ensures ShownOn(side, rows, 0) == []
  {
  }

  lemma {:induction false} PairsShown(side: Side, rows: seq<Row>, lines: seq<Line>, k: nat, no: nat)
    requires 2 * k <= |rows| && k <= |lines| && forall j | 0 <= j < k :: PairShows(side, rows, lines, no, j)
    ensures ShownOn(side, rows, 2 * k) == Numbers(lines, 0, k, no)
  {
    hide Shown, ShownOn;
    if k == 0 {
      NoneShown(side, rows);
    } else {
      PairsShown(side, rows, lines, k - 1, no);
      assert PairShows(side, rows, lines, no, k - 1);
      ShownTwice(side, rows, 2 * (k - 1));
    }
  }

  lemma {:induction false} ShownTwice(side: Side, rows: seq<Row>, j: nat)
    requires j + 2 <= |rows|
    ensures ShownOn(side, rows, j + 2) == ShownOn(side, rows, j) + (Shown(side, rows[j]) + Shown(side, rows[j + 1]))
  {
    assert ShownOn(side, rows, j + 2) == ShownOn(side, rows, j + 1) + Shown(side, rows[j + 1]);
    Assoc(ShownOn(side, rows, j), Shown(side, rows[j]), Shown(side, rows[j + 1]));
  }

  lemma ShownNext(side: Side, rows: seq<Row>, n: nat)
    requires 0 < n <= |rows|
    ensures ShownOn(side, rows, n) == ShownOn(side, rows, n - 1) + Shown(side, rows[n - 1])
  {
  }

  lemma NumbersNext(lines: seq<Line>, to: nat, no: nat)
    requires 0 < to <= |lines|
    ensures Numbers(lines, 0, to, no) == Numbers(lines, 0, to - 1, no) + [Numbered(no + to - 1, lines[to - 1].text)]
  {
  }

  /** A stretch of rows each showing the next line, and one showing none. */
  lemma {:induction false} RunShown(side: Side, rows: seq<Row>, p: nat, q: nat, lines: seq<Line>, c: nat, no: nat)
    requires p <= q <= |rows| && c + q - p <= |lines| && ShownOn(side, rows, p) == Numbers(lines, 0, c, no)
    requires forall i | p <= i < q :: Shown(side, rows[i]) == [Numbered(no + c + i - p, lines[c + i - p].text)]
    ensures ShownOn(side, rows, q) == Numbers(lines, 0, c + q - p, no)
  {
    hide Shown, ShownOn, Numbers;
    if p < q {
      RunShown(side, rows, p, q - 1, lines, c, no);
      ShownNext(side, rows, q);
      NumbersNext(lines, c + q - p, no);
    }
  }

  lemma {:induction false} RunHidden(side: Side, rows: seq<Row>, p: nat, q: nat)
    requires p <= q <= |rows| && forall i | p <= i < q :: Shown(side, rows[i]) == []
    ensures ShownOn(side, rows, q) == ShownOn(side, rows, p)
  {
    if p < q { RunHidden(side, rows, p, q - 1); }
  }

  /** The k-th deletion of a block stands directly above its k-th addition while both last. */
  lemma PairedAdjacent(dels: seq<Line>, adds: seq<Line>, oldNo: nat, newNo: nat, k: nat)
    requires k < |dels| && k < |adds|
    ensures var rows := Paired(dels, adds, oldNo, newNo);
            rows[2 * k] == DelRow(oldNo + k, dels[k].text) && rows[2 * k + 1] == AddRow(newNo + k, adds[k].text)
  {
    assert (2 * k) / 2 == k && (2 * k + 1) / 2 == k && (2 * k) % 2 == 0 && (2 * k + 1) % 2 == 1;
  }

  lemma PairShown(dels: seq<Line>, adds: seq<Line>, oldNo: nat, newNo: nat, j: nat)
    requires j < |dels| && j < |adds|
    ensures var rows := Paired(dels, adds, oldNo, newNo);
            2 * j + 1 < |rows| && PairShows(Before, rows, dels, oldNo, j) && PairShows(After, rows, adds, newNo, j)
  {
    PairedAdjacent(dels, adds, oldNo, newNo, j);
  }

  /** The rows after the pairs: deletions or additions that are left over. */
  lemma LeftOver(dels: seq<Line>, adds: seq<Line>, oldNo: nat, newNo: nat, i: nat)
    requires 2 * Min(|dels|, |adds|) <= i < |dels| + |adds|
    ensures var row, k := Paired(dels, adds, oldNo, newNo)[i], Min(|dels|, |adds|);
            if |dels| > k then Shown(Before, row) == [Numbered(oldNo + i - k, dels[i - k].text)] && Shown(After, row) == []
            else Shown(Before, row) == [] && Shown(After, row) == [Numbered(newNo + i - k, adds[i - k].text)]
  {
  }

  /** Pairing does not change what the old side shows. */
  lemma {:induction false} PairedBefore(dels: seq<Line>, adds: seq<Line>, oldNo: nat, newNo: nat)
    ensures AllShown(Before, Paired(dels, adds, oldNo, newNo)) == Numbers(dels, 0, |dels|, oldNo)
  {
    hide Numbers, ShownOn, Paired, PairShows, Shown;
    var rows, k := Paired(dels, adds, oldNo, newNo), Min(|dels|, |adds|);
    forall j | 0 <= j < k ensures PairShows(Before, rows, dels, oldNo, j) { PairShown(dels, adds, oldNo, newNo, j); }
    PairsShown(Before, rows, dels, k, oldNo);
    forall i | 2 * k <= i < |rows| ensures Shown(Before, rows[i]) == if |dels| > k then [Numbered(oldNo + i - k, dels[i - k].text)] else [] {
      LeftOver(dels, adds, oldNo, newNo, i);
    }
    if |dels| > k {
      forall i | 2 * k <= i < |rows|
        ensures Shown(Before, rows[i]) == [Numbered(oldNo + k + i - 2 * k, dels[k + i - 2 * k].text)]
      {
        assert k + i - 2 * k == i - k && oldNo + k + i - 2 * k == oldNo + i - k;
      }
      RunShown(Before, rows, 2 * k, |rows|, dels, k, oldNo);
    } else {
      RunHidden(Before, rows, 2 * k, |rows|);
    }
  }

  lemma {:induction false} PairedAfter(dels: seq<Line>, adds: seq<Line>, oldNo: nat, newNo: nat)
    ensures AllShown(After, Paired(dels, adds, oldNo, newNo)) == Numbers(adds, 0, |adds|, newNo)
  {
    hide Numbers, ShownOn, Paired, PairShows, Shown;
    var rows, k := Paired(dels, adds, oldNo, newNo), Min(|dels|, |adds|);
    forall j | 0 <= j < k ensures PairShows(After, rows, adds, newNo, j) { PairShown(dels, adds, oldNo, newNo, j); }
    PairsShown(After, rows, adds, k, newNo);
    forall i | 2 * k <= i < |rows| ensures Shown(After, rows[i]) == if |dels| > k then [] else [Numbered(newNo + i - k, adds[i - k].text)] {
      LeftOver(dels, adds, oldNo, newNo, i);
    }
    if |dels| > k {
      RunHidden(After, rows, 2 * k, |rows|);
    } else {
      forall i | 2 * k <= i < |rows|
        ensures Shown(After, rows[i]) == [Numbered(newNo + k + i - 2 * k, adds[k + i - 2 * k].text)]
      {
        assert k + i - 2 * k == i - k && newNo + k + i - 2 * k == newNo + i - k;
      }
      RunShown(After, rows, 2 * k, |rows|, adds, k, newNo);
    }
  }

  lemma {:induction false} NumbersOfSlice(lines: seq<Line>, from: nat, to: nat, k: nat, no: nat)
    requires from <= to <= |lines| && k <= to - from
    ensures Numbers(lines[from..to], 0, k, no) == Numbers(lines, from, from + k, no)
  {
    if k > 0 { NumbersOfSlice(lines, from, to, k - 1, no); }
  }

  /** A stretch of lines that are all in the file on a side, and one of lines that are not. */
  lemma {:induction false} StretchOn(side: Side, lines: seq<Line>, from: nat, to: nat, no: nat)
    requires from <= to <= |lines| && forall k | from <= k < to :: IsOn(side, lines[k])
    ensures FileLines(side, lines, from, no) == Numbers(lines, from, to, no) + FileLines(side, lines, to, no + to - from)
  {
    if from < to {
      StretchOn(side, lines, from, to - 1, no);
      Assoc(Numbers(lines, from, to - 1, no), [Numbered(no + to - 1 - from, lines[to - 1].text)],
                FileLines(side, lines, to, no + to - from));
    }
  }

  lemma {:induction false} StretchOff(side: Side, lines: seq<Line>, from: nat, to: nat, no: nat)
    requires from <= to <= |lines| && forall k | from <= k < to :: !IsOn(side, lines[k])
    ensures FileLines(side, lines, from, no) == FileLines(side, lines, to, no)
  {
    if from < to { StretchOff(side, lines, from, to - 1, no); }
  }

  /** A block of deletions and additions shows each side what the file on that side has there. */
  lemma {:induction false} BlockBefore(lines: seq<Line>, i: nat, d: nat, a: nat, oldNo: nat, newNo: nat)
    requires i <= d <= a <= |lines|
    requires (forall k | i <= k < d :: lines[k].Del?) && forall k | d <= k < a :: lines[k].Add?
    ensures FileLines(Before, lines, i, oldNo)
            == AllShown(Before, Paired(lines[i..d], lines[d..a], oldNo, newNo)) + FileLines(Before, lines, a, oldNo + d - i)
  {
    PairedBefore(lines[i..d], lines[d..a], oldNo, newNo);
    StretchOn(Before, lines, i, d, oldNo);
    StretchOff(Before, lines, d, a, oldNo + d - i);
    NumbersOfSlice(lines, i, d, d - i, oldNo);
  }

  lemma {:induction false} BlockAfter(lines: seq<Line>, i: nat, d: nat, a: nat, oldNo: nat, newNo: nat)
    requires i <= d <= a <= |lines|
    requires (forall k | i <= k < d :: lines[k].Del?) && forall k | d <= k < a :: lines[k].Add?
    ensures FileLines(After, lines, i, newNo)
            == AllShown(After, Paired(lines[i..d], lines[d..a], oldNo, newNo)) + FileLines(After, lines, a, newNo + a - d)
  {
    PairedAfter(lines[i..d], lines[d..a], oldNo, newNo);
    StretchOff(After, lines, i, d, newNo);
    StretchOn(After, lines, d, a, newNo);
    NumbersOfSlice(lines, d, a, a - d, newNo);
  }

  function NumberOn(side: Side, oldNo: nat, newNo: nat): nat { if side.Before? then oldNo else newNo }

  /** A line rendered as a row of its own. */
  lemma {:induction false} SingleShown(side: Side, lines: seq<Line>, i: nat, oldNo: nat, newNo: nat, rest: seq<Row>)
    requires i < |lines|
    requires AllShown(side, rest) == FileLines(side, lines, i + 1, NumberOn(side, NextOld(lines[i], oldNo), NextNew(lines[i], newNo)))
    ensures AllShown(side, [RowOf(lines[i], oldNo, newNo)] + rest) == FileLines(side, lines, i, NumberOn(side, oldNo, newNo))
  {
    ShownAppend(side, [RowOf(lines[i], oldNo, newNo)], rest);
    ShownOne(side, RowOf(lines[i], oldNo, newNo));
  }

  lemma {:induction false} BlockShown(side: Side, lines: seq<Line>, i: nat, d: nat, a: nat, oldNo: nat, newNo: nat, rest: seq<Row>)
    requires i <= d <= a <= |lines|
    requires (forall k | i <= k < d :: lines[k].Del?) && forall k | d <= k < a :: lines[k].Add?
    requires AllShown(side, rest) == FileLines(side, lines, a, NumberOn(side, oldNo + d - i, newNo + a - d))
    ensures AllShown(side, Paired(lines[i..d], lines[d..a], oldNo, newNo) + rest)
            == FileLines(side, lines, i, NumberOn(side, oldNo, newNo))
  {
    ShownAppend(side, Paired(lines[i..d], lines[d..a], oldNo, newNo), rest);
    if side.Before? { BlockBefore(lines, i, d, a, oldNo, newNo); } else { BlockAfter(lines, i, d, a, oldNo, newNo); }
  }

  lemma {:induction false} BlockStep(side: Side, lines: seq<Line>, i: nat, d: nat, a: nat, oldNo: nat, newNo: nat)
    requires i < |lines| && lines[i].Del? && d == DelEnd(lines, i) && a == AddEnd(lines, d)
    requires AllShown(side, Render(lines, a, oldNo + d - i, newNo + a - d))
             == FileLines(side, lines, a, NumberOn(side, oldNo + d - i, newNo + a - d))
    ensures AllShown(side, Render(lines, i, oldNo, newNo)) == FileLines(side, lines, i, NumberOn(side, oldNo, newNo))
  {
    RenderedBlock(lines, i, d, a, oldNo, newNo);
    BlockShown(side, lines, i, d, a, oldNo, newNo, Render(lines, a, oldNo + d - i, newNo + a - d));
  }

  lemma {:induction false} RowStep(side: Side, lines: seq<Line>, i: nat, oldNo: nat, newNo: nat, oldNext: nat, newNext: nat)
    requires i < |lines| && !lines[i].Del? && oldNext == NextOld(lines[i], oldNo) && newNext == NextNew(lines[i], newNo)
    requires AllShown(side, Render(lines, i + 1, oldNext, newNext)) == FileLines(side, lines, i + 1, NumberOn(side, oldNext, newNext))
    ensures AllShown(side, Render(lines, i, oldNo, newNo)) == FileLines(side, lines, i, NumberOn(side, oldNo, newNo))
  {
    SingleShown(side, lines, i, oldNo, newNo, Render(lines, i + 1, oldNext, newNext));
  }

  lemma SidesAtEnd(side: Side, lines: seq<Line>, oldNo: nat, newNo: nat)
    ensures AllShown(side, Render(lines, |lines|, oldNo, newNo)) == FileLines(side, lines, |lines|, NumberOn(side, oldNo, newNo))
  {
  }

  /** Either side of the rows from an index on shows that file's lines from there on. */
  lemma {:induction false} SidesFrom(side: Side, lines: seq<Line>, i: nat, oldNo: nat, newNo: nat)
    requires i <= |lines|
    ensures AllShown(side, Render(lines, i, oldNo, newNo)) == FileLines(side, lines, i, NumberOn(side, oldNo, newNo))
    decreases |lines| - i
  {
    hide DelEnd, AddEnd, Render, AllShown, FileLines;
    if i == |lines| {
      SidesAtEnd(side, lines, oldNo, newNo);
    } else if lines[i].Del? {
      var d := DelEnd(lines, i);
      var a := AddEnd(lines, d);
      DelEndAfter(lines, i);
      SidesFrom(side, lines, a, oldNo + d - i, newNo + a - d);
      BlockStep(side, lines, i, d, a, oldNo, newNo);
    } else {
      var oldNext, newNext := NextOld(lines[i], oldNo), NextNew(lines[i], newNo);
      SidesFrom(side, lines, i + 1, oldNext, newNext);
      RowStep(side, lines, i, oldNo, newNo, oldNext, newNext);
    }
  }

  /** The hunk's lines that are in the file on a side. */
  function LinesOn(side: Side, lines: seq<Line>): seq<Line> {
    if lines == [] then [] else (if IsOn(side, lines[0]) then [lines[0]] else []) + LinesOn(side, lines[1..])
  }

  /** Numbered lines that carry the texts of other lines, numbered consecutively. */
  ghost predicate NumberedFrom(no: nat, file: seq<Numbered>, on: seq<Line>) {
    |file| == |on| && forall k | 0 <= k < |on| :: file[k] == Numbered(no + k, on[k].text)
  }

  lemma NumberedFirst(no: nat, file: seq<Numbered>, on: seq<Line>, line: Line)
    requires NumberedFrom(no + 1, file, on)
    ensures NumberedFrom(no, [Numbered(no, line.text)] + file, [line] + on)
  {
  }

  lemma LinesOnFirst(side: Side, lines: seq<Line>, i: nat)
    requires i < |lines|
    ensures var rest := LinesOn(side, lines[i + 1..]);
            LinesOn(side, lines[i..]) == if IsOn(side, lines[i]) then [lines[i]] + rest else rest
  {
    assert lines[i..][1..] == lines[i + 1..] && lines[i..][0] == lines[i];
  }

  lemma {:induction false} FileLinesNumbered(side: Side, lines: seq<Line>, i: nat, no: nat)
    requires i <= |lines|
    ensures NumberedFrom(no, FileLines(side, lines, i, no), LinesOn(side, lines[i..]))
    decreases |lines| - i
  {
    hide IsOn;
    if i < |lines| {
      hide NumberedFrom, LinesOn;
      LinesOnFirst(side, lines, i);
      if IsOn(side, lines[i]) {
        FileLinesNumbered(side, lines, i + 1, no + 1);
        NumberedFirst(no, FileLines(side, lines, i + 1, no + 1), LinesOn(side, lines[i + 1..]), lines[i]);
      } else {
        FileLinesNumbered(side, lines, i + 1, no);
      }
    }
  }

  /** Either side of the rows shows exactly that file's lines of the hunk, in order, numbered
      consecutively from the hunk's start, however deletions and additions are paired. */
  lemma {:induction false} SidesInOrder(side: Side, h: Hunk)
    ensures NumberedFrom(NumberOn(side, h.oldStart, h.newStart),
                         AllShown(side, Render(h.lines, 0, h.oldStart, h.newStart)), LinesOn(side, h.lines))
  {
    hide AllShown, Render, FileLines, LinesOn;
    SidesFrom(side, h.lines, 0, h.oldStart, h.newStart);
    FileLinesNumbered(side, h.lines, 0, NumberOn(side, h.oldStart, h.newStart));
    assert h.lines[0..] == h.lines;
  }

  lemma RenderedEnd(lines: seq<Line>, oldNo: nat, newNo: nat)
    ensures Render(lines, |lines|, oldNo, newNo) == []
  {
  }

  /** One row per line of the hunk. */
  lemma {:induction false} RowPerLine(lines: seq<Line>, i: nat, oldNo: nat, newNo: nat)
    requires i <= |lines|
    ensures |Render(lines, i, oldNo, newNo)| == |lines| - i
    decreases |lines| - i
  {
    hide Render, DelEnd, AddEnd;
    if i == |lines| {
      RenderedEnd(lines, oldNo, newNo);
    } else if lines[i].Del? {
      var d := DelEnd(lines, i);
      var a := AddEnd(lines, d);
      RenderedBlock(lines, i, d, a, oldNo, newNo);
      RowPerLine(lines, a, oldNo + d - i, newNo + a - d);
    } else {
      RenderedRow(lines, i, oldNo, newNo);
      RowPerLine(lines, i + 1, NextOld(lines[i], oldNo), NextNew(lines[i], newNo));
    }
  }
}
