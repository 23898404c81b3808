/** What the renderings of a terminal grid show, cell by cell and row by row: `styled.rs` and `term.rs` in
    `crates/codegen/ptyctl/src`. */
module ScreenFacts {
  import opened Common
  import opened Lines
  import opened Screen

  /** The character shown instead of a cell's own. */
  function ShownAt(cur: Cursor, line: nat, col: nat): Option<char> {
    if cur.row == line && cur.col == col + 1 then cur.shown else None
  }

  // --- plain text ---------------------------------------------------------------------------------

  /** What a cell adds to a plain line: nothing when it only pads a wide character; the shown character
      alone; or its own character and the zero-width ones after it. */
  function CellText(cell: Cell, shown: Option<char>): string {
    if cell.spacer then "" else if shown.Some? then [shown.value] else [cell.c] + cell.zeroWidth
  }

  /** The cells' texts from left to right. */
  function RowText(row: Row, from: nat, to: nat, cur: Cursor, line: nat): string
    requires to <= |row|
    decreases if from < to then to - from else 0
  {
    if from >= to then "" else CellText(row[from], ShownAt(cur, line, from)) + RowText(row, from + 1, to, cur, line)
  }

  lemma {:induction false} RowTextLast(row: Row, from: nat, to: nat, cur: Cursor, line: nat)
    requires from < to <= |row|
    ensures RowText(row, from, to, cur, line) == RowText(row, from, to - 1, cur, line) + CellText(row[to - 1], ShownAt(cur, line, to - 1))
    decreases if from < to then to - from else 0
  {
    hide CellText, ShownAt;
    var first := CellText(row[from], ShownAt(cur, line, from));
    if from + 1 < to {
      RowTextLast(row, from + 1, to, cur, line);
      Assoc(first, RowText(row, from + 1, to - 1, cur, line), CellText(row[to - 1], ShownAt(cur, line, to - 1)));
    } else {
      assert RowText(row, to, to, cur, line) == "" && RowText(row, from, from, cur, line) == "";
    }
  }

  /** A plain line is the text of its cells. */
  lemma {:induction false} PlainTextIs(row: Row, from: nat, to: nat, cur: Cursor, line: nat)
    requires to <= |row|
    ensures PlainText(row, from, to, cur, line) == RowText(row, from, to, cur, line)
  {
    hide PlainText, RowText, CellText, ShownAt;
    PlainTextLast(row, from, to, cur, line);
    if from < to {
      PlainTextIs(row, from, to - 1, cur, line);
      RowTextLast(row, from, to, cur, line);
    }
  }

  lemma PlainTextLast(row: Row, from: nat, to: nat, cur: Cursor, line: nat)
    requires to <= |row|
    ensures to <= from ==> PlainText(row, from, to, cur, line) == "" && RowText(row, from, to, cur, line) == ""
    ensures from < to ==> PlainText(row, from, to, cur, line)
                          == PlainText(row, from, to - 1, cur, line) + CellText(row[to - 1], ShownAt(cur, line, to - 1))
  {
    if from < to { hide RowText; }
  }

  // --- styled runs -----------------------------------------------------------------------------------

  datatype Paint = Paint(c: char, style: Style)

  function Tagged(text: string, style: Style): (r: seq<Paint>)
    ensures |r| == |text| && forall i | 0 <= i < |text| :: r[i] == Paint(text[i], style)
  {
    seq(|text|, i requires 0 <= i < |text| => Paint(text[i], style))
  }

  /** The characters of the runs, each with its run's style. */
  function PaintOf(runs: seq<StyledRun>): seq<Paint> {
    if runs == [] then [] else PaintOf(runs[..|runs| - 1]) + Tagged(runs[|runs| - 1].text, runs[|runs| - 1].style)
  }

  /** What a cell adds to a styled line, in its own style. */
  function CellPaint(cell: Cell, shown: Option<char>): seq<Paint> {
    if cell.spacer then [] else Tagged([if shown.Some? then shown.value else cell.c] + cell.zeroWidth, cell.style)
  }

  function RowPaint(row: Row, from: nat, to: nat, cur: Cursor, line: nat): seq<Paint>
    requires to <= |row|
    decreases if from < to then to - from else 0
  {
    if from >= to then [] else CellPaint(row[from], ShownAt(cur, line, from)) + RowPaint(row, from + 1, to, cur, line)
  }

  lemma {:induction false} RowPaintLast(row: Row, from: nat, to: nat, cur: Cursor, line: nat)
    requires from < to <= |row|
    ensures RowPaint(row, from, to, cur, line) == RowPaint(row, from, to - 1, cur, line) + CellPaint(row[to - 1], ShownAt(cur, line, to - 1))
    decreases if from < to then to - from else 0
  {
    hide CellPaint, ShownAt;
    var first := CellPaint(row[from], ShownAt(cur, line, from));
    if from + 1 < to {
      RowPaintLast(row, from + 1, to, cur, line);
      Assoc(first, RowPaint(row, from + 1, to - 1, cur, line), CellPaint(row[to - 1], ShownAt(cur, line, to - 1)));
    } else {
      assert RowPaint(row, to, to, cur, line) == [] && RowPaint(row, from, from, cur, line) == [];
    }
  }

  lemma PaintLast(runs: seq<StyledRun>, text: string, style: Style)
    ensures PaintOf(runs + [StyledRun(text, style)]) == PaintOf(runs) + Tagged(text, style)
  {
    assert (runs + [StyledRun(text, style)])[..|runs|] == runs;
  }

  lemma TaggedAppend(a: string, b: string, style: Style)
    ensures Tagged(a + b, style) == Tagged(a, style) + Tagged(b, style)
  {
  }

  lemma ExtendPaint(runs: seq<StyledRun>, text: string, style: Style)
    ensures PaintOf(Extend(runs, text, style)) == PaintOf(runs) + Tagged(text, style)
  {
    hide PaintOf, Tagged;
    PaintLast(runs, text, style);
    if runs != [] && runs[|runs| - 1].style == style {
      var init, last := runs[..|runs| - 1], runs[|runs| - 1];
      InitLast(runs);
      PaintLast(init, last.text, style);
      PaintLast(init, last.text + text, style);
      TaggedAppend(last.text, text, style);
      Assoc(PaintOf(init), Tagged(last.text, style), Tagged(text, style));
    }
  }

  /** Runs paint each cell's characters in that cell's style, from left to right. */
  lemma {:induction false} RunsPaintCells(row: Row, from: nat, to: nat, cur: Cursor, line: nat)
    requires to <= |row|
    ensures PaintOf(Coalesced(row, from, to, cur, line)) == RowPaint(row, from, to, cur, line)
  {
    hide PaintOf, Tagged, Extend;
    if from < to {
      var cell := row[to - 1];
      RunsPaintCells(row, from, to - 1, cur, line);
      RowPaintLast(row, from, to, cur, line);
      if !cell.spacer {
        ExtendPaint(Coalesced(row, from, to - 1, cur, line), StyledGlyph(cell, cur, line, to - 1), cell.style);
      }
    } else {
      NoPaint();
    }
  }

  lemma NoPaint()
    ensures PaintOf([]) == []
  {
  }

  /** A blank in the default colours that is not bold. */
  predicate Invisible(p: Paint) { IsSpace(p.c) && p.style.fg.None? && p.style.bg.None? && !p.style.bold }

  lemma {:induction false} TrimPaint(runs: seq<StyledRun>) returns (rest: seq<Paint>)
    ensures PaintOf(TrimRuns(runs)) + rest == PaintOf(runs) && forall i | 0 <= i < |rest| :: Invisible(rest[i])
  {
    if runs != [] && Droppable(runs[|runs| - 1]) {
      var last := runs[|runs| - 1];
      var before := TrimPaint(runs[..|runs| - 1]);
      rest := before + Tagged(last.text, last.style);
      Assoc(PaintOf(TrimRuns(runs)), before, Tagged(last.text, last.style));
    } else {
      rest := [];
    }
  }

  /** A styled line paints its cells, save for trailing blanks in the default colours that are not bold;
      and it does not end in a run of such blanks. */
  lemma {:induction false} StyledLinePaints(row: Row, from: nat, to: nat, cur: Cursor, line: nat) returns (rest: seq<Paint>)
    requires to <= |row|
    ensures var runs := StyledLine(row, from, to, cur, line);
            && PaintOf(runs) + rest == RowPaint(row, from, to, cur, line) && (forall i | 0 <= i < |rest| :: Invisible(rest[i]))
            && (runs != [] ==> var last := runs[|runs| - 1];
                  last.style.fg.Some? || last.style.bg.Some? || last.style.bold || exists i | 0 <= i < |last.text| :: !IsSpace(last.text[i]))
  {
    hide PaintOf, RowPaint, Coalesced, TrimRuns;
    RunsPaintCells(row, from, to, cur, line);
    rest := TrimPaint(Coalesced(row, from, to, cur, line));
    StyledLineMaximal(row, from, to, cur, line);
  }

  // --- whole screens --------------------------------------------------------------------------------------

  /** Row `i` of the window, as text and as runs. */
  function WindowText(grid: seq<Row>, w: Window, cur: Cursor, i: nat): string
    requires Fits(grid, w) && w.rowFrom + i < RowEnd(w)
  {
    RowText(grid[w.rowFrom + i], w.colFrom, w.colTo, cur, w.rowFrom + i + 1)
  }

  function WindowRuns(grid: seq<Row>, w: Window, cur: Cursor, i: nat): seq<StyledRun>
    requires Fits(grid, w) && w.rowFrom + i < RowEnd(w)
  {
    StyledLine(grid[w.rowFrom + i], w.colFrom, w.colTo, cur, w.rowFrom + i + 1)
  }

  lemma {:induction false} RowsRendered(grid: seq<Row>, w: Window, cur: Cursor, n: nat, i: nat)
    requires Fits(grid, w) && w.rowFrom <= n <= RowEnd(w) && i < n - w.rowFrom
    ensures PlainLines(grid, w, cur, n)[i] == WindowText(grid, w, cur, i) && StyledLines(grid, w, cur, n)[i] == WindowRuns(grid, w, cur, i)
  {
    hide StyledLine, PlainText, RowText;
    if i < n - 1 - w.rowFrom { RowsRendered(grid, w, cur, n - 1, i); } else { PlainTextIs(grid[n - 1], w.colFrom, w.colTo, cur, n); }
  }

  /** The plain screen is the window's rows from its first on, each without its trailing blanks; unless
      empty lines are kept, it stops after the last row that is not blank. */
  lemma {:induction false} ContentRows(grid: seq<Row>, w: Window, cur: Cursor, keepEmpty: bool)
    requires Fits(grid, w)
    ensures var lines, rows := Content(grid, w, cur, keepEmpty), RowEnd(w) - w.rowFrom;
            && |lines| <= rows && (keepEmpty ==> |lines| == rows)
            && (forall i: nat | i < |lines| :: lines[i] == StripRight(WindowText(grid, w, cur, i)))
            && (forall i: nat | |lines| <= i < rows :: IsBlank(WindowText(grid, w, cur, i)))
            && (!keepEmpty && lines != [] ==> lines[|lines| - 1] != "")
  {
    hide PlainLines, StyledLines, TrimBlankLines, WindowText, StripRight, WindowRuns, IsBlank;
    var all := PlainLines(grid, w, cur, RowEnd(w));
    forall i: nat | i < |all| ensures all[i] == WindowText(grid, w, cur, i) { RowsRendered(grid, w, cur, RowEnd(w), i); }
    TrimBlankPrefix(all);
    var kept := TrimBlankLines(all);
    if kept != [] { StripEmpty(kept[|kept| - 1]); }
  }

  /** The styled screen is the styled lines of the window's rows; unless empty lines are kept, it stops
      after the last one that has a run. */
  lemma {:induction false} StyledRows(grid: seq<Row>, w: Window, cur: Cursor, keepEmpty: bool)
    requires Fits(grid, w)
    ensures var lines, rows := Styled(grid, w, cur, keepEmpty), RowEnd(w) - w.rowFrom;
            && |lines| <= rows && (keepEmpty ==> |lines| == rows)
            && (forall i: nat | i < |lines| :: lines[i] == WindowRuns(grid, w, cur, i))
            && (forall i: nat | |lines| <= i < rows :: WindowRuns(grid, w, cur, i) == [])
            && (!keepEmpty && lines != [] ==> lines[|lines| - 1] != [])
  {
    hide PlainLines, StyledLines, TrimEmptyLines, WindowText, WindowRuns;
    var all := StyledLines(grid, w, cur, RowEnd(w));
    forall i: nat | i < |all| ensures all[i] == WindowRuns(grid, w, cur, i) { RowsRendered(grid, w, cur, RowEnd(w), i); }
    TrimEmptyPrefix(all);
    TrimEmptyEnd(all);
  }

  lemma {:induction false} TrimEmptyEnd(lines: seq<seq<StyledRun>>)
    ensures var t := TrimEmptyLines(lines); t != [] ==> t[|t| - 1] != []
  {
    if lines != [] && lines[|lines| - 1] == [] { TrimEmptyEnd(lines[..|lines| - 1]); }
  }
}
