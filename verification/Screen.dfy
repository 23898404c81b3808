/** Two renderings of one terminal grid: plain text (`screen_content` in
    `crates/codegen/ptyctl/src/term.rs`) and styled runs (`extract_styled_line` in
    `crates/codegen/ptyctl/src/styled.rs`, `screen_styled` in `term.rs`). */
module Screen {
  import opened Common
  import opened Lines

  datatype Style = Style(fg: Option<string>, bg: Option<string>, bold: bool, italic: bool, underline: bool,
                         strikeout: bool, dim: bool, inverse: bool)

  /** A cell's character, its zero-width followers, and whether it only pads a wide character. */
  datatype Cell = Cell(c: char, zeroWidth: string, spacer: bool, style: Style)

  datatype StyledRun = StyledRun(text: string, style: Style)

  /** Where the cursor is (1-based) and what to show there, if anything. */
  datatype Cursor = Cursor(row: nat, col: nat, shown: Option<char>)

  type Row = seq<Cell>

  // --- one line ----------------------------------------------------------------------------------

  predicate OnCursor(cur: Cursor, line: nat, col: nat) { cur.row == line && cur.col == col + 1 && cur.shown.Some? }

  /** The plain rendering drops a replaced cell's zero-width characters. */
  function PlainGlyph(cell: Cell, cur: Cursor, line: nat, col: nat): string {
    if OnCursor(cur, line, col) then [cur.shown.value] else [cell.c] + cell.zeroWidth
  }

  /** The styled rendering keeps them. */
  function StyledGlyph(cell: Cell, cur: Cursor, line: nat, col: nat): string {
    [if OnCursor(cur, line, col) then cur.shown.value else cell.c] + cell.zeroWidth
  }

  /** The plain text of columns `from` to `to` (exclusive). */
  function PlainText(row: Row, from: nat, to: nat, cur: Cursor, line: nat): string
    requires to <= |row|
  {
    if to <= from then ""
    else
      var cell := row[to - 1];
      PlainText(row, from, to - 1, cur, line) + if cell.spacer then "" else PlainGlyph(cell, cur, line, to - 1)
  }

  function StyledText(row: Row, from: nat, to: nat, cur: Cursor, line: nat): string
    requires to <= |row|
  {
    if to <= from then ""
    else
      var cell := row[to - 1];
      StyledText(row, from, to - 1, cur, line) + if cell.spacer then "" else StyledGlyph(cell, cur, line, to - 1)
  }

  /** Add text in a style, extending the last run when it has that style. */
  function Extend(runs: seq<StyledRun>, text: string, style: Style): seq<StyledRun> {
    if runs != [] && runs[|runs| - 1].style == style
    then runs[..|runs| - 1] + [StyledRun(runs[|runs| - 1].text + text, style)]
    else runs + [StyledRun(text, style)]
  }

  function Coalesced(row: Row, from: nat, to: nat, cur: Cursor, line: nat): seq<StyledRun>
    requires to <= |row|
  {
    if to <= from then []
    else
      var cell, runs := row[to - 1], Coalesced(row, from, to - 1, cur, line);
      if cell.spacer then runs else Extend(runs, StyledGlyph(cell, cur, line, to - 1), cell.style)
  }

  /** Trailing runs of white space are dropped when they have no colour and are not bold. */
  predicate Droppable(r: StyledRun) { IsBlank(r.text) && r.style.fg.None? && r.style.bg.None? && !r.style.bold }

  function TrimRuns(runs: seq<StyledRun>): seq<StyledRun> {
    if runs != [] && Droppable(runs[|runs| - 1]) then TrimRuns(runs[..|runs| - 1]) else runs
  }

  function StyledLine(row: Row, from: nat, to: nat, cur: Cursor, line: nat): seq<StyledRun>
    requires to <= |row|
  {
    TrimRuns(Coalesced(row, from, to, cur, line))
  }

  lemma PlainNone(row: Row, from: nat, cur: Cursor, line: nat)
    ensures forall to: nat | to <= |row| && to <= from :: PlainText(row, from, to, cur, line) == ""
  {
  }

  lemma PlainNext(row: Row, from: nat, col: nat, cur: Cursor, line: nat)
    requires from <= col < |row|
    ensures var text := PlainText(row, from, col, cur, line);
            PlainText(row, from, col + 1, cur, line) == if row[col].spacer then text else text + PlainGlyph(row[col], cur, line, col)
  {
  }

  method ExtractPlain(row: Row, from: nat, to: nat, cur: Cursor, line: nat) returns (text: string)
    requires to <= |row|
    ensures text == PlainText(row, from, to, cur, line)
  {
    hide PlainText;
    PlainNone(row, from, cur, line);
    text := "";
    var col := from;
    while col < to
      invariant from <= col && (from <= to ==> col <= to)
      invariant col <= to ==> text == PlainText(row, from, col, cur, line)
      invariant to <= from ==> text == ""
    {
      PlainNext(row, from, col, cur, line);
      var cell := row[col];
      if !cell.spacer {
        if OnCursor(cur, line, col) {
          text := text + [cur.shown.value];
        } else {
          text := text + ([cell.c] + cell.zeroWidth);
        }
      }
      col := col + 1;
    }
  }

  /** Finished runs followed by the run being built. */
  function Flushed(runs: seq<StyledRun>, text: string, style: Option<Style>): seq<StyledRun> {
    if text != "" && style.Some? then runs + [StyledRun(text, style.value)] else runs
  }

  lemma ExtendFlushed(runs: seq<StyledRun>, text: string, style: Option<Style>, glyph: string, cellStyle: Style)
    requires style.None? <==> text == ""
    requires style.None? ==> runs == []
    ensures Extend(Flushed(runs, text, style), glyph, cellStyle)
            == if style == Some(cellStyle) then runs + [StyledRun(text + glyph, cellStyle)]
               else Flushed(runs, text, style) + [StyledRun(glyph, cellStyle)]
  {
    var f := Flushed(runs, text, style);
    if style.Some? { assert f[..|f| - 1] == runs; }
  }

  lemma CoalescedNone(row: Row, from: nat, cur: Cursor, line: nat)
    ensures forall to: nat | to <= |row| && to <= from :: Coalesced(row, from, to, cur, line) == []
  {
  }

  lemma CoalescedNext(row: Row, from: nat, col: nat, cur: Cursor, line: nat)
    requires from <= col < |row|
    ensures var runs := Coalesced(row, from, col, cur, line);
            Coalesced(row, from, col + 1, cur, line)
            == if row[col].spacer then runs else Extend(runs, StyledGlyph(row[col], cur, line, col), row[col].style)
  {
  }

  method CoalesceRuns(row: Row, from: nat, to: nat, cur: Cursor, line: nat) returns (runs: seq<StyledRun>)
    requires to <= |row|
    ensures runs == Coalesced(row, from, to, cur, line)
  {
    hide Coalesced, Extend;
    CoalescedNone(row, from, cur, line);
    runs := [];
    var text, style: Option<Style> := "", None;
    var col := from;
    while col < to
      invariant from <= col && (from <= to ==> col <= to)
      invariant style.None? <==> text == ""
      invariant style.None? ==> runs == []
      invariant col <= to ==> Flushed(runs, text, style) == Coalesced(row, from, col, cur, line)
      invariant to <= from ==> text == ""
    {
      var cell := row[col];
      CoalescedNext(row, from, col, cur, line);
      if !cell.spacer {
        var ch := if OnCursor(cur, line, col) then cur.shown.value else cell.c;
        ExtendFlushed(runs, text, style, [ch] + cell.zeroWidth, cell.style);
        if style.Some? {
          if style.value != cell.style {
            if text != "" {
              runs := runs + [StyledRun(text, style.value)];
              text := "";
            }
            style := Some(cell.style);
          }
        } else {
          style := Some(cell.style);
        }
        assert text == "" ==> text + ([ch] + cell.zeroWidth) == [ch] + cell.zeroWidth;
        text := text + ([ch] + cell.zeroWidth);
      }
      col := col + 1;
    }
    if text != "" && style.Some? { runs := runs + [StyledRun(text, style.value)]; }
  }

  method ExtractStyled(row: Row, from: nat, to: nat, cur: Cursor, line: nat) returns (runs: seq<StyledRun>)
    requires to <= |row|
    ensures runs == StyledLine(row, from, to, cur, line)
  {
    runs := CoalesceRuns(row, from, to, cur, line);
    ghost var whole := runs;
    while runs != [] && Droppable(runs[|runs| - 1])
      invariant TrimRuns(runs) == TrimRuns(whole)
    {
      runs := runs[..|runs| - 1];
    }
  }

  // --- the line renderings agree --------------------------------------------------------------------

  function TextOf(runs: seq<StyledRun>): string {
    if runs == [] then "" else TextOf(runs[..|runs| - 1]) + runs[|runs| - 1].text
  }

  lemma ExtendText(runs: seq<StyledRun>, text: string, style: Style)
    ensures TextOf(Extend(runs, text, style)) == TextOf(runs) + text
  {
    var e := Extend(runs, text, style);
    if runs != [] && runs[|runs| - 1].style == style {
      assert e[..|e| - 1] == runs[..|runs| - 1];
    } else {
      assert e[..|e| - 1] == runs;
    }
  }

  lemma {:induction false} CoalescedText(row: Row, from: nat, to: nat, cur: Cursor, line: nat)
    requires to <= |row|
    ensures TextOf(Coalesced(row, from, to, cur, line)) == StyledText(row, from, to, cur, line)
  {
    hide TextOf, StyledGlyph, Extend;
    if from < to {
      var cell := row[to - 1];
      CoalescedText(row, from, to - 1, cur, line);
      if !cell.spacer {
        ExtendText(Coalesced(row, from, to - 1, cur, line), StyledGlyph(cell, cur, line, to - 1), cell.style);
      } else {
        assert StyledText(row, from, to - 1, cur, line) + "" == StyledText(row, from, to - 1, cur, line);
      }
    } else {
      NoRunsText();
    }
  }

  lemma NoRunsText()
    ensures TextOf([]) == ""
  {
  }

  lemma {:induction false} StripBlankSuffix(a: string, b: string)
    requires IsBlank(b)
    ensures StripRight(a + b) == StripRight(a)
  {
    if b == "" {
      assert a + b == a;
    } else {
      assert (a + b)[..|a + b| - 1] == a + b[..|b| - 1];
      StripBlankSuffix(a, b[..|b| - 1]);
    }
  }

  lemma {:induction false} TrimKeepsText(runs: seq<StyledRun>)
    ensures StripRight(TextOf(TrimRuns(runs))) == StripRight(TextOf(runs))
  {
    if runs != [] && Droppable(runs[|runs| - 1]) {
      TrimKeepsText(runs[..|runs| - 1]);
      StripBlankSuffix(TextOf(runs[..|runs| - 1]), runs[|runs| - 1].text);
    }
  }

  /** Neighbouring runs differ in style and no run is empty: runs are maximal. */
  ghost predicate Maximal(runs: seq<StyledRun>) {
    && (forall i | 0 <= i < |runs| :: runs[i].text != "")
    && forall i, j | 0 <= i && i + 1 == j < |runs| :: runs[i].style != runs[j].style
  }

  lemma {:induction false} CoalescedMaximal(row: Row, from: nat, to: nat, cur: Cursor, line: nat)
    requires to <= |row|
    ensures Maximal(Coalesced(row, from, to, cur, line))
  {
    if from < to { CoalescedMaximal(row, from, to - 1, cur, line); }
  }

  lemma {:induction false} TrimMaximal(runs: seq<StyledRun>)
    requires Maximal(runs)
    ensures Maximal(TrimRuns(runs))
    ensures TrimRuns(runs) != [] ==> !Droppable(TrimRuns(runs)[|TrimRuns(runs)| - 1])
  {
    if runs != [] && Droppable(runs[|runs| - 1]) { TrimMaximal(runs[..|runs| - 1]); }
  }

  lemma {:induction false} SameGlyphs(row: Row, from: nat, to: nat, cur: Cursor, line: nat)
    requires to <= |row|
    requires forall k | from <= k < to && !row[k].spacer && OnCursor(cur, line, k) :: row[k].zeroWidth == ""
    ensures StyledText(row, from, to, cur, line) == PlainText(row, from, to, cur, line)
  {
    hide StyledGlyph, PlainGlyph;
    if from < to {
      SameGlyphs(row, from, to - 1, cur, line);
      if !row[to - 1].spacer { SameGlyph(row[to - 1], cur, line, to - 1); }
    }
  }

  /** The replaced cell, if it is in the window and visible, with zero-width characters. */
  predicate CursorCombines(row: Row, from: nat, to: nat, cur: Cursor, line: nat)
    requires to <= |row|
  {
    && cur.shown.Some? && cur.row == line && from < cur.col <= to
    && !row[cur.col - 1].spacer && row[cur.col - 1].zeroWidth != ""
  }

  lemma SameGlyph(cell: Cell, cur: Cursor, line: nat, col: nat)
    requires OnCursor(cur, line, col) ==> cell.zeroWidth == ""
    ensures StyledGlyph(cell, cur, line, col) == PlainGlyph(cell, cur, line, col)
  {
  }

  lemma {:induction false} GlyphLengths(row: Row, from: nat, to: nat, cur: Cursor, line: nat)
    requires to <= |row|
    ensures |StyledText(row, from, to, cur, line)| == |PlainText(row, from, to, cur, line)|
            + if CursorCombines(row, from, to, cur, line) then |row[cur.col - 1].zeroWidth| else 0
  {
    hide StyledGlyph, PlainGlyph;
    if from < to {
      var cell := row[to - 1];
      GlyphLengths(row, from, to - 1, cur, line);
      GlyphLength(cell, cur, line, to - 1);
      assert CursorCombines(row, from, to, cur, line) <==>
             CursorCombines(row, from, to - 1, cur, line) || (OnCursor(cur, line, to - 1) && !cell.spacer && cell.zeroWidth != "");
    }
  }

  lemma GlyphLength(cell: Cell, cur: Cursor, line: nat, col: nat)
    ensures |StyledGlyph(cell, cur, line, col)|
            == |PlainGlyph(cell, cur, line, col)| + if OnCursor(cur, line, col) then |cell.zeroWidth| else 0
  {
  }

  /** The two renderings of a line carry the same characters exactly when no replaced cell has
      zero-width characters; in particular whenever no cursor character is asked for. */
  lemma {:induction false} LinesCarrySameText(row: Row, from: nat, to: nat, cur: Cursor, line: nat)
    requires to <= |row|
    ensures TextOf(Coalesced(row, from, to, cur, line)) == PlainText(row, from, to, cur, line)
            <==> !CursorCombines(row, from, to, cur, line)
    ensures !CursorCombines(row, from, to, cur, line) ==>
            StripRight(TextOf(StyledLine(row, from, to, cur, line))) == StripRight(PlainText(row, from, to, cur, line))
  {
    hide Coalesced, TextOf, StyledText, PlainText, TrimRuns, StripRight;
    CoalescedText(row, from, to, cur, line);
    TrimKeepsText(Coalesced(row, from, to, cur, line));
    GlyphLengths(row, from, to, cur, line);
    if !CursorCombines(row, from, to, cur, line) { SameGlyphs(row, from, to, cur, line); }
    var styled, plain := StyledText(row, from, to, cur, line), PlainText(row, from, to, cur, line);
    assert CursorCombines(row, from, to, cur, line) ==> |styled| != |plain|;
  }

  /** A row of one cell with zero-width characters under a shown cursor: the styled rendering keeps
      them, the plain one does not. */
  lemma {:induction false} CursorCellDiffers(cell: Cell, shown: char, line: nat)
    requires !cell.spacer && cell.zeroWidth != ""
    ensures var cur := Cursor(line, 1, Some(shown));
            && PlainText([cell], 0, 1, cur, line) == [shown]
            && TextOf(Coalesced([cell], 0, 1, cur, line)) == [shown] + cell.zeroWidth
  {
    var cur := Cursor(line, 1, Some(shown));
    CoalescedText([cell], 0, 1, cur, line);
    assert PlainText([cell], 0, 0, cur, line) == "" && StyledText([cell], 0, 0, cur, line) == "";
  }

  lemma {:induction false} StyledLineMaximal(row: Row, from: nat, to: nat, cur: Cursor, line: nat)
    requires to <= |row|
    ensures var runs := StyledLine(row, from, to, cur, line);
            Maximal(runs) && (runs != [] ==> !Droppable(runs[|runs| - 1]))
  {
    CoalescedMaximal(row, from, to, cur, line);
    TrimMaximal(Coalesced(row, from, to, cur, line));
  }

  // --- whole screens -----------------------------------------------------------------------------------

  datatype Window = Window(rowFrom: nat, rowTo: nat, colFrom: nat, colTo: nat)

  /** A window inside the grid; it may be empty either way. */
  ghost predicate Fits(grid: seq<Row>, w: Window) {
    w.rowFrom <= |grid| && w.rowTo <= |grid| && forall i | 0 <= i < |grid| :: w.colTo <= |grid[i]|
  }

  /** Where the rows of a window end: where they start when the window is empty. */
  function RowEnd(w: Window): nat { Max(w.rowFrom, w.rowTo) }

  function TrimBlankLines(lines: seq<string>): seq<string> {
    if lines != [] && IsBlank(lines[|lines| - 1]) then TrimBlankLines(lines[..|lines| - 1]) else lines
  }

  function TrimEmptyLines(lines: seq<seq<StyledRun>>): seq<seq<StyledRun>> {
    if lines != [] && lines[|lines| - 1] == [] then TrimEmptyLines(lines[..|lines| - 1]) else lines
  }

  function PlainLines(grid: seq<Row>, w: Window, cur: Cursor, n: nat): (r: seq<string>)
    requires Fits(grid, w) && w.rowFrom <= n <= RowEnd(w)
    ensures |r| == n - w.rowFrom
  {
    if n == w.rowFrom then [] else PlainLines(grid, w, cur, n - 1) + [PlainText(grid[n - 1], w.colFrom, w.colTo, cur, n)]
  }

  function StyledLines(grid: seq<Row>, w: Window, cur: Cursor, n: nat): (r: seq<seq<StyledRun>>)
    requires Fits(grid, w) && w.rowFrom <= n <= RowEnd(w)
    ensures |r| == n - w.rowFrom
  {
    if n == w.rowFrom then [] else StyledLines(grid, w, cur, n - 1) + [StyledLine(grid[n - 1], w.colFrom, w.colTo, cur, n)]
  }

  function TrimEach(lines: seq<string>): (r: seq<string>)
    ensures |r| == |lines| && forall i | 0 <= i < |lines| :: r[i] == StripRight(lines[i])
  {
    seq(|lines|, i requires 0 <= i < |lines| => StripRight(lines[i]))
  }

  function Content(grid: seq<Row>, w: Window, cur: Cursor, keepEmpty: bool): seq<string>
    requires Fits(grid, w)
  {
    var lines := PlainLines(grid, w, cur, RowEnd(w));
    TrimEach(if keepEmpty then lines else TrimBlankLines(lines))
  }

  function Styled(grid: seq<Row>, w: Window, cur: Cursor, keepEmpty: bool): seq<seq<StyledRun>>
    requires Fits(grid, w)
  {
    var lines := StyledLines(grid, w, cur, RowEnd(w));
    if keepEmpty then lines else TrimEmptyLines(lines)
  }

  method ScreenContent(grid: seq<Row>, w: Window, cur: Cursor, keepEmpty: bool) returns (lines: seq<string>)
    requires Fits(grid, w)
    ensures lines == Content(grid, w, cur, keepEmpty)
  {
    lines := [];
    for n := w.rowFrom to RowEnd(w)
      invariant lines == PlainLines(grid, w, cur, n)
    {
      var text := ExtractPlain(grid[n], w.colFrom, w.colTo, cur, n + 1);
      lines := lines + [text];
    }
    if !keepEmpty {
      ghost var whole := lines;
      while lines != [] && IsBlank(lines[|lines| - 1])
        invariant TrimBlankLines(lines) == TrimBlankLines(whole)
      {
        lines := lines[..|lines| - 1];
      }
    }
    lines := TrimEach(lines);
  }

  method ScreenStyled(grid: seq<Row>, w: Window, cur: Cursor, keepEmpty: bool) returns (lines: seq<seq<StyledRun>>)
    requires Fits(grid, w)
    ensures lines == Styled(grid, w, cur, keepEmpty)
  {
    lines := [];
    for n := w.rowFrom to RowEnd(w)
      invariant lines == StyledLines(grid, w, cur, n)
    {
      var runs := ExtractStyled(grid[n], w.colFrom, w.colTo, cur, n + 1);
      lines := lines + [runs];
    }
    if !keepEmpty {
      ghost var whole := lines;
      while lines != [] && lines[|lines| - 1] == []
        invariant TrimEmptyLines(lines) == TrimEmptyLines(whole)
      {
        lines := lines[..|lines| - 1];
      }
    }
  }

  /** No line of the window replaces a cell that has zero-width characters. */
  ghost predicate NothingCombines(grid: seq<Row>, w: Window, cur: Cursor)
    requires Fits(grid, w)
  {
    forall n: nat | w.rowFrom <= n < RowEnd(w) :: !CursorCombines(grid[n], w.colFrom, w.colTo, cur, n + 1)
  }

  lemma {:induction false} LinesAgree(grid: seq<Row>, w: Window, cur: Cursor, n: nat, i: nat)
    requires Fits(grid, w) && w.rowFrom <= n <= RowEnd(w) && i < n - w.rowFrom && NothingCombines(grid, w, cur)
    ensures StripRight(TextOf(StyledLines(grid, w, cur, n)[i])) == StripRight(PlainLines(grid, w, cur, n)[i])
  {
    hide TextOf, StripRight, StyledLine, PlainText, Coalesced;
    if i < n - 1 - w.rowFrom {
      LinesAgree(grid, w, cur, n - 1, i);
    } else {
      LinesCarrySameText(grid[n - 1], w.colFrom, w.colTo, cur, n);
    }
  }

  lemma {:induction false} TrimEmptyPrefix(lines: seq<seq<StyledRun>>)
    ensures TrimEmptyLines(lines) <= lines
    ensures forall i | |TrimEmptyLines(lines)| <= i < |lines| :: lines[i] == []
  {
    if lines != [] && lines[|lines| - 1] == [] { TrimEmptyPrefix(lines[..|lines| - 1]); }
  }

  lemma {:induction false} TrimBlankPrefix(lines: seq<string>)
    ensures TrimBlankLines(lines) <= lines
    ensures forall i | |TrimBlankLines(lines)| <= i < |lines| :: IsBlank(lines[i])
    ensures var t := TrimBlankLines(lines); t != [] ==> !IsBlank(t[|t| - 1])
  {
    if lines != [] && IsBlank(lines[|lines| - 1]) { TrimBlankPrefix(lines[..|lines| - 1]); }
  }

  lemma {:induction false} StripEmpty(s: string)
    ensures StripRight(s) == "" <==> IsBlank(s)
  {
    if s != "" && IsSpace(s[|s| - 1]) { StripEmpty(s[..|s| - 1]); }
  }

  lemma EmptyRunText()
    ensures StripRight(TextOf([])) == ""
  {
  }

  /** The styled screen has at least the lines of the plain one; line by line the right-trimmed
      styled text is the plain text, and the styled screen's extra lines hold white space only. */
  lemma {:induction false} ScreensAgree(grid: seq<Row>, w: Window, cur: Cursor, keepEmpty: bool)
    requires Fits(grid, w) && NothingCombines(grid, w, cur)
    ensures var plain, styled := Content(grid, w, cur, keepEmpty), Styled(grid, w, cur, keepEmpty);
            && |plain| <= |styled| && (keepEmpty ==> |plain| == |styled|)
            && (forall i | 0 <= i < |plain| :: StripRight(TextOf(styled[i])) == plain[i])
            && forall i | |plain| <= i < |styled| :: StripRight(TextOf(styled[i])) == ""
  {
    hide PlainLines, StyledLines, TrimBlankLines, TrimEmptyLines, StripRight, TextOf, NothingCombines, IsBlank;
    var p, s := PlainLines(grid, w, cur, RowEnd(w)), StyledLines(grid, w, cur, RowEnd(w));
    forall i: nat | i < |p| ensures StripRight(TextOf(s[i])) == StripRight(p[i]) { LinesAgree(grid, w, cur, RowEnd(w), i); }
    if !keepEmpty {
      TrimEmptyPrefix(s);
      TrimBlankPrefix(p);
      forall i | 0 <= i < |p| ensures StripRight(p[i]) == "" <==> IsBlank(p[i]) { StripEmpty(p[i]); }
      EmptyRunText();
      var last := |TrimBlankLines(p)| - 1;
      if last >= 0 { assert StripRight(TextOf(s[last])) != ""; }
    }
  }
}
