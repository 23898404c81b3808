/** Unified diffs as text: the parser `_parse_unified_diff` of `interstellar/report.py` and the printer
    whose output shape it expects. A diff is given as its lines. */
module DiffText {
  import opened Common
  import opened Lines

  datatype Line = Ctx(text: string) | Add(text: string) | Del(text: string) | Note(text: string)

  datatype Hunk = Hunk(oldStart: nat, oldCount: nat, newStart: nat, newCount: nat, lines: seq<Line>)

  /** What has been read: the file's path and the hunks, the last of which is still open. */
  datatype Diff = Diff(path: string, hunks: seq<Hunk>)

  // --- decimal numbers ---------------------------------------------------------------------------

  predicate IsDigit(c: char) { '0' <= c <= '9' }

  function DigitOf(n: nat): (c: char)
    requires n < 10
    ensures IsDigit(c) && c as int - '0' as int == n
  {
    '0' + n as char
  }

  function Decimal(n: nat): (s: string)
    ensures s != ""
    ensures forall i | 0 <= i < |s| :: IsDigit(s[i])
  {
    if n < 10 then [DigitOf(n)] else Decimal(n / 10) + [DigitOf(n % 10)]
  }

  function Value(s: string): nat
    requires forall i | 0 <= i < |s| :: IsDigit(s[i])
  {
    if s == "" then 0
    else
      assert IsDigit(s[|s| - 1]);
      10 * Value(s[..|s| - 1]) + (s[|s| - 1] as int - '0' as int)
  }

  /** The length of the run of digits a string begins with. */
  function Digits(s: string): (n: nat)
    ensures n <= |s| && forall i | 0 <= i < n :: IsDigit(s[i])
    ensures n == |s| || !IsDigit(s[n])
  {
    if s == "" || !IsDigit(s[0]) then 0 else 1 + Digits(s[1..])
  }

  lemma {:induction false} ValueOfDecimal(n: nat)
    ensures Value(Decimal(n)) == n
  {
    if n >= 10 {
      ValueOfDecimal(n / 10);
      var s := Decimal(n);
      assert s[..|s| - 1] == Decimal(n / 10);
    } else {
      assert Decimal(n)[..0] == "";
    }
  }

  lemma {:induction false} DigitsThen(d: string, rest: string)
    requires forall i | 0 <= i < |d| :: IsDigit(d[i])
    requires rest == "" || !IsDigit(rest[0])
    ensures Digits(d + rest) == |d|
  {
    if d == "" {
      assert d + rest == rest;
    } else {
      assert (d + rest)[1..] == d[1..] + rest;
      DigitsThen(d[1..], rest);
    }
  }

  // --- hunk headers -------------------------------------------------------------------------------

  datatype Range = Range(start: nat, count: nat)

  /** `\d+(?:,(\d+))?` at the head of a string: the range (a missing count is 1) and what follows. */
  function ReadRange(s: string): Option<(Range, string)> {
    var d := Digits(s);
    if d == 0 then None
    else
      var start, rest := Value(s[..d]), s[d..];
      if rest != "" && rest[0] == ',' && Digits(rest[1..]) > 0 then
        var c := Digits(rest[1..]);
        Some((Range(start, Value(rest[1..][..c])), rest[1..][c..]))
      else Some((Range(start, 1), rest))
  }

  function PrintRange(r: Range): string {
    if r.count == 1 then Decimal(r.start) else Decimal(r.start) + ([','] + Decimal(r.count))
  }

  /** `@@ -range +range @@` at the head of a line; anything may follow. */
  function ReadHeader(raw: string): Option<(Range, Range)> {
    if !StartsWith(raw, "@@ -") then None
    else
      var left := ReadRange(raw[4..]);
      if left.None? || !StartsWith(left.value.1, " +") then None
      else
        var right := ReadRange(left.value.1[2..]);
        if right.None? || !StartsWith(right.value.1, " @@") then None
        else Some((left.value.0, right.value.0))
  }

  function PrintHeader(h: Hunk): string {
    "@@ -" + (PrintRange(Range(h.oldStart, h.oldCount)) + (" +" + (PrintRange(Range(h.newStart, h.newCount)) + " @@")))
  }

  predicate AllDigits(s: string) { s != "" && forall i | 0 <= i < |s| :: IsDigit(s[i]) }

  lemma {:induction false} ReadBare(d: string, rest: string)
    requires AllDigits(d) && (rest == "" || (!IsDigit(rest[0]) && rest[0] != ','))
    ensures ReadRange(d + rest) == Some((Range(Value(d), 1), rest))
  {
    DigitsThen(d, rest);
    assert (d + rest)[..|d|] == d && (d + rest)[|d|..] == rest;
  }

  lemma {:induction false} ReadCounted(d: string, c: string, rest: string)
    requires AllDigits(d) && AllDigits(c) && (rest == "" || !IsDigit(rest[0]))
    ensures ReadRange(d + ([','] + (c + rest))) == Some((Range(Value(d), Value(c)), rest))
  {
    var tail := [','] + (c + rest);
    DigitsThen(d, tail);
    assert (d + tail)[..|d|] == d && (d + tail)[|d|..] == tail;
    assert tail[1..] == c + rest;
    DigitsThen(c, rest);
    assert (c + rest)[..|c|] == c && (c + rest)[|c|..] == rest;
  }

  lemma {:induction false} ReadPrintedRange(r: Range, rest: string)
    requires rest == "" || (!IsDigit(rest[0]) && rest[0] != ',')
    ensures ReadRange(PrintRange(r) + rest) == Some((r, rest))
  {
    ValueOfDecimal(r.start);
    if r.count == 1 {
      ReadBare(Decimal(r.start), rest);
    } else {
      ValueOfDecimal(r.count);
      ReadCounted(Decimal(r.start), Decimal(r.count), rest);
      Regroup(Decimal(r.start), Decimal(r.count), rest);
    }
  }

  lemma Regroup(d: string, c: string, rest: string)
    ensures d + ([','] + c) + rest == d + ([','] + (c + rest))
  {}

  lemma AfterPrefix(p: string, s: string)
    ensures StartsWith(p + s, p) && (p + s)[|p|..] == s
  {}

  /** A printed header reads back, whatever follows it. */
  lemma {:induction false} ReadPrintedHeader(h: Hunk, tail: string)
    ensures ReadHeader(PrintHeader(h) + tail) == Some((Range(h.oldStart, h.oldCount), Range(h.newStart, h.newCount)))
  {
    hide ReadRange, PrintRange;
    var left, right := Range(h.oldStart, h.oldCount), Range(h.newStart, h.newCount);
    var last := " @@" + tail;
    var end := PrintRange(right) + last;
    HeaderTail(PrintRange(left), PrintRange(right), tail);
    AfterPrefix("@@ -", PrintRange(left) + (" +" + end));
    ReadPrintedRange(left, " +" + end);
    AfterPrefix(" +", end);
    ReadPrintedRange(right, last);
    AfterPrefix(" @@", tail);
  }

  lemma HeaderTail(left: string, right: string, tail: string)
    ensures "@@ -" + (left + (" +" + (right + " @@"))) + tail == "@@ -" + (left + (" +" + (right + (" @@" + tail))))
  {
  }

  // --- parsing -----------------------------------------------------------------------------------------

  /** A path without surrounding space and without a leading `a/` or `b/`. */
  function BarePath(path: string): string {
    var p := Strip(path);
    if |p| >= 2 && (p[0] == 'a' || p[0] == 'b') && p[1] == '/' then p[2..] else p
  }

  function BodyLine(raw: string): Line {
    if raw == "" then Ctx("")
    else match raw[0]
      case '\\' => Note(raw)
      case '+' => Add(raw[1..])
      case '-' => Del(raw[1..])
      case ' ' => Ctx(raw[1..])
      case _ => Ctx(raw)
  }

  function Extend(hunks: seq<Hunk>, line: Line): seq<Hunk>
    requires hunks != []
  {
    var h := hunks[|hunks| - 1];
    hunks[..|hunks| - 1] + [h.(lines := h.lines + [line])]
  }

  const OldFile := "--- "
  const NewFile := "+++ "
  const Nowhere := "/dev/null"

  function NewPath(path: string, raw: string): string {
    if BarePath(raw) != "" && BarePath(raw) != Nowhere then BarePath(raw) else path
  }

  /** What one line adds to what has been read. */
  function ReadLine(d: Diff, raw: string): Diff {
    if StartsWith(raw, OldFile) then d.(path := if d.path != "" then d.path else BarePath(raw[4..]))
    else if StartsWith(raw, NewFile) then d.(path := NewPath(d.path, raw[4..]))
    else
      var header := ReadHeader(raw);
      if header.Some? then
        var (l, r) := header.value;
        d.(hunks := d.hunks + [Hunk(l.start, l.count, r.start, r.count, [])])
      else if d.hunks == [] then d
      else d.(hunks := Extend(d.hunks, BodyLine(raw)))
  }

  function Feed(d: Diff, lines: seq<string>): Diff
    decreases lines
  {
    if lines == [] then d else Feed(ReadLine(d, lines[0]), lines[1..])
  }

  function Parse(lines: seq<string>): Diff { Feed(Diff("", []), lines) }

  method ParseDiff(lines: seq<string>) returns (path: string, hunks: seq<Hunk>)
    ensures Diff(path, hunks) == Parse(lines)
  {
    path, hunks := "", [];
    for i := 0 to |lines|
      invariant Feed(Diff(path, hunks), lines[i..]) == Parse(lines)
    {
      var raw := lines[i];
      if StartsWith(raw, OldFile) {
        if path == "" { path := BarePath(raw[4..]); }
        continue;
      }
      if StartsWith(raw, NewFile) {
        path := NewPath(path, raw[4..]);
        continue;
      }
      var header := ReadHeader(raw);
      if header.Some? {
        var (l, r) := header.value;
        hunks := hunks + [Hunk(l.start, l.count, r.start, r.count, [])];
        continue;
      }
      if hunks == [] { continue; }
      hunks := Extend(hunks, BodyLine(raw));
    }
  }

  // --- printing and the round trip ---------------------------------------------------------------------

  function PrintLine(l: Line): string {
    match l
    case Ctx(text) => [' '] + text
    case Add(text) => ['+'] + text
    case Del(text) => ['-'] + text
    case Note(text) => text
  }

  function PrintLines(lines: seq<Line>): seq<string> {
    if lines == [] then [] else [PrintLine(lines[0])] + PrintLines(lines[1..])
  }

  function PrintHunks(hunks: seq<Hunk>): seq<string> {
    if hunks == [] then [] else [PrintHeader(hunks[0])] + PrintLines(hunks[0].lines) + PrintHunks(hunks[1..])
  }

  function PrintDiff(from: string, to: string, hunks: seq<Hunk>): seq<string> {
    [OldFile + from, NewFile + to] + PrintHunks(hunks)
  }

  /** A note is a line that starts with a backslash. */
  predicate IsNote(text: string) { text != "" && text[0] == '\\' }

  ghost predicate Printable(hunks: seq<Hunk>) {
    forall h | h in hunks :: forall l | l in h.lines && l.Note? :: IsNote(l.text)
  }

  /** A changed line that, once printed, reads as a file header. */
  predicate Mistaken(l: Line) {
    (l.Del? && StartsWith(l.text, "-- ")) || (l.Add? && StartsWith(l.text, "++ "))
  }

  function Surviving(lines: seq<Line>): seq<Line> {
    if lines == [] then [] else (if Mistaken(lines[0]) then [] else [lines[0]]) + Surviving(lines[1..])
  }

  function SurvivingHunks(hunks: seq<Hunk>): seq<Hunk> {
    if hunks == [] then [] else [hunks[0].(lines := Surviving(hunks[0].lines))] + SurvivingHunks(hunks[1..])
  }

  predicate NoneMistaken(hunks: seq<Hunk>) {
    forall h | h in hunks :: forall l | l in h.lines :: !Mistaken(l)
  }

  lemma PrefixShift(c: char, text: string, prefix: string)
    ensures StartsWith([c] + text, [c] + prefix) <==> StartsWith(text, prefix)
  {
    var s := [c] + text;
    if |prefix| <= |text| {
      assert s[..|prefix| + 1] == [c] + text[..|prefix|];
      assert ([c] + text[..|prefix|])[1..] == text[..|prefix|] && ([c] + prefix)[1..] == prefix;
    }
  }

  lemma OtherPrefix(s: string, prefix: string)
    requires s != "" && prefix != "" && s[0] != prefix[0]
    ensures !StartsWith(s, prefix)
  {
    if |prefix| <= |s| { assert s[..|prefix|][0] == s[0]; }
  }

  lemma {:induction false} PrintedLineClass(l: Line)
    requires l.Note? ==> IsNote(l.text)
    ensures StartsWith(PrintLine(l), OldFile) <==> l.Del? && Mistaken(l)
    ensures StartsWith(PrintLine(l), NewFile) <==> l.Add? && Mistaken(l)
    ensures ReadHeader(PrintLine(l)).None?
    ensures BodyLine(PrintLine(l)) == l
  {
    var s := PrintLine(l);
    OtherPrefix(s, "@@ -");
    if l.Del? {
      assert OldFile == ['-'] + "-- ";
      PrefixShift('-', l.text, "-- ");
    } else {
      OtherPrefix(s, OldFile);
    }
    if l.Add? {
      assert NewFile == ['+'] + "++ ";
      PrefixShift('+', l.text, "++ ");
    } else {
      OtherPrefix(s, NewFile);
    }
  }

  lemma {:induction false} FeedAppend(d: Diff, a: seq<string>, b: seq<string>)
    ensures Feed(d, a + b) == Feed(Feed(d, a), b)
    decreases a
  {
    if a == [] {
      assert a + b == b;
    } else {
      assert (a + b)[1..] == a[1..] + b;
      FeedAppend(ReadLine(d, a[0]), a[1..], b);
    }
  }

  lemma {:induction false} ReadPrintedLine(d: Diff, before: seq<Hunk>, h: Hunk, l: Line)
    requires d.hunks == before + [h] && (l.Note? ==> IsNote(l.text))
    ensures ReadLine(d, PrintLine(l)).hunks == if Mistaken(l) then d.hunks else before + [h.(lines := h.lines + [l])]
    ensures !Mistaken(l) ==> ReadLine(d, PrintLine(l)).path == d.path
  {
    PrintedLineClass(l);
    assert d.hunks[..|d.hunks| - 1] == before;
  }

  /** Reading a hunk's printed lines appends those that are not taken for file headers. */
  lemma {:induction false} FeedLines(d: Diff, before: seq<Hunk>, h: Hunk, lines: seq<Line>)
    requires d.hunks == before + [h] && forall l | l in lines && l.Note? :: IsNote(l.text)
    ensures Feed(d, PrintLines(lines)).hunks == before + [h.(lines := h.lines + Surviving(lines))]
    ensures (forall l | l in lines :: !Mistaken(l)) ==> Feed(d, PrintLines(lines)).path == d.path
    decreases |lines|
  {
    if lines == [] {
      assert h.lines + [] == h.lines;
    } else {
      var l, rest := lines[0], lines[1..];
      var d' := ReadLine(d, PrintLine(l));
      ReadPrintedLine(d, before, h, l);
      FedFirst(d, l, rest);
      assert PrintLines(lines) == [PrintLine(l)] + PrintLines(rest);
      assert forall k | k in rest :: k in lines;
      SurvivingFirst(h.lines, lines);
      FeedLines(d', before, if Mistaken(l) then h else h.(lines := h.lines + [l]), rest);
    }
  }

  lemma SurvivingFirst(read: seq<Line>, lines: seq<Line>)
    requires lines != []
    ensures read + Surviving(lines) == (if Mistaken(lines[0]) then read else read + [lines[0]]) + Surviving(lines[1..])
  {
    var rest := Surviving(lines[1..]);
    if Mistaken(lines[0]) {
      assert Surviving(lines) == [] + rest == rest;
    } else {
      assert Surviving(lines) == [lines[0]] + rest;
      Assoc(read, [lines[0]], rest);
    }
  }

  lemma FedFirst(d: Diff, l: Line, rest: seq<Line>)
    ensures Feed(d, [PrintLine(l)] + PrintLines(rest)) == Feed(ReadLine(d, PrintLine(l)), PrintLines(rest))
  {
    var all := [PrintLine(l)] + PrintLines(rest);
    assert all[1..] == PrintLines(rest);
  }

  lemma {:induction false} FeedHunk(d: Diff, h: Hunk)
    requires forall l | l in h.lines && l.Note? :: IsNote(l.text)
    ensures var r := Feed(d, [PrintHeader(h)] + PrintLines(h.lines));
            && r.hunks == d.hunks + [h.(lines := Surviving(h.lines))]
            && ((forall l | l in h.lines :: !Mistaken(l)) ==> r.path == d.path)
  {
    FeedAppend(d, [PrintHeader(h)], PrintLines(h.lines));
    ReadHunkHeader(d, h);
    FeedLines(Feed(d, [PrintHeader(h)]), d.hunks, h.(lines := []), h.lines);
    assert [] + Surviving(h.lines) == Surviving(h.lines);
  }

  lemma {:induction false} FeedHunks(d: Diff, hunks: seq<Hunk>)
    requires Printable(hunks)
    ensures Feed(d, PrintHunks(hunks)).hunks == d.hunks + SurvivingHunks(hunks)
    ensures NoneMistaken(hunks) ==> Feed(d, PrintHunks(hunks)).path == d.path
    decreases |hunks|
  {
    if hunks == [] {
      assert d.hunks + [] == d.hunks;
    } else {
      var h, rest := hunks[0], hunks[1..];
      assert h in hunks && forall k | k in rest :: k in hunks;
      var first := [PrintHeader(h)] + PrintLines(h.lines);
      FeedAppend(d, first, PrintHunks(rest));
      FeedHunk(d, h);
      FeedHunks(Feed(d, first), rest);
      var kept := [h.(lines := Surviving(h.lines))];
      assert SurvivingHunks(hunks) == kept + SurvivingHunks(rest);
      Assoc(d.hunks, kept, SurvivingHunks(rest));
    }
  }

  lemma {:induction false} ReadHunkHeader(d: Diff, h: Hunk)
    ensures Feed(d, [PrintHeader(h)]) == d.(hunks := d.hunks + [h.(lines := [])])
  {
    hide PrintHeader, ReadHeader;
    ReadPrintedHeader(h, "");
    assert PrintHeader(h) + "" == PrintHeader(h);
    HeaderStarts(h);
    ReadHeaderLine(d, PrintHeader(h));
  }

  lemma HeaderStarts(h: Hunk)
    ensures PrintHeader(h) != "" && PrintHeader(h)[0] == '@'
  {
    hide PrintRange;
  }

  lemma ReadHeaderLine(d: Diff, raw: string)
    requires raw != "" && raw[0] == '@' && ReadHeader(raw).Some?
    ensures var (l, r) := ReadHeader(raw).value;
            Feed(d, [raw]) == d.(hunks := d.hunks + [Hunk(l.start, l.count, r.start, r.count, [])])
  {
    hide ReadHeader, StartsWith, BarePath, NewPath, Extend, BodyLine;
    OtherPrefix(raw, OldFile);
    OtherPrefix(raw, NewFile);
    assert [raw][1..] == [];
  }

  lemma {:induction false} SurvivingAll(lines: seq<Line>)
    ensures |Surviving(lines)| <= |lines|
    ensures |Surviving(lines)| == |lines| <==> forall l | l in lines :: !Mistaken(l)
    ensures (forall l | l in lines :: !Mistaken(l)) ==> Surviving(lines) == lines
  {
    if lines != [] {
      SurvivingAll(lines[1..]);
      assert lines == [lines[0]] + lines[1..];
    }
  }

  lemma {:induction false} SurvivingHunksAll(hunks: seq<Hunk>)
    ensures SurvivingHunks(hunks) == hunks <==> NoneMistaken(hunks)
  {
    if hunks != [] {
      SurvivingHunksAll(hunks[1..]);
      SurvivingAll(hunks[0].lines);
      assert hunks == [hunks[0]] + hunks[1..];
      assert SurvivingHunks(hunks)[1..] == SurvivingHunks(hunks[1..]);
    }
  }

  /** The path a diff's two header lines announce. */
  function PathOf(from: string, to: string): string { NewPath(BarePath(from), to) }

  lemma {:induction false} FeedFileHeader(from: string, to: string)
    ensures Feed(Diff("", []), [OldFile + from, NewFile + to]) == Diff(PathOf(from, to), [])
  {
    var a, b := OldFile + from, NewFile + to;
    AfterPrefix(OldFile, from);
    AfterPrefix(NewFile, to);
    OtherPrefix(b, OldFile);
    var d := Diff("", []);
    assert [a, b][1..] == [b] && [b][1..] == [];
    assert ReadLine(d, a) == Diff(BarePath(from), []);
    assert ReadLine(ReadLine(d, a), b) == Diff(PathOf(from, to), []);
    assert Feed(d, [a, b]) == Feed(ReadLine(d, a), [b]);
    assert Feed(ReadLine(d, a), [b]) == Feed(ReadLine(ReadLine(d, a), b), []);
  }

  /** Parsing a printed diff loses exactly the changed lines that read as file headers, so it gives
      the diff back exactly when there are none. */
  lemma {:induction false} ParsePrinted(from: string, to: string, hunks: seq<Hunk>)
    requires Printable(hunks)
    ensures Parse(PrintDiff(from, to, hunks)).hunks == SurvivingHunks(hunks)
    ensures Parse(PrintDiff(from, to, hunks)) == Diff(PathOf(from, to), hunks) <==> NoneMistaken(hunks)
  {
    FeedFileHeader(from, to);
    FeedAppend(Diff("", []), [OldFile + from, NewFile + to], PrintHunks(hunks));
    FeedHunks(Diff(PathOf(from, to), []), hunks);
    assert [] + SurvivingHunks(hunks) == SurvivingHunks(hunks);
    SurvivingHunksAll(hunks);
  }

  /** A deleted line that starts with two dashes and a blank is lost. */
  lemma {:induction false} DashedLineLost(from: string, to: string, h: Hunk, text: string)
    requires h.lines == [Del("-- " + text)]
    ensures Parse(PrintDiff(from, to, [h])).hunks == [h.(lines := [])]
  {
    var l := h.lines[0];
    assert StartsWith(l.text, "-- ");
    assert h.lines[1..] == [] && Surviving(h.lines) == [] + Surviving([]);
    assert [h][1..] == [] && SurvivingHunks([h]) == [h.(lines := [])] + SurvivingHunks([]);
    ParsePrinted(from, to, [h]);
  }
}
