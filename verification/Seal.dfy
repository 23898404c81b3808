/** Sealing the `[compat.<vendor>]` tables of a configuration text: `_find_table_block`,
    `_existing_compat_cells` and `_seal_config_text` in `interstellar/harness.py`. */
module Seal {
  import opened Common
  import opened Lines
  import opened Toml

  datatype Vendor = Claude | Cursor

  datatype SealNote = Added | Rewritten(cells: seq<string>) | AlreadySealed

  const CELLS := ["skills", "rules", "agents", "mcps", "hooks", "sessions"]

  function TableName(v: Vendor): string { match v case Claude => "compat.claude" case Cursor => "compat.cursor" }

  function HeaderLine(v: Vendor): string { "[" + TableName(v) + "]\n" }

  function CellLine(cell: string): string { cell + " = false\n" }

  /** The lines of a fully sealed table. */
  function Table(v: Vendor): (r: seq<string>)
    ensures |r| == 8
  {
    [HeaderLine(v), CellLine(CELLS[0]), CellLine(CELLS[1]), CellLine(CELLS[2]),
     CellLine(CELLS[3]), CellLine(CELLS[4]), CellLine(CELLS[5]), "\n"]
  }

  // --- cells ---------------------------------------------------------------------------

  predicate NameChar(c: char) { 'a' <= c <= 'z' || 'A' <= c <= 'Z' || '0' <= c <= '9' || c == '_' || c == '-' }

  function NameLength(s: string): (k: nat)
    ensures k <= |s|
  {
    if s != "" && NameChar(s[0]) then 1 + NameLength(s[1..]) else 0
  }

  predicate EndsCell(s: string) { var t := StripLeft(s); t == "" || t[0] == '#' }

  /** A recognised `cell = true|false` line, possibly with a comment. */
  function CellOf(line: string): Option<(string, bool)> {
    var t := StripLeft(line);
    var k := NameLength(t);
    var rest := StripLeft(t[k..]);
    if k == 0 || rest == "" || rest[0] != '=' then None
    else
      var value := StripLeft(rest[1..]);
      if |value| >= 4 && value[..4] == "true" && EndsCell(value[4..]) then Some((t[..k], true))
      else if |value| >= 5 && value[..5] == "false" && EndsCell(value[5..]) then Some((t[..k], false))
      else None
  }

  /** The last recognised setting of each cell in a table body. */
  function Settings(body: seq<string>): map<string, bool> {
    if body == [] then map[]
    else
      var c := CellOf(body[|body| - 1]);
      if c.Some? && c.value.0 in CELLS then Settings(body[..|body| - 1])[c.value.0 := c.value.1]
      else Settings(body[..|body| - 1])
  }

  function Overridden(settings: map<string, bool>, n: nat): seq<string>
    requires n <= |CELLS|
  {
    if n == 0 then []
    else
      var c := CELLS[n - 1];
      Overridden(settings, n - 1) + if c in settings && !settings[c] then [] else [c]
  }

  // --- locating and rewriting one table ----------------------------------------------------

  function Is(v: Vendor): string -> bool { h => h == TableName(v) }

  function Any(): string -> bool { h => true }

  /** Index of the first line whose header satisfies `p`, or the length. */
  function Find(ls: seq<string>, p: string -> bool): (i: nat)
    ensures i <= |ls|
    ensures i < |ls| ==> Hit(Header(ls[i]), p)
    ensures forall k | 0 <= k < i :: !Hit(Header(ls[k]), p)
  {
    if ls == [] then 0 else if Hit(Header(ls[0]), p) then 0 else 1 + Find(ls[1..], p)
  }

  function BlockEnd(ls: seq<string>, start: nat): nat
    requires start < |ls|
  {
    start + 1 + Find(ls[start + 1..], Any())
  }

  ghost predicate NoHit(ls: seq<string>, p: string -> bool, lo: nat, hi: nat)
    requires hi <= |ls|
  {
    forall k | lo <= k < hi :: !Hit(Header(ls[k]), p)
  }

  method FindTableBlock(ls: seq<string>, v: Vendor) returns (block: Option<(nat, nat)>)
    ensures block == (var s := Find(ls, Is(v)); if s == |ls| then None else Some((s, BlockEnd(ls, s))))
  {
    hide Find, Header, BlockEnd, TableName;
    var start: Option<nat> := None;
    for i := 0 to |ls|
      invariant start.None? ==> NoHit(ls, Is(v), 0, i)
      invariant start.Some? ==>
        && start.value < i && Hit(Header(ls[start.value]), Is(v))
        && NoHit(ls, Is(v), 0, start.value) && NoHit(ls, Any(), start.value + 1, i)
    {
      var h := Header(ls[i]);
      if h.Some? {
        if start.Some? {
          BlockIs(ls, v, start.value, i);
          return Some((start.value, i));
        }
        if h.value == TableName(v) { start := Some(i); }
      }
    }
    if start.Some? {
      BlockIs(ls, v, start.value, |ls|);
      return Some((start.value, |ls|));
    }
    FindIs(ls, Is(v), |ls|);
    return None;
  }

  lemma {:induction false} BlockIs(ls: seq<string>, v: Vendor, s: nat, e: nat)
    requires s < e <= |ls| && Hit(Header(ls[s]), Is(v)) && NoHit(ls, Is(v), 0, s)
    requires NoHit(ls, Any(), s + 1, e) && (e < |ls| ==> Header(ls[e]).Some?)
    ensures Find(ls, Is(v)) == s && BlockEnd(ls, s) == e
  {
    FindIs(ls, Is(v), s);
    var tail := ls[s + 1..];
    assert forall k | 0 <= k < |tail| :: tail[k] == ls[s + 1 + k];
    FindIs(tail, Any(), e - s - 1);
  }

  lemma {:induction false} FindIs(ls: seq<string>, p: string -> bool, i: nat)
    requires i <= |ls| && (i < |ls| ==> Hit(Header(ls[i]), p)) && NoHit(ls, p, 0, i)
    ensures Find(ls, p) == i
  {
    if i > 0 {
      FindIs(ls[1..], p, i - 1);
    }
  }

  /** Lines that must precede an appended table. */
  function Separator(ls: seq<string>): seq<string> {
    if ls != [] && !IsBlank(ls[|ls| - 1]) then ["\n"] else []
  }

  function SealOne(ls: seq<string>, v: Vendor): seq<string> {
    var s := Find(ls, Is(v));
    if s == |ls| then ls + Separator(ls) + Table(v) else ls[..s] + Table(v) + ls[BlockEnd(ls, s)..]
  }

  function NoteOne(ls: seq<string>, v: Vendor): SealNote {
    var s := Find(ls, Is(v));
    if s == |ls| then Added
    else
      var over := Overridden(Settings(ls[s + 1..BlockEnd(ls, s)]), |CELLS|);
      if over == [] then AlreadySealed else Rewritten(over)
  }

  function SealLines(ls: seq<string>): seq<string> { SealOne(SealOne(ls, Claude), Cursor) }

  function SealText(t: string): string { Join(SealLines(Split(t))) }

  function SealNotes(t: string): seq<SealNote> {
    var ls := Split(t);
    [NoteOne(ls, Claude), NoteOne(SealOne(ls, Claude), Cursor)]
  }

  method ExistingCells(body: seq<string>) returns (cells: map<string, bool>)
    ensures cells == Settings(body)
  {
    cells := map[];
    for i := 0 to |body|
      invariant cells == Settings(body[..i])
    {
      assert body[..i + 1][..i] == body[..i];
      var c := CellOf(body[i]);
      if c.Some? && c.value.0 in CELLS { cells := cells[c.value.0 := c.value.1]; }
    }
    assert body[..|body|] == body;
  }

  method OverriddenCells(existing: map<string, bool>) returns (over: seq<string>)
    ensures over == Overridden(existing, |CELLS|)
  {
    over := [];
    for i := 0 to |CELLS|
      invariant over == Overridden(existing, i)
    {
      if !(CELLS[i] in existing && !existing[CELLS[i]]) { over := over + [CELLS[i]]; }
    }
  }

  method SealTable(lines: seq<string>, v: Vendor) returns (out: seq<string>, note: SealNote)
    ensures out == SealOne(lines, v) && note == NoteOne(lines, v)
  {
    hide Find, Overridden, Settings;
    var block := FindTableBlock(lines, v);
    if block.None? {
      out := lines + Separator(lines);
      return out + Table(v), Added;
    }
    var (start, end) := block.value;
    var existing := ExistingCells(lines[start + 1..end]);
    var over := OverriddenCells(existing);
    out := lines[..start] + Table(v) + lines[end..];
    note := if over != [] then Rewritten(over) else AlreadySealed;
  }

  method SealConfig(t: string) returns (r: string, notes: seq<SealNote>)
    ensures r == SealText(t) && notes == SealNotes(t)
  {
    var lines := Split(t);
    var n1, n2;
    lines, n1 := SealTable(lines, Claude);
    lines, n2 := SealTable(lines, Cursor);
    r, notes := Join(lines), [n1, n2];
  }
}
