/** The expressions `interstellar/harness.py` recognises table headers and compat cells with, as patterns,
    and that `Header` and `CellOf` match exactly them; what a header owns; what a seal's note lists. */
module TomlFacts {
  import opened Common
  import opened Lines
  import opened Toml
  import opened Seal

  // --- stripping ---------------------------------------------------------------------------------

  lemma {:induction false} StripLeftOff(s: string) returns (w: string)
    ensures IsBlank(w) && s == w + StripLeft(s) && (StripLeft(s) == "" || !IsSpace(StripLeft(s)[0]))
  {
    if s != "" && IsSpace(s[0]) {
      var v := StripLeftOff(s[1..]);
      w := [s[0]] + v;
      assert s == [s[0]] + s[1..];
    } else {
      w := "";
    }
  }

  lemma {:induction false} StripRightOff(s: string) returns (w: string)
    ensures IsBlank(w) && s == StripRight(s) + w && (StripRight(s) == "" || !IsSpace(StripRight(s)[|StripRight(s)| - 1]))
  {
    if s != "" && IsSpace(s[|s| - 1]) {
      var v := StripRightOff(s[..|s| - 1]);
      w := v + [s[|s| - 1]];
      InitLast(s);
    } else {
      w := "";
    }
  }

  lemma {:induction false} StripLeftOn(w: string, core: string)
    requires IsBlank(w) && (core == "" || !IsSpace(core[0]))
    ensures StripLeft(w + core) == core
  {
    if w == "" {
      assert w + core == core;
    } else {
      assert (w + core)[1..] == w[1..] + core;
      StripLeftOn(w[1..], core);
    }
  }

  lemma {:induction false} StripRightOn(core: string, w: string)
    requires IsBlank(w) && (core == "" || !IsSpace(core[|core| - 1]))
    ensures StripRight(core + w) == core
  {
    if w == "" {
      assert core + w == core;
    } else {
      var k := |w| - 1;
      AppendInit(core, w);
      StripRightOn(core, w[..k]);
    }
  }

  /** Stripping takes the blanks off both ends, and nothing else. */
  lemma {:induction false} StripMeans(s: string) returns (a: string, z: string)
    ensures IsBlank(a) && IsBlank(z) && s == a + Strip(s) + z
    ensures Strip(s) != "" ==> !IsSpace(Strip(s)[0]) && !IsSpace(Strip(s)[|Strip(s)| - 1])
  {
    z := StripRightOff(s);
    a := StripLeftOff(StripRight(s));
    if Strip(s) != "" { assert StripRight(s)[|StripRight(s)| - 1] == Strip(s)[|Strip(s)| - 1]; }
  }

  lemma StripOn(a: string, core: string, z: string)
    requires IsBlank(a) && IsBlank(z) && core != "" && !IsSpace(core[0]) && !IsSpace(core[|core| - 1])
    ensures Strip(a + core + z) == core
  {
    assert (a + core)[|a + core| - 1] == core[|core| - 1];
    StripRightOn(a + core, z);
    StripLeftOn(a, core);
  }

  // --- headers -------------------------------------------------------------------------------------

  /** Blanks, one or two opening brackets, a name without brackets, one or two closing ones, blanks. */
  ghost predicate HeaderShaped(line: string, a: string, open: string, name: string, close: string, z: string) {
    && line == a + (open + name + close) + z && IsBlank(a) && IsBlank(z)
    && (open == "[" || open == "[[") && (close == "]" || close == "]]")
    && name != "" && NoBrackets(name)
  }

  lemma BracketedIs(open: string, name: string, close: string)
    requires (open == "[" || open == "[[") && (close == "]" || close == "]]") && name != "" && NoBrackets(name)
    ensures var t := open + name + close;
            && t != "" && t[0] == '[' && t[|t| - 1] == ']' && |t| >= 3
            && (if t[1] == '[' then 2 else 1) == |open| && (if t[|t| - 2] == ']' then 2 else 1) == |close|
            && t[|open|..|t| - |close|] == name
  {
    var t := open + name + close;
    assert t[|open|] == name[0] && t[|t| - |close| - 1] == name[|name| - 1];
  }

  /** A line of that shape is a header of the stripped name. */
  lemma {:induction false} ShapedIsHeader(line: string, a: string, open: string, name: string, close: string, z: string)
    requires HeaderShaped(line, a, open, name, close, z)
    ensures Header(line) == Some(Strip(name))
  {
    hide Strip, NoBrackets;
    var t := open + name + close;
    BracketedIs(open, name, close);
    StripOn(a, t, z);
  }

  /** A header is a line of that shape. */
  lemma {:induction false} HeaderIsShaped(line: string) returns (a: string, open: string, name: string, close: string, z: string)
    requires Header(line).Some?
    ensures HeaderShaped(line, a, open, name, close, z) && Header(line).value == Strip(name)
  {
    hide Strip;
    a, z := StripMeans(line);
    var t := Strip(line);
    var i, j := if t[1] == '[' then 2 else 1, if t[|t| - 2] == ']' then 2 else 1;
    open, name, close := t[..i], t[i..|t| - j], t[|t| - j..];
    assert t == open + name + close;
  }

  // --- what a header owns -----------------------------------------------------------------------------

  /** A line is owned exactly when the nearest header at or above it satisfies `p`. */
  lemma {:induction false} OwnedMeans(ls: seq<string>, p: string -> bool, x: int)
    ensures Owned(ls, p, x) <==> exists h :: OwnsFrom(ls, p, h, x)
  {
    if 0 < x <= |ls| {
      hide Header;
      assert Owned(ls, p, x) <==> Hit(Owner(ls[..x]), p);
      OwnerMeans(ls, p, x);
    }
  }

  ghost predicate OwnsFrom(ls: seq<string>, p: string -> bool, h: int, x: int) {
    0 <= h < x <= |ls| && Hit(Header(ls[h]), p) && forall k | h < k < x :: Header(ls[k]).None?
  }

  lemma {:induction false} OwnerMeans(ls: seq<string>, p: string -> bool, x: nat)
    requires x <= |ls|
    ensures Hit(Owner(ls[..x]), p) <==> exists h :: OwnsFrom(ls, p, h, x)
  {
    hide Header;
    if x > 0 {
      TakeOneMore(ls, x - 1);
      OwnerMeans(ls, p, x - 1);
      if Header(ls[x - 1]).Some? {
        if Hit(Header(ls[x - 1]), p) { assert OwnsFrom(ls, p, x - 1, x); }
        forall h | OwnsFrom(ls, p, h, x) ensures h == x - 1 {}
      } else {
        assert ls[..x][..x - 1] == ls[..x - 1] && Owner(ls[..x]) == Owner(ls[..x - 1]);
        var y := x - 1;
        if h :| OwnsFrom(ls, p, h, y) { assert OwnsFrom(ls, p, h, x); }
        if h :| OwnsFrom(ls, p, h, x) {
          assert h != x - 1;
          assert OwnsFrom(ls, p, h, x - 1);
        }
      }
    }
  }

  // --- cells -------------------------------------------------------------------------------------------

  predicate NameChars(s: string) { forall i | 0 <= i < |s| :: NameChar(s[i]) }

  lemma {:induction false} NameTaken(name: string, rest: string)
    requires NameChars(name) && (rest == "" || !NameChar(rest[0]))
    ensures NameLength(name + rest) == |name|
  {
    if name == "" {
      assert name + rest == rest;
    } else {
      assert (name + rest)[1..] == name[1..] + rest;
      NameTaken(name[1..], rest);
    }
  }

  lemma {:induction false} NameFound(s: string)
    ensures NameChars(s[..NameLength(s)])
    ensures NameLength(s) < |s| ==> !NameChar(s[NameLength(s)])
  {
    if s != "" && NameChar(s[0]) {
      NameFound(s[1..]);
      assert s[..NameLength(s)] == [s[0]] + s[1..][..NameLength(s[1..])];
    }
  }

  /** `name = value`, blanks anywhere around them, nothing or a comment after them. */
  ghost predicate CellShaped(line: string, a: string, name: string, b: string, c: string, value: bool, d: string, comment: string) {
    && line == a + (name + (b + ("=" + (c + ((if value then "true" else "false") + (d + comment))))))
    && IsBlank(a) && IsBlank(b) && IsBlank(c) && IsBlank(d)
    && name != "" && NameChars(name) && (comment == "" || comment[0] == '#')
  }

  lemma Literal(value: bool, tail: string)
    ensures var v := (if value then "true" else "false") + tail;
            && !IsSpace(v[0])
            && (value ==> |v| >= 4 && v[..4] == "true" && v[4..] == tail)
            && (!value ==> |v| >= 5 && v[..5] == "false" && v[5..] == tail && v[..4] != "true")
  {
    var word := if value then "true" else "false";
    var v := word + tail;
    assert v[..|word|] == word && v[|word|..] == tail;
    assert !value ==> v[..4][0] == 'f';
  }

  /** A line of that shape sets the cell. */
  lemma {:induction false} ShapedIsCell(line: string, a: string, name: string, b: string, c: string, value: bool, d: string, comment: string)
    requires CellShaped(line, a, name, b, c, value, d, comment)
    ensures CellOf(line) == Some((name, value))
  {
    hide StripLeft, NameLength, IsBlank;
    var tail := d + comment;
    var word := (if value then "true" else "false") + tail;
    var eq := "=" + (c + word);
    var rest := b + eq;
    Literal(value, tail);
    StripLeftOn(d, comment);
    StripLeftOn(c, word);
    StripLeftOn(b, eq);
    NameStarts(name);
    assert (name + rest)[0] == name[0];
    StripLeftOn(a, name + rest);
    FirstNotName(b, eq);
    NameTaken(name, rest);
    assert (name + rest)[..|name|] == name && (name + rest)[|name|..] == rest;
    assert eq[1..] == c + word;
  }

  lemma NameStarts(name: string)
    requires name != "" && NameChars(name)
    ensures !IsSpace(name[0])
  {
    assert NameChar(name[0]);
  }

  lemma FirstNotName(b: string, eq: string)
    requires IsBlank(b) && eq != "" && eq[0] == '='
    ensures (b + eq) != "" && !NameChar((b + eq)[0])
  {
    if b != "" { assert IsSpace(b[0]); }
  }

  /** A line that sets a cell has that shape. */
  lemma {:induction false} CellIsShaped(line: string) returns (a: string, b: string, c: string, d: string, comment: string)
    requires CellOf(line).Some?
    ensures CellShaped(line, a, CellOf(line).value.0, b, c, CellOf(line).value.1, d, comment)
  {
    hide StripLeft, NameLength, IsBlank;
    a := StripLeftOff(line);
    var t := StripLeft(line);
    var k := NameLength(t);
    NameFound(t);
    b := StripLeftOff(t[k..]);
    var rest := StripLeft(t[k..]);
    c := StripLeftOff(rest[1..]);
    var v := StripLeft(rest[1..]);
    var n := if CellOf(line).value.1 then 4 else 5;
    d := StripLeftOff(v[n..]);
    comment := StripLeft(v[n..]);
    assert v == v[..n] + v[n..];
    assert rest == "=" + rest[1..];
    assert t == t[..k] + t[k..];
  }

  // --- settings and notes -----------------------------------------------------------------------------------

  /** A cell's setting is that of the last line that sets it. */
  lemma {:induction false} SettingsAreLast(body: seq<string>, cell: string, value: bool)
    requires cell in CELLS
    ensures cell in Settings(body) && Settings(body)[cell] == value <==> exists i :: SetLast(body, cell, value, i)
  {
    hide CellOf;
    if body != [] {
      var k := |body| - 1;
      SettingsAreLast(body[..k], cell, value);
      if CellOf(body[k]).Some? && CellOf(body[k]).value.0 == cell {
        if CellOf(body[k]).value.1 == value { assert SetLast(body, cell, value, k); }
        forall i | SetLast(body, cell, value, i) ensures i == k {}
      } else {
        forall i | SetLast(body[..k], cell, value, i) ensures SetLast(body, cell, value, i) {}
        forall i | SetLast(body, cell, value, i) ensures SetLast(body[..k], cell, value, i) {}
      }
    }
  }

  ghost predicate SetLast(body: seq<string>, cell: string, value: bool, i: int) {
    && 0 <= i < |body| && CellOf(body[i]) == Some((cell, value))
    && forall j | i < j < |body| && CellOf(body[j]).Some? :: CellOf(body[j]).value.0 != cell
  }

  function Open(settings: map<string, bool>): string -> bool { (c: string) => !(c in settings) || settings[c] }

  lemma {:induction false} OverriddenAre(settings: map<string, bool>, n: nat)
    requires n <= |CELLS|
    ensures Overridden(settings, n) == Filter(Open(settings), CELLS[..n])
  {
    if n > 0 {
      TakeOneMore(CELLS, n - 1);
      OverriddenAre(settings, n - 1);
    }
  }

  /** A seal's note on a vendor: added when it had no table; otherwise the cells of its first table that
      were not false, in the cells' order, or already sealed when there were none. */
  lemma {:induction false} NoteLists(ls: seq<string>, v: Vendor)
    ensures NoteOne(ls, v) == Added <==> !HasHeader(ls, Is(v))
    ensures var s := Find(ls, Is(v));
            s < |ls| && s < BlockEnd(ls, s) <= |ls| ==>
              var open := Filter(Open(Settings(ls[s + 1..BlockEnd(ls, s)])), CELLS);
              NoteOne(ls, v) == if open == [] then AlreadySealed else Rewritten(open)
  {
    hide Find, BlockEnd, Settings, Header, Overridden, Filter;
    var s := Find(ls, Is(v));
    NotFoundMeans(ls, v);
    if s < |ls| && s < BlockEnd(ls, s) <= |ls| {
      OverriddenAre(Settings(ls[s + 1..BlockEnd(ls, s)]), |CELLS|);
      TakeAll(CELLS);
    }
  }

  lemma NotFoundMeans(ls: seq<string>, v: Vendor)
    ensures Find(ls, Is(v)) == |ls| <==> !HasHeader(ls, Is(v))
  {
    var s := Find(ls, Is(v));
    if s < |ls| { assert Hit(Header(ls[s]), Is(v)); }
  }

  // --- where a sealed table goes ----------------------------------------------------------------------

  /** The vendor's first table is replaced where it stands, up to the next header of any kind. */
  lemma {:induction false} SealedInPlace(a: seq<string>, h: string, body: seq<string>, c: seq<string>, v: Vendor)
    requires !HasHeader(a, Is(v)) && Header(h) == Some(TableName(v)) && !HasHeader(body, Any())
    requires c == [] || Header(c[0]).Some?
    ensures SealOne(a + [h] + body + c, v) == a + Table(v) + c
  {
    hide Find, BlockEnd, Header, Table, TableName;
    var ls, s, e := a + [h] + body + c, |a|, |a| + 1 + |body|;
    forall k | 0 <= k < s ensures !Hit(Header(ls[k]), Is(v)) { assert ls[k] == a[k]; }
    forall k | s < k < e ensures !Hit(Header(ls[k]), Any()) { assert ls[k] == body[k - s - 1]; }
    if c != [] { assert ls[e] == c[0]; }
    BlockIs(ls, v, s, e);
    assert ls[..s] == a && ls[e..] == c;
  }

  /** A vendor without a table gets one at the end, after a blank line unless one is there already. */
  lemma {:induction false} SealedAtEnd(ls: seq<string>, v: Vendor)
    requires !HasHeader(ls, Is(v))
    ensures SealOne(ls, v)
            == ls + (if ls == [] || IsBlank(ls[|ls| - 1]) then [] else ["\n"]) + Table(v)
  {
    hide Find, Header, Table, TableName;
    NotFoundMeans(ls, v);
  }
}
