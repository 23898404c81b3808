/** What sealing guarantees: both tables end up sealed, everything else stays, and sealing again
    changes nothing. */
module SealLaws {
  import opened Common
  import opened Lines
  import opened Toml
  import opened Seal

  // --- the lines of a sealed table ---------------------------------------------------------

  lemma PlainLine(line: string)
    requires line != "" && !IsSpace(line[0]) && line[0] != '['
    ensures Header(line) == None
  {
    StripRightFirst(line);
  }

  lemma {:induction false} StripRightFirst(s: string)
    requires s != "" && !IsSpace(s[0])
    ensures StripRight(s) != "" && StripRight(s)[0] == s[0]
  {
    if IsSpace(s[|s| - 1]) { StripRightFirst(s[..|s| - 1]); }
  }

  lemma BlankLine()
    ensures Header("\n") == None && IsBlank("\n") && IsLine("\n") && Terminated("\n") && CellOf("\n") == None
  {
    assert "\n"[..0] == "" && "\n"[1..] == "";
    assert StripRight("\n") == "" && StripLeft("\n") == "";
  }

  predicate IsName(c: string) { c != "" && forall i | 0 <= i < |c| :: NameChar(c[i]) }

  lemma {:induction false} NameLengthIs(c: string, rest: string)
    requires (forall i | 0 <= i < |c| :: NameChar(c[i])) && rest != "" && !NameChar(rest[0])
    ensures NameLength(c + rest) == |c|
  {
    if c == "" {
      assert c + rest == rest;
    } else {
      NameLengthIs(c[1..], rest);
      assert (c + rest)[1..] == c[1..] + rest;
    }
  }

  lemma {:induction false} CellLineIs(c: string)
    requires IsName(c)
    ensures CellOf(CellLine(c)) == Some((c, false))
    ensures Header(CellLine(c)) == None && IsLine(CellLine(c)) && Terminated(CellLine(c))
  {
    var line, rest := CellLine(c), " = false\n";
    assert line == c + rest && line[0] == c[0] && NameChar(c[0]);
    assert StripLeft(line) == line;
    NameLengthIs(c, rest);
    assert line[|c|..] == rest && line[..|c|] == c;
    assert rest[1..] == "= false\n";
    assert StripLeft(rest) == "= false\n";
    var value := "= false\n"[1..];
    assert value == " false\n" && value[1..] == "false\n";
    assert StripLeft(value) == "false\n";
    assert "false\n"[..5] == "false" && "false\n"[5..] == "\n";
    assert "false\n"[..4][0] != "true"[0];
    assert "\n"[1..] == "" && StripLeft("\n") == "";
    PlainLine(line);
    assert forall i | 0 <= i < |line| - 1 :: line[i] != '\n' by {
      assert forall i | 0 <= i < |c| :: line[i] == c[i] && NameChar(c[i]);
    }
  }

  lemma CellNames(i: nat)
    requires i < |CELLS|
    ensures IsName(CELLS[i])
  {
  }

  predicate IsDottedName(x: string) { x != "" && forall i | 0 <= i < |x| :: NameChar(x[i]) || x[i] == '.' }

  lemma TableNames(v: Vendor)
    ensures IsDottedName(TableName(v))
  {
  }

  lemma {:induction false} BracketedLine(x: string)
    requires IsDottedName(x)
    ensures var line := "[" + x + "]\n"; Header(line) == Some(x) && IsLine(line) && Terminated(line)
  {
    HeaderOf(x);
    var line := "[" + x + "]\n";
    assert forall i | 0 < i <= |x| :: line[i] == x[i - 1];
  }

  lemma {:induction false} TableHeader(v: Vendor)
    ensures Header(Table(v)[0]) == Some(TableName(v)) && IsLine(Table(v)[0]) && Terminated(Table(v)[0])
  {
    TableNames(v);
    BracketedLine(TableName(v));
  }

  lemma {:induction false} TableLine(v: Vendor, i: nat)
    requires i < 8
    ensures i > 0 ==> Header(Table(v)[i]) == None
    ensures IsLine(Table(v)[i]) && Terminated(Table(v)[i])
    ensures 0 < i < 7 ==> CellOf(Table(v)[i]) == Some((CELLS[i - 1], false))
    ensures i == 7 ==> CellOf(Table(v)[i]) == None
  {
    hide NameLength, StripLeft, StripRight;
    if i == 0 {
      TableHeader(v);
    } else if i == 7 {
      BlankLine();
    } else {
      CellNames(i - 1);
      CellLineIs(CELLS[i - 1]);
    }
  }

  lemma {:induction false} TableFacts(v: Vendor)
    ensures var t := Table(v);
            && Header(t[0]) == Some(TableName(v))
            && (forall i | 0 < i < 8 :: Header(t[i]) == None)
            && (forall i | 0 <= i < 8 :: IsLine(t[i]) && Terminated(t[i]))
            && WellFormed(t)
  {
    TableHeader(v);
    forall i: nat | i < 8
      ensures i > 0 ==> Header(Table(v)[i]) == None
      ensures IsLine(Table(v)[i]) && Terminated(Table(v)[i])
    {
      TableLine(v, i);
    }
  }

  /** A body that sets each of some cells to false has exactly those settings. */
  lemma {:induction false} AllFalse(body: seq<string>, cells: seq<string>)
    requires |body| == |cells|
    requires forall i | 0 <= i < |cells| :: CellOf(body[i]) == Some((cells[i], false)) && cells[i] in CELLS
    ensures forall i | 0 <= i < |cells| :: cells[i] in Settings(body) && !Settings(body)[cells[i]]
  {
    hide CellOf;
    if body != [] {
      var k := |body| - 1;
      AllFalse(body[..k], cells[..k]);
      forall i | 0 <= i < |cells| ensures cells[i] in Settings(body) && !Settings(body)[cells[i]] {
        if i < k { assert cells[..k][i] == cells[i]; }
      }
    }
  }

  lemma SettingsIgnore(body: seq<string>, l: string)
    requires CellOf(l).None?
    ensures Settings(body + [l]) == Settings(body)
  {
    assert (body + [l])[..|body|] == body;
  }

  lemma {:induction false} TableSettings(v: Vendor)
    ensures forall i | 0 <= i < |CELLS| :: CELLS[i] in Settings(Table(v)[1..]) && !Settings(Table(v)[1..])[CELLS[i]]
  {
    hide CellOf, Settings, HeaderLine, CellLine;
    var t := Table(v);
    var body := t[1..7];
    forall i | 0 <= i < 6 ensures CellOf(body[i]) == Some((CELLS[i], false)) && CELLS[i] in CELLS {
      TableLine(v, i + 1);
      assert body[i] == t[i + 1];
    }
    AllFalse(body, CELLS);
    TableLine(v, 7);
    SettingsIgnore(body, t[7]);
    assert t[1..] == body + [t[7]];
  }

  lemma {:induction false} OverriddenNone(settings: map<string, bool>, n: nat)
    requires n <= |CELLS|
    ensures Overridden(settings, n) == [] <==> forall i | 0 <= i < n :: CELLS[i] in settings && !settings[CELLS[i]]
  {
    if n > 0 { OverriddenNone(settings, n - 1); }
  }

  lemma {:induction false} TableOverridesNothing(v: Vendor)
    ensures Overridden(Settings(Table(v)[1..]), |CELLS|) == []
  {
    hide Table, Settings, Overridden;
    TableSettings(v);
    OverriddenNone(Settings(Table(v)[1..]), |CELLS|);
  }

  // --- sealed line lists ---------------------------------------------------------------------

  ghost predicate SealedAt(ls: seq<string>, v: Vendor, a: seq<string>, b: seq<string>) {
    ls == a + Table(v) + b && !HasHeader(a, Is(v)) && (b == [] || Header(b[0]).Some?)
  }

  /** The first table of that vendor consists of exactly the sealed lines. */
  ghost predicate Sealed(ls: seq<string>, v: Vendor) { exists a, b :: SealedAt(ls, v, a, b) }

  lemma {:induction false} SealedBlock(ls: seq<string>, v: Vendor, a: seq<string>, b: seq<string>)
    requires SealedAt(ls, v, a, b)
    ensures Find(ls, Is(v)) == |a| && BlockEnd(ls, |a|) == |a| + 8
  {
    TableFacts(v);
    assert forall i | 0 <= i < 8 :: ls[|a| + i] == Table(v)[i];
    assert NoHit(ls, Is(v), 0, |a|) by {
      forall k | 0 <= k < |a| ensures !Hit(Header(ls[k]), Is(v)) { assert ls[k] == a[k]; }
    }
    assert NoHit(ls, Any(), |a| + 1, |a| + 8) by {
      forall k | |a| + 1 <= k < |a| + 8 ensures !Hit(Header(ls[k]), Any()) { assert ls[|a| + (k - |a|)] == Table(v)[k - |a|]; }
    }
    assert ls[|a| + 0] == Table(v)[0];
    assert b != [] ==> ls[|a| + 8] == b[0];
    BlockIs(ls, v, |a|, |a| + 8);
  }

  /** Sealing a sealed table changes nothing and says so. */
  lemma {:induction false} SealedFixed(ls: seq<string>, v: Vendor)
    requires Sealed(ls, v)
    ensures SealOne(ls, v) == ls && NoteOne(ls, v) == AlreadySealed
  {
    hide Overridden, Settings, Find, BlockEnd, Table, HasHeader, Header;
    var a, b :| SealedAt(ls, v, a, b);
    SealedBlock(ls, v, a, b);
    Parts(a, Table(v), b);
    TableOverridesNothing(v);
  }

  lemma Parts<T>(a: seq<T>, t: seq<T>, b: seq<T>)
    requires t != []
    ensures var ls := a + t + b; ls[..|a|] == a && ls[|a| + |t|..] == b && ls[|a| + 1..|a| + |t|] == t[1..]
  {
  }

  lemma HasHeaderAppend(a: seq<string>, b: seq<string>, p: string -> bool)
    ensures HasHeader(a + b, p) <==> HasHeader(a, p) || HasHeader(b, p)
  {
    var c := a + b;
    if HasHeader(a, p) {
      var i :| 0 <= i < |a| && Hit(Header(a[i]), p);
      assert c[i] == a[i];
    }
    if HasHeader(b, p) {
      var i :| 0 <= i < |b| && Hit(Header(b[i]), p);
      assert c[|a| + i] == b[i];
    }
    if HasHeader(c, p) {
      var i :| 0 <= i < |c| && Hit(Header(c[i]), p);
      assert if i < |a| then a[i] == c[i] else b[i - |a|] == c[i];
    }
  }

  lemma FindPrefix(ls: seq<string>, p: string -> bool)
    ensures !HasHeader(ls[..Find(ls, p)], p)
    ensures Find(ls, p) == |ls| <==> !HasHeader(ls, p)
  {
    var s := Find(ls, p);
    assert forall i | 0 <= i < s :: ls[..s][i] == ls[i];
    if s < |ls| { assert Hit(Header(ls[s]), p); }
  }

  lemma SeparatorHeaders(ls: seq<string>, p: string -> bool)
    ensures !HasHeader(Separator(ls), p)
  {
    BlankLine();
  }

  lemma BlockEndHeader(ls: seq<string>, s: nat)
    requires s < |ls|
    ensures s < BlockEnd(ls, s) <= |ls|
    ensures BlockEnd(ls, s) < |ls| ==> Header(ls[BlockEnd(ls, s)]).Some?
    ensures forall k | s < k < BlockEnd(ls, s) :: Header(ls[k]).None?
  {
    var tail := ls[s + 1..];
    forall k | s < k < BlockEnd(ls, s) ensures Header(ls[k]).None? {
      assert tail[k - s - 1] == ls[k];
      assert !Hit(Header(tail[k - s - 1]), Any());
    }
  }

  lemma {:induction false} SealOneSeals(ls: seq<string>, v: Vendor)
    ensures Sealed(SealOne(ls, v), v)
  {
    hide Find, StripLeft, StripRight;
    var s := Find(ls, Is(v));
    FindPrefix(ls, Is(v));
    if s == |ls| {
      SeparatorHeaders(ls, Is(v));
      HasHeaderAppend(ls, Separator(ls), Is(v));
      assert SealedAt(ls + Separator(ls) + Table(v), v, ls + Separator(ls), []);
    } else {
      BlockEndHeader(ls, s);
      assert SealedAt(SealOne(ls, v), v, ls[..s], ls[BlockEnd(ls, s)..]);
    }
  }

  lemma {:induction false} TableForeign(v: Vendor, w: Vendor)
    requires v != w
    ensures !HasHeader(Table(v), Is(w))
  {
    hide StripLeft, StripRight;
    TableFacts(v);
    assert TableName(v)[8] != TableName(w)[8];
  }

  lemma Reassociate<T>(a: seq<T>, b: seq<T>, c: seq<T>, d: seq<T>)
    ensures a + b + c + d == a + (b + c + d)
  {
  }

  lemma TableLast(v: Vendor)
    ensures Table(v)[7] == "\n"
  {
  }

  lemma {:induction false} SealAppendKeeps(ls: seq<string>, v: Vendor, w: Vendor, a: seq<string>, b: seq<string>)
    requires SealedAt(ls, w, a, b) && Find(ls, Is(v)) == |ls|
    ensures Sealed(SealOne(ls, v), w)
  {
    hide Find, Table, Header, IsBlank;
    TableFacts(v);
    BlankLine();
    var sep := Separator(ls);
    var b' := b + sep + Table(v);
    Reassociate(a + Table(w), b, sep, Table(v));
    if b == [] {
      TableLast(w);
      assert ls[|ls| - 1] == Table(w)[7];
      assert b'[0] == Table(v)[0];
    } else {
      assert b'[0] == b[0];
    }
    assert SealedAt(SealOne(ls, v), w, a, b');
  }

  lemma {:induction false} ReplaceBefore(a: seq<string>, tw: seq<string>, b: seq<string>, s: nat, e: nat, tv: seq<string>, p: string -> bool)
    requires s < e <= |a| && !HasHeader(a, p) && !HasHeader(tv, p)
    ensures var ls := a + tw + b; ls[..s] + tv + ls[e..] == a[..s] + tv + a[e..] + tw + b
    ensures !HasHeader(a[..s] + tv + a[e..], p)
  {
    var ls := a + tw + b;
    assert ls[..s] == a[..s] && ls[e..] == a[e..] + tw + b;
    assert a == a[..s] + a[s..e] + a[e..];
    HasHeaderAppend(a[..s] + a[s..e], a[e..], p);
    HasHeaderAppend(a[..s], a[s..e], p);
    HasHeaderAppend(a[..s] + tv, a[e..], p);
    HasHeaderAppend(a[..s], tv, p);
  }

  lemma {:induction false} ReplaceAfter(a: seq<string>, tw: seq<string>, b: seq<string>, s: nat, e: nat, tv: seq<string>)
    requires |a| + |tw| <= s < e <= |a| + |tw| + |b| && tv != []
    ensures var ls, d := a + tw + b, |a| + |tw|;
            var b' := b[..s - d] + tv + b[e - d..];
            ls[..s] + tv + ls[e..] == a + tw + b' && b'[0] == if s == d then tv[0] else b[0]
  {
    var ls, d := a + tw + b, |a| + |tw|;
    assert ls[..s] == a + tw + b[..s - d] && ls[e..] == b[e - d..];
  }

  lemma {:induction false} SealBeforeKeeps(ls: seq<string>, v: Vendor, w: Vendor, a: seq<string>, b: seq<string>)
    requires v != w && SealedAt(ls, w, a, b) && Find(ls, Is(v)) < |a|
    ensures Sealed(SealOne(ls, v), w)
  {
    hide HasHeader, Header, Hit, Is, Separator, Table;
    var s := Find(ls, Is(v));
    var e := BlockEnd(ls, s);
    TableFacts(w);
    BlockEndHeader(ls, s);
    assert ls[|a|] == Table(w)[0];
    TableForeign(v, w);
    ReplaceBefore(a, Table(w), b, s, e, Table(v), Is(w));
    assert SealedAt(SealOne(ls, v), w, a[..s] + Table(v) + a[e..], b);
  }

  lemma {:induction false} SealAfterKeeps(ls: seq<string>, v: Vendor, w: Vendor, a: seq<string>, b: seq<string>)
    requires SealedAt(ls, w, a, b) && |a| + 8 <= Find(ls, Is(v)) < |ls|
    ensures Sealed(SealOne(ls, v), w)
  {
    hide Find, BlockEnd, HasHeader, Header, Is, Separator, Table;
    var s := Find(ls, Is(v));
    var e, d := BlockEnd(ls, s), |a| + 8;
    TableHeader(v);
    BlockEndHeader(ls, s);
    ReplaceAfter(a, Table(w), b, s, e, Table(v));
    assert SealedAt(SealOne(ls, v), w, a, b[..s - d] + Table(v) + b[e - d..]);
  }

  lemma {:induction false} FindOutside(ls: seq<string>, v: Vendor, w: Vendor, a: seq<string>, b: seq<string>)
    requires v != w && SealedAt(ls, w, a, b)
    ensures Find(ls, Is(v)) < |a| || Find(ls, Is(v)) >= |a| + 8
  {
    TableForeign(w, v);
    forall k | |a| <= k < |a| + 8
      ensures !Hit(Header(ls[k]), Is(v))
    {
      assert ls[k] == Table(w)[k - |a|];
    }
  }

  /** Sealing one vendor leaves the other vendor's sealed table sealed. */
  lemma {:induction false} SealOneKeeps(ls: seq<string>, v: Vendor, w: Vendor)
    requires v != w && Sealed(ls, w)
    ensures Sealed(SealOne(ls, v), w)
  {
    var a, b :| SealedAt(ls, w, a, b);
    FindOutside(ls, v, w, a, b);
    if Find(ls, Is(v)) == |ls| {
      SealAppendKeeps(ls, v, w, a, b);
    } else if Find(ls, Is(v)) < |a| {
      SealBeforeKeeps(ls, v, w, a, b);
    } else {
      SealAfterKeeps(ls, v, w, a, b);
    }
  }

  lemma {:induction false} SealLinesSeals(ls: seq<string>)
    ensures Sealed(SealLines(ls), Claude) && Sealed(SealLines(ls), Cursor)
  {
    SealOneSeals(ls, Claude);
    SealOneKeeps(SealOne(ls, Claude), Cursor, Claude);
    SealOneSeals(SealOne(ls, Claude), Cursor);
  }
}
