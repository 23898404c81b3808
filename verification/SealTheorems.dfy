/** Sealing at the level of text: the lines of a sealed text after joining and splitting again, what
    becomes of the lines outside the tables, and on which texts an appended header is glued to an
    unterminated blank line. */
module SealTheorems {
  import opened Common
  import opened Lines
  import opened Toml
  import opened Seal
  import opened SealLaws

  // --- lists of lines that join cleanly ---------------------------------------------------------

  /** As `WellFormed`, but an unterminated line may be followed by a bare newline. */
  ghost predicate Loose(r: seq<string>) {
    && (forall i | 0 <= i < |r| :: IsLine(r[i]))
    && (forall i, j | 0 <= i && i + 1 == j < |r| :: Terminated(r[i]) || r[j] == "\n")
  }

  /** A line after others: a bare newline closes an unterminated last line. */
  function Glue(m: seq<string>, l: string): seq<string> {
    if l == "\n" && m != [] && !Terminated(m[|m| - 1]) then m[..|m| - 1] + [m[|m| - 1] + "\n"] else m + [l]
  }

  /** The lines one sees after joining a loose list and splitting it again. */
  function Merge(r: seq<string>): seq<string> {
    if r == [] then [] else Glue(Merge(r[..|r| - 1]), r[|r| - 1])
  }

  predicate AllTerminated(r: seq<string>) { forall i | 0 <= i < |r| :: Terminated(r[i]) }

  predicate EndsTerminated(r: seq<string>) { r == [] || Terminated(r[|r| - 1]) }

  lemma MendedLine(u: string)
    requires IsLine(u) && !Terminated(u)
    ensures IsLine(u + "\n") && Terminated(u + "\n")
  {
    var l := u + "\n";
    assert l[..|l| - 1] == u;
    assert forall i | 0 <= i < |u| - 1 :: u[i] == u[..|u| - 1][i];
  }

  lemma PlainGlue(m: seq<string>, l: string)
    requires m != [] ==> Terminated(m[|m| - 1])
    ensures Glue(m, l) == m + [l]
  {
  }

  lemma GlueWellFormed(m: seq<string>, l: string)
    requires WellFormed(m) && IsLine(l) && (m != [] && !Terminated(m[|m| - 1]) ==> l == "\n")
    ensures WellFormed(Glue(m, l)) && Glue(m, l) != []
    ensures Terminated(Glue(m, l)[|Glue(m, l)| - 1]) <==> Terminated(l)
  {
    hide IsLine, Terminated;
    if m != [] && !Terminated(m[|m| - 1]) {
      MendedLine(m[|m| - 1]);
      BlankLine();
    } else {
      PlainGlue(m, l);
    }
  }

  lemma {:induction false} MergeWellFormed(r: seq<string>)
    requires Loose(r)
    ensures WellFormed(Merge(r))
    ensures r == [] <==> Merge(r) == []
    ensures r != [] ==> (Terminated(Merge(r)[|Merge(r)| - 1]) <==> Terminated(r[|r| - 1]))
    ensures EndsTerminated(r) ==> AllTerminated(Merge(r))
  {
    hide Glue, IsLine, Terminated;
    if r != [] {
      var k := |r| - 1;
      MergeWellFormed(r[..k]);
      assert k > 0 ==> Terminated(r[k - 1]) || r[k] == "\n";
      GlueWellFormed(Merge(r[..k]), r[k]);
    }
  }

  lemma {:induction false} JoinEnd(r: seq<string>, l: string)
    ensures Join(r + [l]) == Join(r) + l
  {
    JoinAppend(r, [l]);
    assert Join([l]) == l + Join([l][1..]);
  }

  lemma GlueJoin(m: seq<string>, l: string)
    ensures Join(Glue(m, l)) == Join(m) + l
  {
    hide Join;
    JoinEnd(m, l);
    if Glue(m, l) != m + [l] {
      var init, last := m[..|m| - 1], m[|m| - 1];
      InitLast(m);
      JoinEnd(init, last);
      JoinEnd(init, last + "\n");
      Assoc(Join(init), last, "\n");
    }
  }

  /** A reading of a list of lines that sees neither how a last line was mended nor, in the lines
      before the last, anything it cannot read. */
  ghost predicate Blind<T(!new)>(f: seq<string> -> T) {
    && (forall m: seq<string>, l: string :: f(Glue(m, l)) == f(m + [l]))
    && (forall a: seq<string>, b: seq<string>, l: string | f(a) == f(b) :: f(a + [l]) == f(b + [l]))
  }

  /** Merging changes nothing such a reading sees. */
  lemma {:induction false} MergeUnseen<T(!new)>(r: seq<string>, f: seq<string> -> T)
    requires Blind(f)
    ensures f(Merge(r)) == f(r)
  {
    hide Glue;
    if r != [] {
      var k := |r| - 1;
      MergeUnseen(r[..k], f);
      InitLast(r);
      assert f(Merge(r[..k]) + [r[k]]) == f(r[..k] + [r[k]]);
    }
  }

  lemma JoinBlind()
    ensures Blind(Join)
  {
    hide Join, Glue;
    forall m: seq<string>, l: string ensures Join(Glue(m, l)) == Join(m + [l]) {
      GlueJoin(m, l);
      JoinEnd(m, l);
    }
    forall a: seq<string>, b: seq<string>, l: string | Join(a) == Join(b) ensures Join(a + [l]) == Join(b + [l]) {
      JoinEnd(a, l);
      JoinEnd(b, l);
    }
  }

  lemma {:induction false} SplitLoose(r: seq<string>)
    requires Loose(r)
    ensures Split(Join(r)) == Merge(r)
  {
    JoinBlind();
    MergeUnseen(r, Join);
    MergeWellFormed(r);
    SplitJoin(Merge(r));
  }

  lemma OwnerEnd(m: seq<string>, l: string)
    ensures Owner(m + [l]) == if Header(l).Some? then Header(l) else Owner(m)
  {
    assert (m + [l])[..|m|] == m;
  }

  /** Mending a line changes neither headers nor owners. */
  lemma GlueOwner(m: seq<string>, l: string)
    ensures Owner(Glue(m, l)) == Owner(m + [l])
  {
    hide Header, Owner;
    if Glue(m, l) != m + [l] {
      var init, last := m[..|m| - 1], m[|m| - 1];
      InitLast(m);
      OwnerEnd(m, l);
      OwnerEnd(init, last);
      OwnerEnd(init, last + "\n");
      HeaderIgnoresTerminator(last);
      BlankLine();
    }
  }

  lemma HasHeaderEnd(m: seq<string>, l: string, p: string -> bool)
    ensures HasHeader(m + [l], p) <==> HasHeader(m, p) || Hit(Header(l), p)
  {
    HasHeaderSplit(m + [l], p);
    assert (m + [l])[..|m|] == m;
  }

  lemma GlueHeaders(m: seq<string>, l: string, p: string -> bool)
    ensures HasHeader(Glue(m, l), p) <==> HasHeader(m + [l], p)
  {
    hide Header, HasHeader;
    if Glue(m, l) != m + [l] {
      var init, last := m[..|m| - 1], m[|m| - 1];
      InitLast(m);
      HasHeaderEnd(m, l, p);
      HasHeaderEnd(init, last, p);
      HasHeaderEnd(init, last + "\n", p);
      HeaderIgnoresTerminator(last);
      BlankLine();
    }
  }

  lemma HasHeaderBlind(p: string -> bool)
    ensures Blind(r => HasHeader(r, p))
  {
    hide Header, HasHeader, Glue;
    var f := (r: seq<string>) => HasHeader(r, p);
    forall m: seq<string>, l: string ensures f(Glue(m, l)) == f(m + [l]) { GlueHeaders(m, l, p); }
    forall a: seq<string>, b: seq<string>, l: string | f(a) == f(b) ensures f(a + [l]) == f(b + [l]) {
      HasHeaderEnd(a, l, p);
      HasHeaderEnd(b, l, p);
    }
  }

  /** The text a sweep keeps. */
  ghost function Kept(r: seq<string>, p: string -> bool): string {
    if r == [] then ""
    else Kept(r[..|r| - 1], p) + if Hit(Owner(r), p) then "" else r[|r| - 1]
  }

  lemma {:induction false} KeptText(r: seq<string>, p: string -> bool)
    ensures Kept(r, p) == Join(Sweep(r, p))
  {
    hide Owner, Hit;
    if r != [] {
      var k := |r| - 1;
      KeptText(r[..k], p);
      if Hit(Owner(r), p) {
        assert Sweep(r, p) == Sweep(r[..k], p) + [] == Sweep(r[..k], p);
      } else {
        JoinEnd(Sweep(r[..k], p), r[k]);
      }
    }
  }

  lemma KeptEnd(r: seq<string>, l: string, p: string -> bool)
    ensures Kept(r + [l], p) == Kept(r, p) + if Hit(Owner(r + [l]), p) then "" else l
  {
    assert (r + [l])[..|r|] == r;
  }

  /** Nor what a sweep keeps. */
  lemma GlueKept(m: seq<string>, l: string, p: string -> bool)
    ensures Kept(Glue(m, l), p) == Kept(m + [l], p)
  {
    hide Kept, Owner, Hit;
    GlueOwner(m, l);
    if Glue(m, l) != m + [l] {
      var init, last := m[..|m| - 1], m[|m| - 1];
      InitLast(m);
      KeptEnd(m, l, p);
      KeptEnd(init, last, p);
      KeptEnd(init, last + "\n", p);
      OwnerEnd(m, l);
      BlankLine();
      Assoc(Kept(init, p), last, "\n");
    }
  }

  /** The table a text ends in and the text kept so far, which is all a sweep goes by. */
  ghost function Swept(p: string -> bool): seq<string> -> (Option<string>, string) { r => (Owner(r), Kept(r, p)) }

  lemma SweptBlind(p: string -> bool)
    ensures Blind(Swept(p))
  {
    hide Owner, Kept, Header, Hit, Glue;
    var f := Swept(p);
    forall m: seq<string>, l: string ensures f(Glue(m, l)) == f(m + [l]) {
      GlueOwner(m, l);
      GlueKept(m, l, p);
    }
    forall a: seq<string>, b: seq<string>, l: string | f(a) == f(b) ensures f(a + [l]) == f(b + [l]) {
      OwnerEnd(a, l);
      OwnerEnd(b, l);
      KeptEnd(a, l, p);
      KeptEnd(b, l, p);
    }
  }

  lemma GlueFirst(m: seq<string>, l: string)
    ensures FirstHeader(Glue(m, l)) == FirstHeader(m + [l])
  {
    hide Header;
    if m != [] { HeaderIgnoresTerminator(m[|m| - 1]); }
  }

  /** What the first line is the header of, if there is a line. */
  ghost function FirstHeader(r: seq<string>): Option<Option<string>> { if r == [] then None else Some(Header(r[0])) }

  lemma FirstHeaderEnd(m: seq<string>, l: string)
    ensures FirstHeader(m + [l]) == if m == [] then Some(Header(l)) else FirstHeader(m)
    ensures m == [] <==> FirstHeader(m) == None
  {
  }

  lemma FirstBlind()
    ensures Blind(FirstHeader)
  {
    hide Header, Glue, FirstHeader;
    forall m: seq<string>, l: string ensures FirstHeader(Glue(m, l)) == FirstHeader(m + [l]) { GlueFirst(m, l); }
    forall a: seq<string>, b: seq<string>, l: string | FirstHeader(a) == FirstHeader(b)
      ensures FirstHeader(a + [l]) == FirstHeader(b + [l])
    {
      FirstHeaderEnd(a, l);
      FirstHeaderEnd(b, l);
    }
  }

  // --- sealing keeps lists loose ------------------------------------------------------------------

  /** A table can be appended without gluing its header to an unterminated blank line. */
  predicate Ready(ls: seq<string>) { ls == [] || Terminated(ls[|ls| - 1]) || !IsBlank(ls[|ls| - 1]) }

  lemma {:induction false} LooseAppend(a: seq<string>, b: seq<string>)
    requires Loose(a) && Loose(b) && (EndsTerminated(a) || b == [] || b[0] == "\n")
    ensures Loose(a + b)
  {
    var c := a + b;
    forall i, j | 0 <= i && i + 1 == j < |c| ensures Terminated(c[i]) || c[j] == "\n" {
      assert if i < |a| then c[i] == a[i] else c[i] == b[i - |a|];
      assert if j < |a| then c[j] == a[j] else c[j] == b[j - |a|];
    }
  }

  lemma TableLoose(v: Vendor)
    ensures Loose(Table(v)) && EndsTerminated(Table(v)) && Table(v)[0] != "\n"
  {
    TableFacts(v);
    BlankLine();
  }

  lemma {:induction false} AppendLoose(ls: seq<string>, v: Vendor)
    requires Loose(ls) && Ready(ls)
    ensures Loose(ls + Separator(ls) + Table(v))
  {
    BlankLine();
    TableLoose(v);
    LooseAppend(ls, Separator(ls));
    LooseAppend(ls + Separator(ls), Table(v));
  }

  lemma {:induction false} RewriteLoose(ls: seq<string>, v: Vendor)
    requires Loose(ls) && Find(ls, Is(v)) < |ls|
    ensures Loose(SealOne(ls, v)) && EndsTerminated(ls[..Find(ls, Is(v))])
  {
    hide Find, BlockEnd, Is, IsLine, Separator, Table, Terminated;
    var s := Find(ls, Is(v));
    BlankLine();
    TableLoose(v);
    BlockEndHeader(ls, s);
    assert s > 0 ==> Terminated(ls[s - 1]);
    LooseAppend(ls[..s], Table(v));
    LooseAppend(ls[..s] + Table(v), ls[BlockEnd(ls, s)..]);
  }

  lemma SealOneLoose(ls: seq<string>, v: Vendor)
    requires Loose(ls) && (HasHeader(ls, Is(v)) || Ready(ls))
    ensures Loose(SealOne(ls, v))
  {
    FindPrefix(ls, Is(v));
    if Find(ls, Is(v)) == |ls| { AppendLoose(ls, v); } else { RewriteLoose(ls, v); }
  }

  lemma {:induction false} SealedSplit(r: seq<string>, v: Vendor)
    requires Loose(r) && Sealed(r, v)
    ensures Sealed(Split(Join(r)), v)
  {
    hide Join, Split, HasHeader, Header, Is, IsLine, Table, Terminated;
    var a, b :| SealedAt(r, v, a, b);
    TableFacts(v);
    TableLoose(v);
    assert forall i | 0 <= i < |a| :: a[i] == r[i];
    assert forall i | 0 <= i < |b| :: b[i] == r[|a| + 8 + i];
    assert r[|a|] == Table(v)[0];
    assert a != [] ==> Terminated(r[|a| - 1]);
    SplitLoose(a);
    SplitLoose(b);
    MergeWellFormed(a);
    JoinBlind();
    MergeUnseen(a, Join);
    JoinClosed(Merge(a));
    SplitJoin(Table(v));
    JoinClosed(Table(v));
    JoinAppend(a + Table(v), b);
    JoinAppend(a, Table(v));
    ClosedConcat(Join(a), Join(Table(v)));
    SplitAppend(Join(a), Join(Table(v)));
    SplitAppend(Join(a) + Join(Table(v)), Join(b));
    HasHeaderBlind(Is(v));
    MergeUnseen(a, r => HasHeader(r, Is(v)));
    FirstBlind();
    MergeUnseen(b, FirstHeader);
    assert SealedAt(Split(Join(r)), v, Merge(a), Merge(b));
  }

  lemma ClosedConcat(a: string, b: string)
    requires Closed(a) && Closed(b)
    ensures Closed(a + b)
  {
  }

  lemma SplitIsLoose(t: string)
    ensures Loose(Split(t))
  {
    SplitWellFormed(t);
  }

  /** A cleanly joined result is sealed for both vendors, and sealing it again is the identity. */
  lemma {:induction false} LooseResultIsFixed(t: string)
    requires Loose(SealLines(Split(t)))
    ensures var r := SealText(t);
            && Sealed(Split(r), Claude) && Sealed(Split(r), Cursor)
            && SealText(r) == r && SealNotes(r) == [AlreadySealed, AlreadySealed]
  {
    var ls := Split(t);
    var r := SealText(t);
    SealLinesSeals(ls);
    SealedSplit(SealLines(ls), Claude);
    SealedSplit(SealLines(ls), Cursor);
    SealedFixed(Split(r), Claude);
    SealedFixed(Split(r), Cursor);
    JoinSplit(r);
  }

  // --- everything else is kept ------------------------------------------------------------------------

  predicate IsCompat(h: string) { h == TableName(Claude) || h == TableName(Cursor) }

  lemma {:induction false} OwnerAppend(a: seq<string>, b: seq<string>)
    requires b != [] && Header(b[0]).Some?
    ensures Owner(a + b) == Owner(b)
  {
    var k := |b| - 1;
    if k > 0 {
      OwnerAppend(a, b[..k]);
      assert (a + b)[..|a| + k] == a + b[..k];
    }
  }

  lemma {:induction false} SweepAppend(a: seq<string>, b: seq<string>, p: string -> bool)
    requires b == [] || Header(b[0]).Some?
    ensures Sweep(a + b, p) == Sweep(a, p) + Sweep(b, p)
  {
    hide Owner, StripLeft, StripRight;
    if b == [] {
      assert a + b == a;
    } else {
      var k := |b| - 1;
      SweepAppend(a, b[..k], p);
      OwnerAppend(a, b);
      var c, x := a + b, if Hit(Owner(b), p) then [] else [b[k]];
      assert c[..|c| - 1] == a + b[..k] && c[|c| - 1] == b[k];
      assert Sweep(c, p) == (Sweep(a, p) + Sweep(b[..k], p)) + x;
      assert Sweep(b, p) == Sweep(b[..k], p) + x;
    }
  }

  lemma {:induction false} SweepBlock(b: seq<string>, p: string -> bool)
    requires b == [] || Hit(Header(b[0]), p)
    requires forall i | 0 < i < |b| :: Header(b[i]).None?
    ensures Sweep(b, p) == []
    ensures b != [] ==> Hit(Owner(b), p)
  {
    if |b| > 1 { SweepBlock(b[..|b| - 1], p); } else if |b| == 1 { assert b[..0] == []; }
  }

  lemma {:induction false} SweepMiddle(a: seq<string>, b: seq<string>, c: seq<string>, p: string -> bool)
    requires b != [] && Header(b[0]).Some? && (c == [] || Header(c[0]).Some?) && Sweep(b, p) == []
    ensures Sweep(a + b + c, p) == Sweep(a, p) + Sweep(c, p)
  {
    SweepAppend(a + b, c, p);
    SweepAppend(a, b, p);
  }

  lemma CompatName(v: Vendor)
    ensures IsCompat(TableName(v))
  {
  }

  lemma {:induction false} RewriteKeeps(ls: seq<string>, v: Vendor)
    requires Find(ls, Is(v)) < |ls|
    ensures Sweep(SealOne(ls, v), IsCompat) == Sweep(ls, IsCompat)
  {
    var s := Find(ls, Is(v));
    var e := BlockEnd(ls, s);
    TableFacts(v);
    CompatName(v);
    BlockEndHeader(ls, s);
    ReplaceKeeps(ls, s, e, Table(v), IsCompat);
  }

  lemma {:induction false} ReplaceKeeps(ls: seq<string>, s: nat, e: nat, t: seq<string>, p: string -> bool)
    requires s < e <= |ls| && Hit(Header(ls[s]), p) && (e < |ls| ==> Header(ls[e]).Some?)
    requires forall k | s < k < e :: Header(ls[k]).None?
    requires t != [] && Hit(Header(t[0]), p) && forall k | 0 < k < |t| :: Header(t[k]).None?
    ensures Sweep(ls[..s] + t + ls[e..], p) == Sweep(ls, p)
  {
    var a, block, c := ls[..s], ls[s..e], ls[e..];
    assert ls == a + block + c;
    assert forall i | 0 < i < |block| :: block[i] == ls[s + i];
    SweepBlock(block, p);
    SweepBlock(t, p);
    SweepMiddle(a, block, c, p);
    SweepMiddle(a, t, c, p);
  }

  lemma {:induction false} AppendKeeps(ls: seq<string>, v: Vendor)
    requires Find(ls, Is(v)) == |ls|
    ensures Sweep(SealOne(ls, v), IsCompat) == Sweep(ls, IsCompat) + if Separator(ls) == [] || Hit(Owner(ls), IsCompat) then [] else ["\n"]
  {
    var l := ls + Separator(ls);
    TableFacts(v);
    BlankLine();
    SweepAppend(l, Table(v), IsCompat);
    SweepBlock(Table(v), IsCompat);
    if Separator(ls) == [] {
      assert l == ls;
    } else {
      assert l[..|ls|] == ls;
    }
  }

  /** The lines outside the compat tables stay, in order; at most one newline joins them. */
  lemma {:induction false} SealLinesKeeps(ls: seq<string>)
    ensures Sweep(SealLines(ls), IsCompat) == Sweep(ls, IsCompat)
         || Sweep(SealLines(ls), IsCompat) == Sweep(ls, IsCompat) + ["\n"]
  {
    var mid := SealOne(ls, Claude);
    if Find(ls, Is(Claude)) < |ls| { RewriteKeeps(ls, Claude); } else { AppendKeeps(ls, Claude); }
    if Find(mid, Is(Cursor)) < |mid| { RewriteKeeps(mid, Cursor); } else { AppendKeeps(mid, Cursor); }
    if Find(ls, Is(Claude)) == |ls| {
      BlankLine();
      assert mid[|mid| - 1] == Table(Claude)[7];
    }
  }

  // --- the theorems on text -----------------------------------------------------------------------------

  /** The text outside the compat tables. */
  ghost function Outside(t: string): string { Join(Sweep(Split(t), IsCompat)) }

  lemma {:induction false} TextKept(t: string)
    requires Loose(SealLines(Split(t)))
    ensures Outside(SealText(t)) == Outside(t) || Outside(SealText(t)) == Outside(t) + "\n"
  {
    var ls := Split(t);
    var r := SealLines(ls);
    SplitLoose(r);
    KeptText(r, IsCompat);
    KeptText(Merge(r), IsCompat);
    SweptBlind(IsCompat);
    MergeUnseen(r, Swept(IsCompat));
    SealLinesKeeps(ls);
    JoinEnd(Sweep(ls, IsCompat), "\n");
  }

  /** Exactly the texts on which an appended table header is glued to an unterminated blank line:
      the text ends in one, some table is missing, and no rewritten table swallows that line. */
  ghost predicate Glues(ls: seq<string>) {
    && !Ready(ls)
    && (!HasHeader(ls, Is(Claude)) || !HasHeader(ls, Is(Cursor)))
    && !EndsIn(ls, Claude) && !EndsIn(ls, Cursor)
  }

  /** The vendor's first table reaches to the end of the text. */
  ghost predicate EndsIn(ls: seq<string>, v: Vendor) { Find(ls, Is(v)) < |ls| && BlockEnd(ls, Find(ls, Is(v))) == |ls| }

  lemma SealedEndReady(ls: seq<string>, v: Vendor)
    requires Ready(ls)
    ensures Ready(SealOne(ls, v))
  {
    var s := Find(ls, Is(v));
    TableFacts(v);
    if s < |ls| {
      BlockEndHeader(ls, s);
      var r, e := SealOne(ls, v), BlockEnd(ls, s);
      assert r[|r| - 1] == if e == |ls| then Table(v)[7] else ls[|ls| - 1];
    } else {
      var r := SealOne(ls, v);
      assert r[|r| - 1] == Table(v)[7];
    }
  }

  // --- exactly when sealing is idempotent -------------------------------------------------------------------

  lemma {:induction false} ForeignHeader(ls: seq<string>, v: Vendor, w: Vendor)
    requires v != w
    ensures HasHeader(SealOne(ls, v), Is(w)) <==> HasHeader(ls, Is(w))
  {
    var s := Find(ls, Is(v));
    TableForeign(v, w);
    if s == |ls| {
      SeparatorHeaders(ls, Is(w));
      HasHeaderAppend(ls, Separator(ls), Is(w));
      HasHeaderAppend(ls + Separator(ls), Table(v), Is(w));
    } else {
      BlockEndHeader(ls, s);
      BlockForeign(ls, v, w);
      ReplaceHeaders(ls, s, BlockEnd(ls, s), Table(v), Is(w));
    }
  }

  lemma {:induction false} BlockForeign(ls: seq<string>, v: Vendor, w: Vendor)
    requires v != w && Find(ls, Is(v)) < |ls|
    ensures !HasHeader(ls[Find(ls, Is(v))..BlockEnd(ls, Find(ls, Is(v)))], Is(w))
  {
    hide Find, StripLeft, StripRight;
    var s := Find(ls, Is(v));
    BlockEndHeader(ls, s);
    assert TableName(v)[8] != TableName(w)[8];
    var block := ls[s..BlockEnd(ls, s)];
    forall i | 0 <= i < |block| ensures !Hit(Header(block[i]), Is(w)) { assert block[i] == ls[s + i]; }
  }

  lemma {:induction false} ReplaceHeaders(ls: seq<string>, s: nat, e: nat, t: seq<string>, p: string -> bool)
    requires s < e <= |ls| && !HasHeader(ls[s..e], p) && !HasHeader(t, p)
    ensures HasHeader(ls[..s] + t + ls[e..], p) <==> HasHeader(ls, p)
  {
    assert ls == ls[..s] + ls[s..e] + ls[e..];
    HasHeaderAppend(ls[..s] + ls[s..e], ls[e..], p);
    HasHeaderAppend(ls[..s], ls[s..e], p);
    HasHeaderAppend(ls[..s] + t, ls[e..], p);
    HasHeaderAppend(ls[..s], t, p);
  }

  lemma {:induction false} EndsInReady(ls: seq<string>, v: Vendor)
    requires EndsIn(ls, v)
    ensures Ready(SealOne(ls, v))
  {
    TableFacts(v);
    var r := SealOne(ls, v);
    assert r[|r| - 1] == Table(v)[7];
  }

  /** The middle of `SwallowedLoose`: the block that swallows the blank line. */
  lemma {:induction false} SwallowedLines(ls: seq<string>, t: seq<string>)
    requires EndsIn(ls, Cursor) && t != [] && Header(t[0]).Some?
    ensures var s := Find(ls, Is(Cursor));
            SealOne(ls + t, Cursor) == ls[..s] + Table(Cursor) + t
  {
    hide Table, Header, Is;
    var s, mid := Find(ls, Is(Cursor)), ls + t;
    BlockEndHeader(ls, s);
    assert forall k | 0 <= k < |ls| :: mid[k] == ls[k];
    assert mid[|ls|] == t[0];
    BlockIs(mid, Cursor, s, |ls|);
    assert mid[..s] == ls[..s] && mid[|ls|..] == t;
  }

  /** A missing first table is appended after the unterminated blank line, and rewriting the
      second table then deletes that line. */
  lemma {:induction false} SwallowedLoose(ls: seq<string>)
    requires Loose(ls) && !Ready(ls) && !HasHeader(ls, Is(Claude)) && EndsIn(ls, Cursor)
    ensures Loose(SealLines(ls))
  {
    hide Find, BlockEnd, HasHeader, Is, IsLine, Table, Terminated, Header, Loose;
    var s := Find(ls, Is(Cursor));
    FindPrefix(ls, Is(Claude));
    assert SealOne(ls, Claude) == ls + Table(Claude);
    TableHeader(Claude);
    SwallowedLines(ls, Table(Claude));
    RewriteLoose(ls, Cursor);
    TableLoose(Claude);
    TableLoose(Cursor);
    LoosePrefix(ls, s);
    LooseAppend(ls[..s], Table(Cursor));
    LooseAppend(ls[..s] + Table(Cursor), Table(Claude));
  }

  lemma LoosePrefix(ls: seq<string>, s: nat)
    requires Loose(ls) && s <= |ls|
    ensures Loose(ls[..s])
  {
  }

  lemma {:induction false} UngluedLoose(ls: seq<string>)
    requires Loose(ls) && !Glues(ls)
    ensures Loose(SealLines(ls))
  {
    var mid := SealOne(ls, Claude);
    FindPrefix(ls, Is(Claude));
    ForeignHeader(ls, Claude, Cursor);
    if Ready(ls) {
      SealOneLoose(ls, Claude);
      SealedEndReady(ls, Claude);
      SealOneLoose(mid, Cursor);
    } else if HasHeader(ls, Is(Claude)) {
      SealOneLoose(ls, Claude);
      if !HasHeader(ls, Is(Cursor)) {
        FindPrefix(ls, Is(Cursor));
        EndsInReady(ls, Claude);
      }
      SealOneLoose(mid, Cursor);
    } else {
      SwallowedLoose(ls);
    }
  }

  /** A table glued to the blank line `w`: everything before is terminated. */
  ghost predicate GluedAt(r: seq<string>, v: Vendor, w: string, pre: seq<string>, rest: seq<string>) {
    && r == pre + [w] + Table(v) + rest
    && Loose(pre) && AllTerminated(pre) && !HasHeader(pre, Is(v))
    && Loose(rest) && AllTerminated(rest)
    && Beside(pre, rest, Other(v))
  }

  function Other(v: Vendor): Vendor { match v case Claude => Cursor case Cursor => Claude }

  /** Where the other vendor's sealed table is: in the lines before, or alone in those after. */
  ghost predicate Beside(pre: seq<string>, rest: seq<string>, u: Vendor) {
    (rest == [] && Sealed(pre, u)) || (rest == Table(u) && !HasHeader(pre, Is(u)))
  }

  lemma {:induction false} SpliceExtends(q: seq<string>, x: seq<string>, s: nat, e: nat, t: seq<string>)
    requires s <= e <= |q|
    ensures (q + x)[..s] + t + (q + x)[e..] == q[..s] + t + q[e..] + x
  {
    assert (q + x)[..s] == q[..s] && (q + x)[e..] == q[e..] + x;
  }

  /** A block that ends before the end of `q` is rewritten the same way in any extension of `q`. */
  lemma {:induction false} RewriteExtends(q: seq<string>, x: seq<string>, v: Vendor)
    requires Find(q, Is(v)) < |q| && BlockEnd(q, Find(q, Is(v))) < |q|
    ensures SealOne(q + x, v) == SealOne(q, v) + x
  {
    hide Find, BlockEnd, Header, Table;
    var ls, s := q + x, Find(q, Is(v));
    var e := BlockEnd(q, s);
    BlockEndHeader(q, s);
    assert forall i | 0 <= i < |q| :: ls[i] == q[i];
    BlockIs(ls, v, s, e);
    SpliceExtends(q, x, s, e, Table(v));
  }

  lemma {:induction false} BlockBeforeBlank(q: seq<string>, w: string, v: Vendor)
    requires IsBlank(w) && HasHeader(q + [w], Is(v)) && !EndsIn(q + [w], v)
    ensures Find(q, Is(v)) < |q| && BlockEnd(q, Find(q, Is(v))) < |q|
  {
    hide Header, Find, BlockEnd;
    var ls := q + [w];
    var s := Find(ls, Is(v));
    FindPrefix(ls, Is(v));
    BlockEndHeader(ls, s);
    BlankHeader(w);
    var e := BlockEnd(ls, s);
    assert forall i | 0 <= i < |q| :: ls[i] == q[i];
    BlockIs(q, v, s, e);
  }

  lemma {:induction false} RewriteTerminated(q: seq<string>, v: Vendor)
    requires AllTerminated(q) && Find(q, Is(v)) < |q|
    ensures AllTerminated(SealOne(q, v))
  {
    hide Find, BlockEnd, Table, Terminated, Header, IsLine;
    TableFacts(v);
    BlockEndHeader(q, Find(q, Is(v)));
    var s := Find(q, Is(v));
    SplicedTerminated(q[..s], Table(v), q[BlockEnd(q, s)..]);
  }

  lemma SplicedTerminated(a: seq<string>, b: seq<string>, c: seq<string>)
    requires AllTerminated(a) && AllTerminated(b) && AllTerminated(c)
    ensures AllTerminated(a + b + c)
  {
  }

  lemma {:induction false} AppendAfterBlank(ls: seq<string>, v: Vendor)
    requires ls != [] && IsBlank(ls[|ls| - 1]) && !HasHeader(ls, Is(v))
    ensures SealOne(ls, v) == ls + Table(v)
  {
    FindPrefix(ls, Is(v));
    assert ls + [] == ls;
  }

  lemma EndsBlank(a: seq<string>, v: Vendor)
    ensures var ls := a + Table(v); IsBlank(ls[|ls| - 1])
  {
    BlankLine();
  }

  /** Both tables missing: both are appended after the blank line. */
  lemma {:induction false} GluedBoth(q: seq<string>, w: string)
    requires Loose(q) && AllTerminated(q) && IsBlank(w)
    requires !HasHeader(q + [w], Is(Claude)) && !HasHeader(q + [w], Is(Cursor))
    ensures GluedAt(SealLines(q + [w]), Claude, w, q, Table(Cursor))
  {
    var ls := q + [w];
    AppendAfterBlank(ls, Claude);
    EndsBlank(ls, Claude);
    ForeignHeader(ls, Claude, Cursor);
    AppendAfterBlank(ls + Table(Claude), Cursor);
    HasHeaderAppend(q, [w], Is(Claude));
    HasHeaderAppend(q, [w], Is(Cursor));
    TableLoose(Cursor);
    TableFacts(Cursor);
  }

  lemma {:induction false} RewrittenPrefix(q: seq<string>, w: string, v: Vendor, u: Vendor)
    requires v != u && Loose(q) && AllTerminated(q) && IsBlank(w)
    requires HasHeader(q + [w], Is(u)) && !EndsIn(q + [w], u) && !HasHeader(q + [w], Is(v))
    ensures var pre := SealOne(q, u); Loose(pre) && AllTerminated(pre) && !HasHeader(pre, Is(v))
  {
    BlockBeforeBlank(q, w, u);
    RewriteLoose(q, u);
    RewriteTerminated(q, u);
    HasHeaderAppend(q, [w], Is(v));
    ForeignHeader(q, u, v);
  }

  /** The first table is rewritten in place, the second appended after the blank line. */
  lemma {:induction false} GluedSecond(q: seq<string>, w: string)
    requires Loose(q) && AllTerminated(q) && IsBlank(w)
    requires HasHeader(q + [w], Is(Claude)) && !EndsIn(q + [w], Claude) && !HasHeader(q + [w], Is(Cursor))
    ensures GluedAt(SealLines(q + [w]), Cursor, w, SealOne(q, Claude), [])
  {
    var ls, pre := q + [w], SealOne(q, Claude);
    RewrittenPrefix(q, w, Cursor, Claude);
    BlockBeforeBlank(q, w, Claude);
    RewriteExtends(q, [w], Claude);
    ForeignHeader(ls, Claude, Cursor);
    AppendAfterBlank(pre + [w], Cursor);
    SealOneSeals(q, Claude);
    assert pre + [w] + Table(Cursor) + [] == pre + [w] + Table(Cursor);
  }

  /** The first table is appended after the blank line, the second rewritten in place. */
  lemma {:induction false} GluedFirst(q: seq<string>, w: string)
    requires Loose(q) && AllTerminated(q) && IsBlank(w)
    requires !HasHeader(q + [w], Is(Claude)) && HasHeader(q + [w], Is(Cursor)) && !EndsIn(q + [w], Cursor)
    ensures GluedAt(SealLines(q + [w]), Claude, w, SealOne(q, Cursor), [])
  {
    RewrittenPrefix(q, w, Claude, Cursor);
    SealOneSeals(q, Cursor);
    GluedFirstLines(q, w, SealOne(q, Cursor));
  }

  lemma {:induction false} GluedFirstLines(q: seq<string>, w: string, pre: seq<string>)
    requires IsBlank(w) && !HasHeader(q + [w], Is(Claude)) && HasHeader(q + [w], Is(Cursor)) && !EndsIn(q + [w], Cursor)
    requires pre == SealOne(q, Cursor)
    ensures SealLines(q + [w]) == pre + [w] + Table(Claude) + []
  {
    var x := [w] + Table(Claude);
    AppendAfterBlank(q + [w], Claude);
    Regroup(q, w, Table(Claude));
    BlockBeforeBlank(q, w, Cursor);
    RewriteExtends(q, x, Cursor);
    Regroup(pre, w, Table(Claude));
  }

  lemma Regroup(a: seq<string>, w: string, t: seq<string>)
    ensures a + ([w] + t) == a + [w] + t == a + [w] + t + []
  {
  }

  lemma {:induction false} GluedShape(q: seq<string>, w: string) returns (v: Vendor, pre: seq<string>, rest: seq<string>)
    requires Loose(q) && AllTerminated(q) && IsBlank(w) && Glues(q + [w])
    ensures GluedAt(SealLines(q + [w]), v, w, pre, rest)
    ensures Sweep(pre, IsCompat) == Sweep(q, IsCompat)
  {
    if HasHeader(q + [w], Is(Claude)) {
      GluedSecond(q, w);
      BlockBeforeBlank(q, w, Claude);
      RewriteKeeps(q, Claude);
      v, pre, rest := Cursor, SealOne(q, Claude), [];
    } else if HasHeader(q + [w], Is(Cursor)) {
      GluedFirst(q, w);
      BlockBeforeBlank(q, w, Cursor);
      RewriteKeeps(q, Cursor);
      v, pre, rest := Claude, SealOne(q, Cursor), [];
    } else {
      GluedBoth(q, w);
      v, pre, rest := Claude, q, Table(Cursor);
    }
  }

  lemma {:induction false} GluedJoin(pre: seq<string>, w: string, t: seq<string>, rest: seq<string>)
    requires t != []
    ensures Join(pre + [w] + t + rest) == Join(pre + [w + t[0]] + t[1..] + rest)
  {
    hide Join;
    var tail := t[1..] + rest;
    assert pre + [w] + t + rest == (pre + [w] + [t[0]]) + tail;
    assert pre + [w + t[0]] + t[1..] + rest == (pre + [w + t[0]]) + tail;
    Assoc(Join(pre), w, t[0]);
    JoinAppend(pre + [w] + [t[0]], tail);
    JoinAppend(pre + [w + t[0]], tail);
    JoinEnd(pre + [w], t[0]);
    JoinEnd(pre, w);
    JoinEnd(pre, w + t[0]);
  }

  /** The lines of a glued text: the header keeps the blank line as its indentation. */
  lemma {:induction false} GluedLines(pre: seq<string>, w: string, t: seq<string>, rest: seq<string>)
    requires IsLine(w) && !Terminated(w) && t != [] && Loose(t) && AllTerminated(t)
    requires Loose(pre) && AllTerminated(pre) && Loose(rest) && AllTerminated(rest)
    ensures Split(Join(pre + [w] + t + rest)) == pre + [w + t[0]] + t[1..] + rest
    ensures Closed(Join(pre + [w] + t + rest))
  {
    hide Join, Split, IsLine, Terminated;
    var s := pre + [w + t[0]] + t[1..] + rest;
    GluedLineIs(w, t[0]);
    GluedJoin(pre, w, t, rest);
    AllWhole(pre, [w + t[0]]);
    AllWhole(pre + [w + t[0]], t[1..]);
    AllWhole(pre + [w + t[0]] + t[1..], rest);
    SplitJoin(s);
    JoinClosed(s);
  }

  /** Only complete lines. */
  predicate Whole(ls: seq<string>) { forall i | 0 <= i < |ls| :: IsLine(ls[i]) && Terminated(ls[i]) }

  lemma AllWhole(a: seq<string>, b: seq<string>)
    requires Whole(a) && Whole(b)
    ensures Whole(a + b)
  {
    hide IsLine, Terminated;
  }

  lemma {:induction false} GluedLineIs(w: string, l: string)
    requires IsLine(w) && !Terminated(w) && IsLine(l) && Terminated(l)
    ensures IsLine(w + l) && Terminated(w + l)
  {
    var g := w + l;
    assert forall i | 0 <= i < |w| - 1 :: w[i] == w[..|w| - 1][i];
    assert forall i | 0 <= i < |l| - 1 :: l[i] == l[..|l| - 1][i];
    assert forall i | 0 <= i < |g| - 1 :: g[i] != '\n';
  }

  lemma TableTerminated(v: Vendor)
    ensures AllTerminated(Table(v))
  {
    TableFacts(v);
  }

  lemma {:induction false} BlankHeader(w: string)
    requires IsBlank(w)
    ensures Header(w) == None
  {
    StripBlank(w);
  }

  lemma {:induction false} StripBlank(w: string)
    requires IsBlank(w)
    ensures StripRight(w) == ""
  {
    if w != "" { StripBlank(w[..|w| - 1]); }
  }

  lemma {:induction false} StripIndent(w: string, x: string)
    requires IsBlank(w)
    ensures StripLeft(w + x) == StripLeft(x)
  {
    if w == "" {
      assert w + x == x;
    } else {
      StripIndent(w[1..], x);
      assert (w + x)[1..] == w[1..] + x;
    }
  }

  lemma StripRightEnd(s: string)
    requires s != "" && !IsSpace(s[|s| - 1])
    ensures StripRight(s + "\n") == s
  {
    assert (s + "\n")[..|s|] == s;
  }

  lemma {:induction false} HeaderIgnoresIndent(w: string, x: string)
    requires IsBlank(w) && IsDottedName(x)
    ensures Header(w + ("[" + x + "]\n")) == Some(x)
  {
    hide NoBrackets, StripLeft, StripRight;
    var t := "[" + x + "]";
    HeaderOf(x);
    assert "[" + x + "]\n" == t + "\n" && w + ("[" + x + "]\n") == (w + t) + "\n";
    StripRightEnd(w + t);
    StripRightEnd(t);
    StripIndent(w, t);
  }
}
