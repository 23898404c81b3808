/** Sealing never introduces a second table of one name (a parse error in TOML): how many headers a
    sealed text has for each vendor. */
module SealCounts {
  import opened Common
  import opened Lines
  import opened Toml
  import opened Seal
  import opened SealLaws
  import opened SealTheorems

  function One(l: string, p: string -> bool): nat { if Hit(Header(l), p) then 1 else 0 }

  /** How many lines are headers that satisfy `p`. */
  function Headers(ls: seq<string>, p: string -> bool): nat {
    if ls == [] then 0 else Headers(ls[..|ls| - 1], p) + One(ls[|ls| - 1], p)
  }

  lemma {:induction false} HeadersAppend(a: seq<string>, b: seq<string>, p: string -> bool)
    ensures Headers(a + b, p) == Headers(a, p) + Headers(b, p)
  {
    if b == [] {
      assert a + b == a;
    } else {
      HeadersAppend(a, b[..|b| - 1], p);
      assert (a + b)[..|a + b| - 1] == a + b[..|b| - 1];
    }
  }

  lemma {:induction false} HeadersNone(ls: seq<string>, p: string -> bool)
    ensures Headers(ls, p) == 0 <==> !HasHeader(ls, p)
  {
    if ls != [] {
      HeadersNone(ls[..|ls| - 1], p);
      HasHeaderSplit(ls, p);
    }
  }

  lemma {:induction false} HeadersFirst(ls: seq<string>, p: string -> bool)
    requires ls != [] && forall i | 0 < i < |ls| :: Header(ls[i]).None?
    ensures Headers(ls, p) == One(ls[0], p)
  {
    if |ls| > 1 {
      HeadersFirst(ls[..|ls| - 1], p);
    } else {
      assert ls[..0] == [];
    }
  }

  lemma NamesDiffer(v: Vendor, w: Vendor)
    ensures TableName(v) == TableName(w) <==> v == w
  {
    assert TableName(Claude)[8] != TableName(Cursor)[8];
  }

  lemma TableHeaders(v: Vendor, w: Vendor)
    ensures Headers(Table(v), Is(w)) == if v == w then 1 else 0
  {
    TableFacts(v);
    HeadersFirst(Table(v), Is(w));
    NamesDiffer(v, w);
  }

  lemma {:induction false} ReplaceHeaderCount(ls: seq<string>, s: nat, e: nat, t: seq<string>, p: string -> bool)
    requires s <= e <= |ls|
    ensures Headers(ls[..s] + t + ls[e..], p) + Headers(ls[s..e], p) == Headers(ls, p) + Headers(t, p)
  {
    assert ls == ls[..s] + ls[s..e] + ls[e..];
    HeadersAppend(ls[..s] + ls[s..e], ls[e..], p);
    HeadersAppend(ls[..s], ls[s..e], p);
    HeadersAppend(ls[..s] + t, ls[e..], p);
    HeadersAppend(ls[..s], t, p);
  }

  lemma {:induction false} AppendHeaderCount(ls: seq<string>, t: seq<string>, p: string -> bool)
    ensures Headers(ls + Separator(ls) + t, p) == Headers(ls, p) + Headers(t, p)
  {
    SeparatorHeaders(ls, p);
    HeadersNone(Separator(ls), p);
    HeadersAppend(ls, Separator(ls), p);
    HeadersAppend(ls + Separator(ls), t, p);
  }

  /** The block a vendor's first header opens holds that header only. */
  lemma {:induction false} BlockHeaders(ls: seq<string>, v: Vendor, w: Vendor)
    requires Find(ls, Is(v)) < |ls|
    ensures var s := Find(ls, Is(v));
            s < BlockEnd(ls, s) <= |ls| && Headers(ls[s..BlockEnd(ls, s)], Is(w)) == if v == w then 1 else 0
  {
    hide Find, BlockEnd, Headers, Header;
    var s := Find(ls, Is(v));
    BlockEndHeader(ls, s);
    var block := ls[s..BlockEnd(ls, s)];
    assert forall i | 0 < i < |block| :: block[i] == ls[s + i];
    HeadersFirst(block, Is(w));
    NamesDiffer(v, w);
  }

  /** Sealing one vendor leaves it with at least one table, and no table more otherwise. */
  lemma {:induction false} SealOneHeaders(ls: seq<string>, v: Vendor, w: Vendor)
    ensures Headers(SealOne(ls, v), Is(w)) == if v == w then Max(1, Headers(ls, Is(w))) else Headers(ls, Is(w))
  {
    var s := Find(ls, Is(v));
    FindPrefix(ls, Is(v));
    HeadersNone(ls, Is(v));
    TableHeaders(v, w);
    if s == |ls| {
      AppendHeaderCount(ls, Table(v), Is(w));
    } else {
      BlockHeaders(ls, v, w);
      ReplaceHeaderCount(ls, s, BlockEnd(ls, s), Table(v), Is(w));
      HeadersPositive(ls, Is(v), s);
    }
  }

  lemma HeadersPositive(ls: seq<string>, p: string -> bool, i: nat)
    requires i < |ls| && Hit(Header(ls[i]), p)
    ensures Headers(ls, p) >= 1
  {
    HeadersNone(ls, p);
  }

  lemma MendedHeader(l: string, p: string -> bool)
    ensures One(l + "\n", p) == One(l, p) && One("\n", p) == 0
  {
    HeaderIgnoresTerminator(l);
    BlankLine();
  }

  lemma HeadersLast(ls: seq<string>, l: string, p: string -> bool)
    ensures Headers(ls + [l], p) == Headers(ls, p) + One(l, p)
  {
    assert (ls + [l])[..|ls|] == ls;
  }

  lemma GlueHeaderCount(m: seq<string>, l: string, p: string -> bool)
    ensures Headers(Glue(m, l), p) == Headers(m, p) + One(l, p)
  {
    hide Headers, One;
    HeadersLast(m, l, p);
    if Glue(m, l) != m + [l] {
      var init, last := m[..|m| - 1], m[|m| - 1];
      InitLast(m);
      HeadersLast(init, last, p);
      HeadersLast(init, last + "\n", p);
      MendedHeader(last, p);
    }
  }

  ghost function Counting(p: string -> bool): seq<string> -> nat { r => Headers(r, p) }

  lemma CountingBlind(p: string -> bool)
    ensures Blind(Counting(p))
  {
    hide Headers, One, Glue;
    var f := Counting(p);
    forall m: seq<string>, l: string ensures f(Glue(m, l)) == f(m + [l]) {
      GlueHeaderCount(m, l, p);
      HeadersLast(m, l, p);
    }
    forall a: seq<string>, b: seq<string>, l: string | f(a) == f(b) ensures f(a + [l]) == f(b + [l]) {
      HeadersLast(a, l, p);
      HeadersLast(b, l, p);
    }
  }

  /** A header glued to a blank line is still that header. */
  lemma {:induction false} GluedHeaderCount(r: seq<string>, v: Vendor, w: string, pre: seq<string>, rest: seq<string>, p: string -> bool)
    requires IsLine(w) && IsBlank(w) && !Terminated(w) && GluedAt(r, v, w, pre, rest)
    ensures Headers(Split(Join(r)), p) == Headers(r, p)
  {
    var t := Table(v);
    TableLoose(v);
    TableTerminated(v);
    TableFacts(v);
    GluedLines(pre, w, t, rest);
    TableNames(v);
    HeaderIgnoresIndent(w, TableName(v));
    BlankHeader(w);
    HeadersAppend(pre + [w] + t, rest, p);
    HeadersAppend(pre + [w], t, p);
    HeadersAppend(pre, [w], p);
    HeadersAppend(pre + [w + t[0]] + t[1..], rest, p);
    HeadersAppend(pre + [w + t[0]], t[1..], p);
    HeadersAppend(pre, [w + t[0]], p);
    HeadersAppend([t[0]], t[1..], p);
    assert t == [t[0]] + t[1..];
    HeadersFirst([w], p);
    HeadersFirst([t[0]], p);
    HeadersFirst([w + t[0]], p);
  }

  lemma {:induction false} SealedTextHeaders(t: string, p: string -> bool)
    ensures Headers(Split(SealText(t)), p) == Headers(SealLines(Split(t)), p)
  {
    var ls := Split(t);
    SplitIsLoose(t);
    if Glues(ls) {
      var q, w := ls[..|ls| - 1], ls[|ls| - 1];
      SplitWellFormed(t);
      assert ls == q + [w];
      var v, pre, rest := GluedShape(q, w);
      GluedHeaderCount(SealLines(ls), v, w, pre, rest, p);
    } else {
      UngluedLoose(ls);
      SplitLoose(SealLines(ls));
      CountingBlind(p);
      MergeUnseen(SealLines(ls), Counting(p));
    }
  }

  /** On every text: a vendor without a table gets one, and no vendor gets a second one. So a text
      with at most one table of each vendor comes out with exactly one of each. */
  lemma {:induction false} OneTablePerVendor(t: string, v: Vendor)
    ensures Headers(Split(SealText(t)), Is(v)) == Max(1, Headers(Split(t), Is(v)))
  {
    var ls := Split(t);
    SealedTextHeaders(t, Is(v));
    SealOneHeaders(ls, Claude, v);
    SealOneHeaders(SealOne(ls, Claude), Cursor, v);
  }
}
