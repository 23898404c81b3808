/** What `_seal_config_text` of `interstellar/harness.py` promises on every text, and what running it
    again does. The one untidy family is made precise: a text that ends in an unterminated blank line
    where a table has to be appended, so that the table's header is glued to that line. */
module SealRuns {
  import opened Common
  import opened Lines
  import opened Toml
  import opened Seal
  import opened SealLaws
  import opened SealTheorems

  // --- all six cells ------------------------------------------------------------------------------

  /** The vendor's first table sets every cell to false. */
  ghost predicate CellsFalse(ls: seq<string>, v: Vendor) {
    var s := Find(ls, Is(v));
    && s < |ls| && s < BlockEnd(ls, s) <= |ls|
    && var cells := Settings(ls[s + 1..BlockEnd(ls, s)]);
       forall i | 0 <= i < |CELLS| :: CELLS[i] in cells && !cells[CELLS[i]]
  }

  /** A table is reported as already sealed exactly when all its cells are false. */
  lemma {:induction false} NoteMeansFalse(ls: seq<string>, v: Vendor)
    ensures NoteOne(ls, v) == AlreadySealed <==> CellsFalse(ls, v)
  {
    hide Find, BlockEnd, Settings, Overridden, Header;
    var s := Find(ls, Is(v));
    if s < |ls| {
      BlockEndHeader(ls, s);
      OverriddenNone(Settings(ls[s + 1..BlockEnd(ls, s)]), |CELLS|);
    }
  }

  // --- a table with an indented header ----------------------------------------------------------------

  /** The vendor's table with `h` in place of its header line. */
  function Headed(h: string, v: Vendor): seq<string> { [h] + Table(v)[1..] }

  lemma HeadedTable(v: Vendor)
    ensures Headed(HeaderLine(v), v) == Table(v)
  {
  }

  lemma {:induction false} HeadedFacts(h: string, v: Vendor)
    requires Header(h) == Some(TableName(v))
    ensures |Headed(h, v)| == 8 && Headed(h, v)[0] == h && Headed(h, v)[1..] == Table(v)[1..]
    ensures forall i | 0 < i < 8 :: Header(Headed(h, v)[i]) == None
    ensures !HasHeader(Headed(h, v), Is(Other(v)))
  {
    hide Header, Table;
    TableFacts(v);
    forall i | 0 < i < 8 ensures Header(Headed(h, v)[i]) == None { assert Headed(h, v)[i] == Table(v)[i]; }
    assert TableName(v)[8] != TableName(Other(v))[8];
  }

  /** Such a table is found, reported as sealed, and rewritten with its own header line. */
  lemma {:induction false} HeadedSealed(h: string, v: Vendor, pre: seq<string>, rest: seq<string>)
    requires Header(h) == Some(TableName(v)) && !HasHeader(pre, Is(v)) && (rest == [] || Header(rest[0]).Some?)
    ensures var ls := pre + Headed(h, v) + rest;
            NoteOne(ls, v) == AlreadySealed && SealOne(ls, v) == pre + Table(v) + rest
  {
    hide Header, Headed, Find, BlockEnd, Settings, Overridden, Table;
    var t := Headed(h, v);
    var ls, n := pre + t + rest, |pre|;
    HeadedFacts(h, v);
    assert forall k | 0 <= k < n :: ls[k] == pre[k];
    assert forall k | 0 <= k < 8 :: ls[n + k] == t[k];
    forall k | n + 1 <= k < n + 8 ensures !Hit(Header(ls[k]), Any()) { assert ls[n + (k - n)] == t[k - n]; }
    assert ls[n + 0] == h;
    assert rest != [] ==> ls[n + 8] == rest[0];
    BlockIs(ls, v, n, n + 8);
    Parts(pre, t, rest);
    TableOverridesNothing(v);
  }

  lemma SealedExtends(pre: seq<string>, x: seq<string>, u: Vendor)
    requires Sealed(pre, u) && x != [] && Header(x[0]).Some?
    ensures Sealed(pre + x, u)
  {
    hide Header, Table, HasHeader;
    var a, b :| SealedAt(pre, u, a, b);
    Assoc(a + Table(u), b, x);
    assert (b + x)[0] == if b == [] then x[0] else b[0];
    assert SealedAt(pre + x, u, a, b + x);
  }

  /** The other vendor's table stays sealed beside it. */
  lemma {:induction false} BesideSealed(h: string, v: Vendor, pre: seq<string>, rest: seq<string>)
    requires Header(h) == Some(TableName(v)) && Beside(pre, rest, Other(v))
    ensures Sealed(pre + Headed(h, v) + rest, Other(v))
  {
    hide Header, Headed, Table, HasHeader;
    var t, u := Headed(h, v), Other(v);
    HeadedFacts(h, v);
    if rest == [] {
      SealedExtends(pre, t, u);
      assert pre + t + [] == pre + t;
    } else {
      HasHeaderAppend(pre, t, Is(u));
      assert pre + t + rest == (pre + t) + Table(u) + [];
      assert SealedAt(pre + t + rest, u, pre + t, []);
    }
  }

  // --- the second run on a glued text -------------------------------------------------------------------

  lemma RestFirst(pre: seq<string>, rest: seq<string>, u: Vendor)
    requires Beside(pre, rest, u)
    ensures rest == [] || Header(rest[0]).Some?
  {
    if rest != [] { TableHeader(u); }
  }

  /** Sealing the lines of a glued text again takes the indentation off the header, and nothing else;
      a third run changes nothing. */
  lemma {:induction false} Unglued(h: string, v: Vendor, pre: seq<string>, rest: seq<string>)
    requires Header(h) == Some(TableName(v)) && !HasHeader(pre, Is(v)) && Beside(pre, rest, Other(v))
    ensures var ls, mended := pre + Headed(h, v) + rest, pre + Table(v) + rest;
            && SealLines(ls) == mended && SealLines(mended) == mended
            && NoteOne(ls, Claude) == AlreadySealed && NoteOne(ls, Cursor) == AlreadySealed
            && NoteOne(SealOne(ls, Claude), Cursor) == AlreadySealed
  {
    hide Header, Headed, Table, HasHeader, Sealed, Beside, SealOne, NoteOne;
    var ls, mended := pre + Headed(h, v) + rest, pre + Table(v) + rest;
    RestFirst(pre, rest, Other(v));
    HeadedSealed(h, v, pre, rest);
    BesideSealed(h, v, pre, rest);
    SealedFixed(ls, Other(v));
    TableHeader(v);
    FirstIsHeader(v);
    HeadedTable(v);
    HeadedSealed(HeaderLine(v), v, pre, rest);
    BesideSealed(HeaderLine(v), v, pre, rest);
    SealedFixed(mended, Other(v));
  }

  lemma FirstIsHeader(v: Vendor)
    ensures Table(v)[0] == HeaderLine(v)
  {
  }

  /** The lines of a glued text after one run and after two. */
  lemma {:induction false} GluedRuns(t: string)
      returns (q: seq<string>, w: string, v: Vendor, pre: seq<string>, rest: seq<string>)
    requires Glues(Split(t))
    ensures Split(t) == q + [w] && IsBlank(w) && w != ""
    ensures Header(w + HeaderLine(v)) == Some(TableName(v)) && !HasHeader(pre, Is(v)) && Beside(pre, rest, Other(v))
    ensures Sweep(pre, IsCompat) == Sweep(q, IsCompat)
    ensures Split(SealText(t)) == pre + Headed(w + HeaderLine(v), v) + rest
    ensures Split(Join(pre + Table(v) + rest)) == pre + Table(v) + rest
  {
    hide Join, Split, Header, Find, Table, HasHeader, Beside, Sweep;
    var ls := Split(t);
    q, w := ls[..|ls| - 1], ls[|ls| - 1];
    SplitWellFormed(t);
    InitLast(ls);
    v, pre, rest := GluedShape(q, w);
    TableLoose(v);
    TableTerminated(v);
    GluedLines(pre, w, Table(v), rest);
    FirstIsHeader(v);
    Assoc(pre, [w + HeaderLine(v)], Table(v)[1..]);
    TableNames(v);
    HeaderIgnoresIndent(w, TableName(v));
    WholeLines(pre, Table(v), rest);
  }

  lemma WholeLines(a: seq<string>, b: seq<string>, c: seq<string>)
    requires Loose(a) && AllTerminated(a) && Loose(b) && AllTerminated(b) && Loose(c) && AllTerminated(c)
    ensures Split(Join(a + b + c)) == a + b + c
  {
    hide Join, Split, IsLine, Terminated;
    AllWhole(a, b);
    AllWhole(a + b, c);
    SplitJoin(a + b + c);
  }

  // --- what holds of every text ---------------------------------------------------------------------------

  /** After sealing any text, both vendors' tables have all six cells false, a second run reports both
      as already sealed, and from the second run on nothing changes. */
  lemma {:induction false} SealHolds(t: string)
    ensures CellsFalse(Split(SealText(t)), Claude) && CellsFalse(Split(SealText(t)), Cursor)
    ensures SealNotes(SealText(t)) == [AlreadySealed, AlreadySealed]
    ensures SealText(SealText(SealText(t))) == SealText(SealText(t))
  {
    hide CellsFalse, Split, Join, SealOne, SealLines, NoteOne, Sealed, Glues, Header, Table, HasHeader, Beside, Headed;
    var r := Split(SealText(t));
    NoteMeansFalse(r, Claude);
    NoteMeansFalse(r, Cursor);
    if Glues(Split(t)) {
      var q, w, v, pre, rest := GluedRuns(t);
      Unglued(w + HeaderLine(v), v, pre, rest);
    } else {
      SplitIsLoose(t);
      UngluedLoose(Split(t));
      LooseResultIsFixed(t);
      SealedFixed(r, Claude);
      SealedFixed(r, Cursor);
    }
  }

  /** Two lists that differ in the indentation of one table's header. */
  ghost predicate Unindents(before: seq<string>, after: seq<string>, w: string, v: Vendor, n: nat) {
    n < |before| && before[n] == w + HeaderLine(v) && after == before[n := HeaderLine(v)]
  }

  lemma Swapped<T>(a: seq<T>, x: T, y: T, b: seq<T>, c: seq<T>)
    ensures var ls := a + ([x] + b) + c; |ls| > |a| && ls[|a|] == x && a + ([y] + b) + c == ls[|a| := y]
  {
  }

  lemma HeadedDiffers(h: string, v: Vendor, pre: seq<string>, rest: seq<string>)
    ensures var ls := pre + Headed(h, v) + rest;
            |ls| > |pre| && ls[|pre|] == h && pre + Table(v) + rest == ls[|pre| := HeaderLine(v)]
  {
    hide Table, HeaderLine;
    FirstIsHeader(v);
    var tail := Table(v)[1..];
    assert Table(v) == [HeaderLine(v)] + tail;
    Swapped(pre, h, HeaderLine(v), tail, rest);
  }

  /** On a glued text the second run takes the text's last blank line off the header it was glued to,
      and does nothing else. */
  lemma {:induction false} SecondRunUnindents(t: string)
    requires Glues(Split(t))
    ensures Split(t) != []
    ensures var w := Split(t)[|Split(t)| - 1];
            IsBlank(w) && w != "" && exists v, n :: Unindents(Split(SealText(t)), Split(SealText(SealText(t))), w, v, n)
  {
    hide Split, Join, SealOne, SealLines, NoteOne, Sealed, Glues, Header, Table, HasHeader, Beside, Headed, IsBlank, HeaderLine;
    var q, w, v, pre, rest := GluedRuns(t);
    Unglued(w + HeaderLine(v), v, pre, rest);
    HeadedDiffers(w + HeaderLine(v), v, pre, rest);
    assert Unindents(Split(SealText(t)), Split(SealText(SealText(t))), w, v, |pre|);
  }

  /** Sealing is idempotent on the text exactly where no appended header is glued to an unterminated
      blank line; there both tables consist of exactly the sealed lines. */
  lemma {:induction false} IdempotentExactly(t: string)
    ensures SealText(SealText(t)) == SealText(t) <==> !Glues(Split(t))
    ensures !Glues(Split(t)) ==> Sealed(Split(SealText(t)), Claude) && Sealed(Split(SealText(t)), Cursor)
  {
    hide Split, Join, SealLines, Sealed, Glues, HeaderLine;
    if Glues(Split(t)) {
      SecondRunUnindents(t);
      var w := Split(t)[|Split(t)| - 1];
      var v, n :| Unindents(Split(SealText(t)), Split(SealText(SealText(t))), w, v, n);
      assert |w + HeaderLine(v)| > |HeaderLine(v)|;
    } else {
      SplitIsLoose(t);
      UngluedLoose(Split(t));
      LooseResultIsFixed(t);
    }
  }

  // --- everything outside the tables ------------------------------------------------------------------------

  lemma {:induction false} HeadedSwept(h: string, v: Vendor, pre: seq<string>, rest: seq<string>)
    requires Header(h) == Some(TableName(v)) && Beside(pre, rest, Other(v))
    ensures Sweep(pre + Headed(h, v) + rest, IsCompat) == Sweep(pre, IsCompat)
  {
    hide Header, Headed, Table, HasHeader, Sweep, Sealed;
    var t := Headed(h, v);
    HeadedFacts(h, v);
    RestFirst(pre, rest, Other(v));
    CompatName(v);
    SweepBlock(t, IsCompat);
    SweepMiddle(pre, t, rest, IsCompat);
    if rest != [] {
      TableFacts(Other(v));
      CompatName(Other(v));
    }
    SweepBlock(rest, IsCompat);
    assert Sweep(pre, IsCompat) + [] == Sweep(pre, IsCompat);
  }

  lemma SweepLast(q: seq<string>, w: string)
    ensures Sweep(q + [w], IsCompat) == Sweep(q, IsCompat) + if Hit(Owner(q + [w]), IsCompat) then [] else [w]
  {
    assert (q + [w])[..|q|] == q;
  }

  /** The text outside the compat tables stays, in order: a newline may be added after it, and a glued
      text loses its last blank line, which has become the indentation of a header. */
  lemma {:induction false} RestKept(t: string)
    ensures var r, ls := SealText(t), Split(t);
            if Glues(ls) then Outside(t) == Outside(r) + if Hit(Owner(ls), IsCompat) then "" else ls[|ls| - 1]
            else Outside(r) == Outside(t) || Outside(r) == Outside(t) + "\n"
  {
    hide Split, Join, SealLines, Sealed, Glues, Header, Owner, Hit, Sweep, Headed, HasHeader, Beside;
    if Glues(Split(t)) {
      var q, w, v, pre, rest := GluedRuns(t);
      HeadedSwept(w + HeaderLine(v), v, pre, rest);
      SweepLast(q, w);
      JoinEnd(Sweep(q, IsCompat), w);
      assert Sweep(q, IsCompat) + [] == Sweep(q, IsCompat);
      assert Outside(t) == Join(Sweep(q + [w], IsCompat));
      assert Outside(SealText(t)) == Join(Sweep(q, IsCompat));
    } else {
      SplitIsLoose(t);
      UngluedLoose(Split(t));
      TextKept(t);
    }
  }

  // --- a text that fails --------------------------------------------------------------------------------------

  lemma {:induction false} OneBlank()
    ensures Split(" ") == [" "] && Header(" ") == None
  {
    OneLine(" ");
    BlankHeader(" ");
  }

  /** A text of one unterminated blank: the header is glued to it, and the second run, which reports
      both tables as already sealed, still takes it off. */
  lemma {:induction false} BlankTextUnindented()
    ensures SealText(SealText(" ")) != SealText(" ")
    ensures SealNotes(SealText(" ")) == [AlreadySealed, AlreadySealed]
  {
    OneBlank();
    assert Glues([" "]);
    IdempotentExactly(" ");
    SealHolds(" ");
  }
}
