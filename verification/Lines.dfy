/** `splitlines(keepends=True)` and `"".join` on newline-separated text. */
module Lines {
  import opened Common

  predicate IsSpace(c: char) { c == ' ' || ('\t' <= c <= '\r') }

  predicate IsBlank(s: string) { forall i | 0 <= i < |s| :: IsSpace(s[i]) }

  function StripLeft(s: string): string { if s != "" && IsSpace(s[0]) then StripLeft(s[1..]) else s }

  function StripRight(s: string): string {
    if s != "" && IsSpace(s[|s| - 1]) then StripRight(s[..|s| - 1]) else s
  }

  function Strip(s: string): string { StripLeft(StripRight(s)) }

  /** Length of the first line of a non-empty text, its newline included. */
  function FirstLine(t: string): (k: nat)
    requires t != ""
    ensures 1 <= k <= |t|
    ensures '\n' !in t[..k - 1]
    ensures k < |t| ==> t[k - 1] == '\n'
  {
    if t[0] == '\n' || |t| == 1 then 1
    else
      var k := FirstLine(t[1..]);
      assert t[..k] == [t[0]] + t[1..][..k - 1];
      1 + k
  }

  function Split(t: string): seq<string>
    decreases |t|
  {
    if t == "" then [] else [t[..FirstLine(t)]] + Split(t[FirstLine(t)..])
  }

  function Join(ls: seq<string>): string {
    if ls == [] then "" else ls[0] + Join(ls[1..])
  }

  predicate Terminated(l: string) { l != "" && l[|l| - 1] == '\n' }

  predicate IsLine(l: string) { l != "" && '\n' !in l[..|l| - 1] }

  /** What splitting produces: non-empty lines, a newline only at the end of each, and only the
      last one possibly unterminated. */
  predicate WellFormed(ls: seq<string>) {
    && (forall i | 0 <= i < |ls| :: IsLine(ls[i]))
    && (forall i | 0 <= i < |ls| - 1 :: Terminated(ls[i]))
  }

  /** Text after which a new line starts. */
  predicate Closed(t: string) { t == "" || Terminated(t) }

  lemma {:induction false} JoinSplit(t: string)
    ensures Join(Split(t)) == t
    decreases |t|
  {
    hide FirstLine, Join;
    if t == "" {
      JoinNone();
    } else {
      var k := FirstLine(t);
      JoinSplit(t[k..]);
      JoinFirst(t[..k], Split(t[k..]));
      assert t == t[..k] + t[k..];
    }
  }

  lemma JoinNone()
    ensures Join([]) == ""
  {
  }

  lemma JoinFirst(l: string, rest: seq<string>)
    ensures Join([l] + rest) == l + Join(rest)
  {
    assert ([l] + rest)[1..] == rest;
  }

  lemma {:induction false} SplitWellFormed(t: string)
    ensures WellFormed(Split(t))
    ensures t != "" ==> Split(t) != []
    decreases |t|
  {
    hide FirstLine, WellFormed, IsLine, Terminated;
    if t == "" {
      NoLines();
    } else {
      var k := FirstLine(t);
      SplitWellFormed(t[k..]);
      FirstLineIsLine(t, k);
      WellFormedFirst(t[..k], Split(t[k..]));
    }
  }

  lemma NoLines()
    ensures WellFormed([])
  {
  }

  lemma FirstLineIsLine(t: string, k: nat)
    requires t != "" && k == FirstLine(t)
    ensures IsLine(t[..k]) && (t[k..] != "" ==> Terminated(t[..k]))
  {
    assert t[..k][..k - 1] == t[..k - 1];
  }

  lemma WellFormedFirst(l: string, rest: seq<string>)
    requires IsLine(l) && WellFormed(rest) && (rest != [] ==> Terminated(l))
    ensures WellFormed([l] + rest)
  {
  }

  lemma {:induction false} FirstLineIs(l: string, rest: string)
    requires IsLine(l) && (rest == "" || Terminated(l))
    ensures FirstLine(l + rest) == |l|
  {
    var t := l + rest;
    var k := FirstLine(t);
    assert forall i | 0 <= i < |l| - 1 :: t[i] == l[..|l| - 1][i];
    assert forall i | 0 <= i < k - 1 :: t[i] == t[..k - 1][i];
    assert t[|l| - 1] == l[|l| - 1];
  }

  lemma {:induction false} SplitJoin(ls: seq<string>)
    requires WellFormed(ls)
    ensures Split(Join(ls)) == ls
  {
    hide FirstLine;
    if ls != [] {
      var rest := Join(ls[1..]);
      SplitJoin(ls[1..]);
      FirstLineIs(ls[0], rest);
      assert Join(ls) == ls[0] + rest;
      assert (ls[0] + rest)[..|ls[0]|] == ls[0] && (ls[0] + rest)[|ls[0]|..] == rest;
      assert ls == [ls[0]] + ls[1..];
    }
  }

  lemma {:induction false} OneLine(l: string)
    requires IsLine(l)
    ensures Split(l) == [l]
  {
    SplitJoin([l]);
    JoinFirst(l, []);
    assert [l] + [] == [l] && l + Join([]) == l;
  }

  lemma {:induction false} JoinAppend(a: seq<string>, b: seq<string>)
    ensures Join(a + b) == Join(a) + Join(b)
  {
    if a == [] {
      assert a + b == b && Join(a) == "";
    } else {
      JoinAppend(a[1..], b);
      assert (a + b)[0] == a[0] && (a + b)[1..] == a[1..] + b;
      Assoc(a[0], Join(a[1..]), Join(b));
    }
  }

  lemma {:induction false} JoinClosed(ls: seq<string>)
    requires WellFormed(ls) && (ls == [] || Terminated(ls[|ls| - 1]))
    ensures Closed(Join(ls))
  {
    if ls != [] {
      if |ls| == 1 {
        assert ls[1..] == [];
      }
      JoinClosed(ls[1..]);
    }
  }

  lemma {:induction false} ClosedSplit(t: string)
    requires Closed(t)
    ensures Split(t) == [] || Terminated(Split(t)[|Split(t)| - 1])
    decreases |t|
  {
    if t != "" {
      var k := FirstLine(t);
      if k < |t| {
        ClosedSplit(t[k..]);
        SplitWellFormed(t[k..]);
      } else {
        assert Split(t[k..]) == [];
        assert t[..k] == t;
      }
    }
  }

  /** Splitting distributes over text that ends a line. */
  lemma {:induction false} SplitAppend(a: string, b: string)
    requires Closed(a)
    ensures Split(a + b) == Split(a) + Split(b)
  {
    hide Split, Join, FirstLine;
    ClosedSplit(a);
    SplitWellFormed(a);
    SplitWellFormed(b);
    JoinSplit(a);
    JoinSplit(b);
    JoinAppend(Split(a), Split(b));
    SplitJoin(Split(a) + Split(b));
  }
}
