/** TOML table headers as `interstellar/harness.py` recognises them, and which lines a header owns. */
module Toml {
  import opened Common
  import opened Ranges
  import opened Lines

  predicate NoBrackets(s: string) { forall i | 0 <= i < |s| :: s[i] != '[' && s[i] != ']' }

  /** The stripped name in `[name]` or `[[name]]`, alone on its line. */
  function Header(line: string): Option<string> {
    var t := Strip(line);
    if |t| < 3 || t[0] != '[' || t[|t| - 1] != ']' then None
    else
      var i, j := if t[1] == '[' then 2 else 1, if t[|t| - 2] == ']' then 2 else 1;
      if i + j >= |t| then None
      else
        var inner := t[i..|t| - j];
        if NoBrackets(inner) then Some(Strip(inner)) else None
  }

  lemma HeaderIgnoresTerminator(line: string)
    ensures Header(line + "\n") == Header(line)
  {
    assert (line + "\n")[..|line|] == line;
    assert StripRight(line + "\n") == StripRight(line);
  }

  lemma {:induction false} HeaderOf(x: string)
    requires x != "" && NoBrackets(x) && !IsSpace(x[0]) && !IsSpace(x[|x| - 1])
    ensures Header("[" + x + "]\n") == Some(x)
  {
    var t := "[" + x + "]";
    assert "[" + x + "]\n" == t + "\n";
    HeaderIgnoresTerminator(t);
    assert t[|t| - 1] == ']' && StripRight(t) == t && StripLeft(t) == t;
    assert t[1..|t| - 1] == x;
    assert t[1] == x[0] && t[|t| - 2] == x[|x| - 1];
  }

  // --- ownership ---------------------------------------------------------------------------

  /** The last header at or above the end of `ls`. */
  function Owner(ls: seq<string>): Option<string> {
    if ls == [] then None
    else if Header(ls[|ls| - 1]).Some? then Header(ls[|ls| - 1])
    else Owner(ls[..|ls| - 1])
  }

  predicate Hit(o: Option<string>, p: string -> bool) { o.Some? && p(o.value) }

  /** Line `x` (from 1) belongs to a table whose header satisfies `p`. */
  predicate Owned(ls: seq<string>, p: string -> bool, x: int) { 0 < x <= |ls| && Hit(Owner(ls[..x]), p) }

  /** The lines no matching table owns, in order. */
  function Sweep(ls: seq<string>, p: string -> bool): seq<string> {
    if ls == [] then []
    else Sweep(ls[..|ls| - 1], p) + if Hit(Owner(ls), p) then [] else [ls[|ls| - 1]]
  }

  lemma {:induction false} SweepIsKeep(ls: seq<string>, p: string -> bool)
    ensures Sweep(ls, p) == Keep(ls, 0, x => Owned(ls, p, x))
  {
    hide Owner;
    if ls != [] {
      var k := |ls| - 1;
      var init, last := ls[..k], [ls[k]];
      SweepIsKeep(init, p);
      assert ls == init + last && ls[..k + 1] == ls;
      KeepAppend(init, last, 0, x => Owned(ls, p, x));
      forall x | 0 < x <= k ensures Owned(init, p, x) == Owned(ls, p, x) { assert init[..x] == ls[..x]; }
      KeepSame(init, 0, x => Owned(init, p, x), x => Owned(ls, p, x));
      assert last[1..] == [];
      assert Keep(last, k, x => Owned(ls, p, x)) == if Owned(ls, p, k + 1) then [] else last;
    }
  }

  /** Removing owned lines changes no kept line's owner. */
  lemma {:induction false} SweepOwner(ls: seq<string>, p: string -> bool)
    requires !Hit(Owner(ls), p)
    ensures Owner(Sweep(ls, p)) == Owner(ls)
  {
    if ls != [] {
      var k := |ls| - 1;
      assert Sweep(ls, p)[..|Sweep(ls, p)| - 1] == Sweep(ls[..k], p);
      if Header(ls[k]).None? { SweepOwner(ls[..k], p); }
    }
  }

  lemma {:induction false} SweepTwice(ls: seq<string>, p: string -> bool, q: string -> bool, r: string -> bool)
    requires forall h :: r(h) <==> p(h) || q(h)
    ensures Sweep(Sweep(ls, p), q) == Sweep(ls, r)
  {
    if ls != [] {
      var k := |ls| - 1;
      SweepTwice(ls[..k], p, q, r);
      if !Hit(Owner(ls), p) {
        var s := Sweep(ls, p);
        assert s[..|s| - 1] == Sweep(ls[..k], p);
        SweepOwner(ls, p);
      } else {
        assert Sweep(ls, p) == Sweep(ls[..k], p);
        assert Sweep(ls, r) == Sweep(ls[..k], r);
      }
    }
  }

  /** Sweeps commute, and sweeping again changes nothing. */
  lemma {:induction false} SweepsCommute(ls: seq<string>, p: string -> bool, q: string -> bool)
    ensures Sweep(Sweep(ls, p), q) == Sweep(Sweep(ls, q), p)
    ensures Sweep(Sweep(ls, p), p) == Sweep(ls, p)
  {
    var r := h => p(h) || q(h);
    SweepTwice(ls, p, q, r);
    SweepTwice(ls, q, p, r);
    SweepTwice(ls, p, p, p);
  }

  ghost predicate HasHeader(ls: seq<string>, p: string -> bool) {
    exists i :: 0 <= i < |ls| && Hit(Header(ls[i]), p)
  }

  lemma HasHeaderSplit(ls: seq<string>, p: string -> bool)
    requires ls != []
    ensures HasHeader(ls, p) <==> HasHeader(ls[..|ls| - 1], p) || Hit(Header(ls[|ls| - 1]), p)
  {
    var init := ls[..|ls| - 1];
    assert forall i | 0 <= i < |init| :: init[i] == ls[i];
    if HasHeader(init, p) {
      var i :| 0 <= i < |init| && Hit(Header(init[i]), p);
      assert Hit(Header(ls[i]), p);
    }
  }

  /** A header survives a sweep exactly when it does not match. */
  lemma {:induction false} SweepHeaders(ls: seq<string>, p: string -> bool, q: string -> bool)
    ensures HasHeader(Sweep(ls, p), q) <==> HasHeader(ls, h => q(h) && !p(h))
  {
    if ls != [] {
      var k := |ls| - 1;
      SweepHeaders(ls[..k], p, q);
      HasHeaderSplit(ls, h => q(h) && !p(h));
      var s := Sweep(ls, p);
      if Hit(Owner(ls), p) {
        assert s == Sweep(ls[..k], p);
      } else {
        assert s[..|s| - 1] == Sweep(ls[..k], p);
        HasHeaderSplit(s, q);
      }
    }
  }

  lemma {:induction false} SweepNothing(ls: seq<string>, p: string -> bool)
    requires !HasHeader(ls, p)
    ensures Sweep(ls, p) == ls && !Hit(Owner(ls), p)
  {
    hide HasHeader, Header;
    if ls != [] {
      HasHeaderSplit(ls, p);
      SweepNothing(ls[..|ls| - 1], p);
      InitLast(ls);
    }
  }

  /** Kept lines of a well-formed list are well-formed: only the last can be unterminated. */
  lemma {:induction false} SweepWellFormed(ls: seq<string>, p: string -> bool)
    requires WellFormed(ls)
    ensures WellFormed(Sweep(ls, p))
    ensures (forall i | 0 <= i < |ls| :: Terminated(ls[i])) ==>
            forall i | 0 <= i < |Sweep(ls, p)| :: Terminated(Sweep(ls, p)[i])
  {
    if ls != [] { SweepWellFormed(ls[..|ls| - 1], p); }
  }
}
