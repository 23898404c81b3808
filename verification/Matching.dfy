/** First-in-first-out matching of openings with closings, without a queue: how many closings of a log have
    found an opening is a minimum over the log's cuts. */
module Matching {
  import opened Common

  /** At a cut: the openings before it and the closings after it. No more closings than these can have
      found an opening. */
  function Across<T>(opens: T -> bool, closes: T -> bool, s: seq<T>, j: nat): nat
    requires j <= |s|
  {
    CountIf(opens, s[..j]) + CountIf(closes, s[j..])
  }

  /** `n` is the least over all cuts. */
  ghost predicate Matches<T>(n: nat, opens: T -> bool, closes: T -> bool, s: seq<T>) {
    && (forall j: nat | j <= |s| :: n <= Across(opens, closes, s, j))
    && exists j: nat | j <= |s| :: n == Across(opens, closes, s, j)
  }

  lemma CountNext<T>(p: T -> bool, s: seq<T>, x: T)
    ensures CountIf(p, s + [x]) == CountIf(p, s) + if p(x) then 1 else 0
  {
    assert (s + [x])[..|s|] == s;
  }

  lemma CutNext<T>(opens: T -> bool, closes: T -> bool, s: seq<T>, x: T, j: nat)
    requires j <= |s|
    ensures Across(opens, closes, s + [x], j) == Across(opens, closes, s, j) + if closes(x) then 1 else 0
  {
    hide CountIf;
    assert (s + [x])[..j] == s[..j] && (s + [x])[j..] == s[j..] + [x];
    CountNext(closes, s[j..], x);
  }

  lemma CutLast<T>(opens: T -> bool, closes: T -> bool, s: seq<T>)
    ensures Across(opens, closes, s, |s|) == CountIf(opens, s)
  {
    assert s[..|s|] == s && s[|s|..] == [];
  }

  lemma {:induction false} MatchesNone<T>(opens: T -> bool, closes: T -> bool)
    ensures Matches(0, opens, closes, [])
  {
    CutLast(opens, closes, []);
    assert CountIf(opens, []) == 0;
    assert Across(opens, closes, [], 0) == 0;
  }

  /** One more event: a closing finds an opening while any is left. */
  lemma {:induction false} MatchesNext<T>(n: nat, opens: T -> bool, closes: T -> bool, s: seq<T>, x: T)
    requires Matches(n, opens, closes, s) && !(opens(x) && closes(x))
    ensures n <= CountIf(opens, s)
    ensures Matches(if closes(x) then Min(n + 1, CountIf(opens, s)) else n, opens, closes, s + [x])
  {
    hide Across, CountIf;
    var t := s + [x];
    var m := if closes(x) then Min(n + 1, CountIf(opens, s)) else n;
    CutLast(opens, closes, s);
    CutLast(opens, closes, t);
    CountNext(opens, s, x);
    assert n <= Across(opens, closes, s, |s|);
    forall j: nat | j <= |t| ensures m <= Across(opens, closes, t, j) {
      if j <= |s| { CutNext(opens, closes, s, x, j); }
    }
    var i: nat :| i <= |s| && n == Across(opens, closes, s, i);
    CutNext(opens, closes, s, x, i);
    assert m == Across(opens, closes, t, i) || m == Across(opens, closes, t, |t|);
  }
}
