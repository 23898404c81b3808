/** What a median is, in terms of how many readings lie on either side of it, and that
    `statistics.median`, which `interstellar/stats.py` summarises each arm with, is that. */
module Medians {
  import opened Common
  import opened Bootstrap

  function Median(v: seq<real>): real
    requires v != []
  {
    var s, h := SortReals(v), |v| / 2;
    if |v| % 2 == 1 then s[h] else (s[h - 1] + s[h]) / 2.0
  }

  function AtMost(a: real): real -> bool { (x: real) => x <= a }

  function Below(a: real): real -> bool { (x: real) => x < a }

  function AtLeast(a: real): real -> bool { (x: real) => x >= a }

  function Above(a: real): real -> bool { (x: real) => x > a }

  /** At least half of the readings are at most `a`, and fewer than half below it. */
  ghost predicate LowerMiddle(v: seq<real>, a: real) {
    a in v && CountIf(AtMost(a), v) >= (|v| + 1) / 2 && CountIf(Below(a), v) <= (|v| - 1) / 2
  }

  /** At least half of the readings are at least `b`, and fewer than half above it. */
  ghost predicate UpperMiddle(v: seq<real>, b: real) {
    b in v && CountIf(AtLeast(b), v) >= (|v| + 1) / 2 && CountIf(Above(b), v) <= (|v| - 1) / 2
  }

  /** Halfway between the two middle readings. */
  ghost predicate IsMedian(v: seq<real>, m: real) {
    exists a, b :: LowerMiddle(v, a) && UpperMiddle(v, b) && a <= b && m == (a + b) / 2.0
  }

  lemma CountSplit(p: real -> bool, s: seq<real>, n: nat)
    requires n <= |s|
    ensures CountIf(p, s) == CountIf(p, s[..n]) + CountIf(p, s[n..])
    ensures CountIf(p, s[..n]) <= n && CountIf(p, s[n..]) <= |s| - n
  {
    hide Filter;
    assert s == s[..n] + s[n..];
    FilterAppend(p, s[..n], s[n..]);
    FilterShorter(p, s[..n]);
    FilterShorter(p, s[n..]);
  }

  lemma {:induction false} FilterShorter(p: real -> bool, s: seq<real>)
    ensures |Filter(p, s)| <= |s|
  {
    if s != [] { FilterShorter(p, s[..|s| - 1]); }
  }

  /** A test that exactly the first elements can pass, and one that exactly the last ones can. */
  lemma CountEarly(p: real -> bool, s: seq<real>, n: nat)
    requires n <= |s|
    ensures (forall i | 0 <= i < n :: p(s[i])) ==> CountIf(p, s) >= n
    ensures (forall i | n <= i < |s| :: !p(s[i])) ==> CountIf(p, s) <= n
  {
    hide Filter;
    CountSplit(p, s, n);
    if forall i | 0 <= i < n :: p(s[i]) { FilterAll(p, s[..n]); }
    if forall i | n <= i < |s| :: !p(s[i]) { FilterNone(p, s[n..]); }
  }

  lemma CountLate(p: real -> bool, s: seq<real>, n: nat)
    requires n <= |s|
    ensures (forall i | 0 <= i < n :: !p(s[i])) ==> CountIf(p, s) <= |s| - n
    ensures (forall i | n <= i < |s| :: p(s[i])) ==> CountIf(p, s) >= |s| - n
  {
    hide Filter;
    CountSplit(p, s, n);
    if forall i | 0 <= i < n :: !p(s[i]) { FilterNone(p, s[..n]); }
    if forall i | n <= i < |s| :: p(s[i]) { FilterAll(p, s[n..]); }
  }

  lemma Arranged(s: seq<real>, i: nat)
    requires Ascending(s) && i < |s|
    ensures (forall k | 0 <= k <= i :: s[k] <= s[i]) && forall k | i <= k < |s| :: s[i] <= s[k]
  {
    assert forall k | 0 <= k < i :: LeqReal(s[k], s[i]);
    assert forall k | i < k < |s| :: LeqReal(s[i], s[k]);
  }

  lemma {:induction false} SortedMiddles(s: seq<real>)
    requires s != [] && Ascending(s)
    ensures LowerMiddle(s, s[(|s| - 1) / 2]) && UpperMiddle(s, s[|s| / 2]) && s[(|s| - 1) / 2] <= s[|s| / 2]
  {
    hide CountIf, Ascending;
    var i, j := (|s| - 1) / 2, |s| / 2;
    Arranged(s, i);
    Arranged(s, j);
    CountEarly(AtMost(s[i]), s, i + 1);
    CountEarly(Below(s[i]), s, i);
    CountLate(AtLeast(s[j]), s, j);
    CountLate(Above(s[j]), s, j + 1);
  }

  lemma MiddlesPermuted(s: seq<real>, v: seq<real>, a: real, b: real)
    requires multiset(s) == multiset(v) && LowerMiddle(s, a) && UpperMiddle(s, b)
    ensures LowerMiddle(v, a) && UpperMiddle(v, b)
  {
    hide CountIf;
    SameSize(s, v);
    CountPermuted(AtMost(a), s, v);
    CountPermuted(Below(a), s, v);
    CountPermuted(AtLeast(b), s, v);
    CountPermuted(Above(b), s, v);
    assert a in multiset(v) && b in multiset(v);
  }

  lemma {:induction false} MiddlesUnique(v: seq<real>, a: real, b: real)
    ensures LowerMiddle(v, a) && LowerMiddle(v, b) ==> a == b
    ensures UpperMiddle(v, a) && UpperMiddle(v, b) ==> a == b
  {
    hide CountIf;
    if a < b {
      CountImplied(AtMost(a), Below(b), v);
      CountImplied(AtLeast(b), Above(a), v);
    } else if b < a {
      CountImplied(AtMost(b), Below(a), v);
      CountImplied(AtLeast(a), Above(b), v);
    }
  }

  /** The median is the one number halfway between the two middle readings. */
  lemma {:induction false} MedianExactly(v: seq<real>, m: real)
    requires v != []
    ensures IsMedian(v, m) <==> m == Median(v)
  {
    hide LowerMiddle, UpperMiddle, SortReals;
    var s := SortReals(v);
    var x, y := s[(|s| - 1) / 2], s[|s| / 2];
    SortedMiddles(s);
    MiddlesPermuted(s, v, x, y);
    assert Median(v) == (x + y) / 2.0;
    assert IsMedian(v, Median(v));
    if IsMedian(v, m) {
      var a, b :| LowerMiddle(v, a) && UpperMiddle(v, b) && a <= b && m == (a + b) / 2.0;
      MiddlesUnique(v, a, x);
      MiddlesUnique(v, b, y);
    }
  }
}
