/** Shared vocabulary: options, powers of two and a stable sort with its specification. */
module Common {

  datatype Option<+T> = None | Some(value: T)

  function Min(a: int, b: int): int { if a <= b then a else b }

  function Max(a: int, b: int): int { if a <= b then b else a }

  function Pow2(n: nat): (r: nat)
    ensures r >= 1
  {
    if n == 0 then 1 else 2 * Pow2(n - 1)
  }

  lemma {:induction false} Pow2Add(a: nat, b: nat)
    ensures Pow2(a + b) == Pow2(a) * Pow2(b)
  {
    if a == 0 {
    } else {
      Pow2Add(a - 1, b);
      assert Pow2(a + b) == 2 * Pow2(a - 1 + b);
    }
  }

  lemma RealProduct(x: int, y: int)
    ensures (x * y) as real == x as real * y as real
  {
  }

  // --- sequences -------------------------------------------------------------

  predicate StartsWith(s: string, prefix: string) { |prefix| <= |s| && s[..|prefix|] == prefix }

  lemma Assoc<T>(a: seq<T>, b: seq<T>, c: seq<T>)
    ensures a + b + c == a + (b + c)
  {
  }

  lemma AppendTail<T>(a: seq<T>, b: seq<T>)
    requires a != []
    ensures (a + b)[0] == a[0] && (a + b)[1..] == a[1..] + b
  {
  }

  lemma AppendInit<T>(a: seq<T>, b: seq<T>)
    requires b != []
    ensures var k := |b| - 1;
            |a + b| == |a| + k + 1 && (a + b)[..|a| + k] == a + b[..k] && (a + b)[|a| + k] == b[k]
  {
  }

  lemma InitLast<T>(s: seq<T>)
    requires s != []
    ensures s == s[..|s| - 1] + [s[|s| - 1]]
  {
  }

  lemma TakeOneMore<T>(s: seq<T>, i: nat)
    requires i < |s|
    ensures s[..i + 1] == s[..i] + [s[i]] && s[..i + 1][..i] == s[..i] && s[..i + 1][i] == s[i]
  {
  }

  lemma TakeAll<T>(s: seq<T>)
    ensures s[..|s|] == s
  {
  }

  /** The elements that satisfy `p`, in order. */
  function Filter<T>(p: T -> bool, s: seq<T>): seq<T> {
    if s == [] then [] else Filter(p, s[..|s| - 1]) + if p(s[|s| - 1]) then [s[|s| - 1]] else []
  }

  function Map<A, B>(f: A -> B, s: seq<A>): (r: seq<B>)
    ensures |r| == |s| && forall i | 0 <= i < |s| :: r[i] == f(s[i])
  {
    seq(|s|, i requires 0 <= i < |s| => f(s[i]))
  }

  lemma {:induction false} FilterAppend<T>(p: T -> bool, a: seq<T>, b: seq<T>)
    ensures Filter(p, a + b) == Filter(p, a) + Filter(p, b)
  {
    if b == [] {
      assert a + b == a;
    } else {
      AppendInit(a, b);
      FilterAppend(p, a, b[..|b| - 1]);
    }
  }

  /** How many elements satisfy `p`. */
  function CountIf<T>(p: T -> bool, s: seq<T>): nat { |Filter(p, s)| }

  lemma {:induction false} CountImplied<T(!new)>(p: T -> bool, q: T -> bool, s: seq<T>)
    requires forall x :: p(x) ==> q(x)
    ensures CountIf(p, s) <= CountIf(q, s)
  {
    if s != [] { CountImplied(p, q, s[..|s| - 1]); }
  }

  lemma {:induction false} FilterAll<T>(p: T -> bool, s: seq<T>)
    requires forall i | 0 <= i < |s| :: p(s[i])
    ensures Filter(p, s) == s
  {
    if s != [] { FilterAll(p, s[..|s| - 1]); }
  }

  lemma {:induction false} FilterNone<T>(p: T -> bool, s: seq<T>)
    requires forall i | 0 <= i < |s| :: !p(s[i])
    ensures Filter(p, s) == []
  {
    if s != [] { FilterNone(p, s[..|s| - 1]); }
  }

  lemma {:induction false} FilterCounts<T>(p: T -> bool, s: seq<T>, x: T)
    ensures multiset(Filter(p, s))[x] == if p(x) then multiset(s)[x] else 0
  {
    if s != [] {
      var k := |s| - 1;
      FilterCounts(p, s[..k], x);
      InitLast(s);
      assert multiset(s) == multiset(s[..k]) + multiset{s[k]};
    }
  }

  /** Counting does not depend on the order. */
  lemma CountPermuted<T(!new)>(p: T -> bool, a: seq<T>, b: seq<T>)
    requires multiset(a) == multiset(b)
    ensures CountIf(p, a) == CountIf(p, b)
  {
    forall x ensures multiset(Filter(p, a))[x] == multiset(Filter(p, b))[x] {
      FilterCounts(p, a, x);
      FilterCounts(p, b, x);
    }
    assert multiset(Filter(p, a)) == multiset(Filter(p, b));
    SameSize(Filter(p, a), Filter(p, b));
  }

  lemma MapAppend<A, B>(f: A -> B, a: seq<A>, b: seq<A>)
    ensures Map(f, a + b) == Map(f, a) + Map(f, b)
  {
  }

  // --- sorting -------------------------------------------------------------

  /** A total preorder: what Python's `sort` needs of its keys. */
  ghost predicate TotalPreorder<T(!new)>(leq: (T, T) -> bool) {
    && (forall a, b :: leq(a, b) || leq(b, a))
    && (forall a, b, c :: leq(a, b) && leq(b, c) ==> leq(a, c))
  }

  ghost predicate Antisymmetric<T(!new)>(leq: (T, T) -> bool) {
    forall a, b :: leq(a, b) && leq(b, a) ==> a == b
  }

  predicate SortedBy<T>(leq: (T, T) -> bool, s: seq<T>) {
    forall i, j | 0 <= i < j < |s| :: leq(s[i], s[j])
  }

  function Insert<T>(leq: (T, T) -> bool, x: T, s: seq<T>): (r: seq<T>)
    ensures multiset(r) == multiset(s) + multiset{x}
    ensures |r| == |s| + 1
  {
    if s == [] then [x]
    else if leq(x, s[0]) then [x] + s
    else
      assert s == [s[0]] + s[1..];
      [s[0]] + Insert(leq, x, s[1..])
  }

  /** Stable sort. The result is a permutation of the input. */
  function Sort<T>(leq: (T, T) -> bool, s: seq<T>): (r: seq<T>)
    ensures multiset(r) == multiset(s)
    ensures |r| == |s|
  {
    if s == [] then []
    else
      assert s == [s[0]] + s[1..];
      Insert(leq, s[0], Sort(leq, s[1..]))
  }

  lemma {:induction false} InsertSorted<T(!new)>(leq: (T, T) -> bool, x: T, s: seq<T>)
    requires TotalPreorder(leq) && SortedBy(leq, s)
    ensures SortedBy(leq, Insert(leq, x, s))
  {
    if s == [] {
    } else if leq(x, s[0]) {
    } else {
      var rest := Insert(leq, x, s[1..]);
      InsertSorted(leq, x, s[1..]);
      forall k | 0 <= k < |rest|
        ensures leq(s[0], rest[k])
      {
        assert rest[k] in multiset(rest);
        assert rest[k] in multiset(s[1..]) || rest[k] == x;
        if rest[k] in multiset(s[1..]) {
          assert rest[k] in s[1..];
        }
      }
    }
  }

  lemma {:induction false} SortSorts<T(!new)>(leq: (T, T) -> bool, s: seq<T>)
    requires TotalPreorder(leq)
    ensures SortedBy(leq, Sort(leq, s))
  {
    if s == [] {
    } else {
      SortSorts(leq, s[1..]);
      InsertSorted(leq, s[0], Sort(leq, s[1..]));
    }
  }

  /** Two sorted arrangements of one multiset coincide when ties are equal. */
  lemma {:induction false} SortedUnique<T(!new)>(leq: (T, T) -> bool, a: seq<T>, b: seq<T>)
    requires TotalPreorder(leq) && Antisymmetric(leq)
    requires SortedBy(leq, a) && SortedBy(leq, b)
    requires multiset(a) == multiset(b)
    ensures a == b
  {
    hide SortedBy, TotalPreorder, Antisymmetric;
    SameSize(a, b);
    if a != [] {
      SortedFirst(leq, a, b);
      TailMultiset(a);
      TailMultiset(b);
      TailSorted(leq, a);
      TailSorted(leq, b);
      SortedUnique(leq, a[1..], b[1..]);
      HeadTail(a);
      HeadTail(b);
    }
  }

  lemma TailSorted<T>(leq: (T, T) -> bool, s: seq<T>)
    requires SortedBy(leq, s) && s != []
    ensures SortedBy(leq, s[1..])
  {
  }

  lemma HeadTail<T>(s: seq<T>)
    requires s != []
    ensures s == [s[0]] + s[1..]
  {
  }

  lemma TailMultiset<T>(s: seq<T>)
    requires s != []
    ensures multiset(s[1..]) == multiset(s) - multiset{s[0]}
  {
    assert s == [s[0]] + s[1..];
  }

  lemma SortedFirst<T(!new)>(leq: (T, T) -> bool, a: seq<T>, b: seq<T>)
    requires TotalPreorder(leq) && Antisymmetric(leq) && SortedBy(leq, a) && SortedBy(leq, b)
    requires a != [] && b != [] && multiset(a) == multiset(b)
    ensures a[0] == b[0]
  {
    assert a[0] in multiset(a) && b[0] in multiset(b);
    assert a[0] in b && b[0] in a;
    assert leq(a[0], b[0]) && leq(b[0], a[0]);
  }

  lemma SameSize<T>(a: seq<T>, b: seq<T>)
    requires multiset(a) == multiset(b)
    ensures |a| == |b|
  {
    assert |multiset(a)| == |a| && |multiset(b)| == |b|;
  }

  // --- lexicographic order on strings ------------------------------------------

  predicate LexLeq(a: string, b: string) {
    if a == "" then true
    else if b == "" then false
    else a[0] < b[0] || (a[0] == b[0] && LexLeq(a[1..], b[1..]))
  }

  lemma {:induction false} LexTotal(a: string, b: string)
    ensures LexLeq(a, b) || LexLeq(b, a)
    ensures LexLeq(a, b) && LexLeq(b, a) ==> a == b
  {
    if a != "" && b != "" && a[0] == b[0] {
      LexTotal(a[1..], b[1..]);
      if a[1..] == b[1..] {
        assert a == [a[0]] + a[1..] && b == [b[0]] + b[1..];
      }
    }
  }

  lemma {:induction false} LexTransitive(a: string, b: string, c: string)
    requires LexLeq(a, b) && LexLeq(b, c)
    ensures LexLeq(a, c)
  {
    if a != "" && a[0] == b[0] == c[0] { LexTransitive(a[1..], b[1..], c[1..]); }
  }

  /** The first difference decides; a string that ends first comes first. */
  lemma {:induction false} LexMeans(a: string, b: string)
    ensures LexLeq(a, b) <==> a <= b || exists i | 0 <= i < |a| && i < |b| :: a[..i] == b[..i] && a[i] < b[i]
  {
    if a != "" && b != "" {
      if a[0] == b[0] {
        LexMeans(a[1..], b[1..]);
        assert a == [a[0]] + a[1..] && b == [b[0]] + b[1..];
        if i :| 0 <= i < |a[1..]| && i < |b[1..]| && a[1..][..i] == b[1..][..i] && a[1..][i] < b[1..][i] {
          assert a[..i + 1] == [a[0]] + a[1..][..i] && b[..i + 1] == [b[0]] + b[1..][..i];
          assert a[i + 1] < b[i + 1];
        }
        if i :| 0 <= i < |a| && i < |b| && a[..i] == b[..i] && a[i] < b[i] {
          assert a[1..][..i - 1] == a[..i][1..] && b[1..][..i - 1] == b[..i][1..];
          assert a[1..][i - 1] < b[1..][i - 1];
        }
      } else {
        if a[0] < b[0] { assert a[..0] == b[..0]; }
        forall i | 0 < i < |a| && i < |b| ensures a[..i] != b[..i] { assert a[..i][0] == a[0] && b[..i][0] == b[0]; }
      }
    }
  }
}
