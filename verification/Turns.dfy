/** Whose turn it is in the round robin of `_rank_and_select` (`interstellar/cli.py`), and what the two
    lists it returns hold, said of the patches themselves. */
module Turns {
  import opened Common
  import opened Scheduler

  // --- the lists as filters ---------------------------------------------------------------------

  function Usable(): Candidate -> bool { (p: Candidate) => !p.skipped }

  function Skipped(): Candidate -> bool { (p: Candidate) => p.skipped }

  function UsableOf(u: Unit): Candidate -> bool { (p: Candidate) => !p.skipped && p.unit == u }

  lemma {:induction false} SplitIs(ps: seq<Candidate>)
    ensures Appliable(ps) == Filter(Usable(), ps) && AlreadySkipped(ps) == Filter(Skipped(), ps)
  {
    if ps != [] { SplitIs(ps[..|ps| - 1]); }
  }

  lemma {:induction false} ClassIs(ps: seq<Candidate>, u: Unit)
    ensures OfClass(Appliable(ps), u) == Filter(UsableOf(u), ps)
  {
    hide OfClass;
    if ps == [] {
      OfNothing(u);
    } else {
      var k := |ps| - 1;
      ClassIs(ps[..k], u);
      if ps[k].skipped {
        assert Appliable(ps) == Appliable(ps[..k]) + [] == Appliable(ps[..k]);
      } else {
        OfClassAppend(Appliable(ps[..k]), [ps[k]], u);
        OfClassOne(ps[k], u);
      }
    }
  }

  lemma OfClassOne(p: Candidate, u: Unit)
    ensures OfClass([p], u) == if p.unit == u then [p] else []
  {
    assert [p][..0] == [];
    assert OfClass([p], u) == OfClass([], u) + if p.unit == u then [p] else [];
  }

  /** A class is ranked by descending score, ties by id, and holds exactly its own appliable patches. */
  lemma {:induction false} RankedByScore(ps: seq<Candidate>, u: Unit)
    ensures multiset(RankedClass(ps, u)) == multiset(Filter(UsableOf(u), ps))
    ensures forall i, j | 0 <= i < j < |RankedClass(ps, u)| ::
              var a, b := RankedClass(ps, u)[i], RankedClass(ps, u)[j];
              a.score > b.score || (a.score == b.score && LexLeq(a.id, b.id))
  {
    hide OfClass, Appliable, Sort, LexLeq, Filter;
    ClassIs(ps, u);
    RankingIsPreorder();
    SortSorts(RanksBefore, OfClass(Appliable(ps), u));
    forall i, j | 0 <= i < j < |RankedClass(ps, u)| ensures RanksBefore(RankedClass(ps, u)[i], RankedClass(ps, u)[j]) {}
  }

  // --- class order ----------------------------------------------------------------------------------

  /** A candidate of class `u` comes before any of class `v`. */
  ghost predicate SeenFirst(a: seq<Candidate>, u: Unit, v: Unit) {
    exists i | 0 <= i < |a| :: a[i].unit == u && forall j | 0 <= j <= i :: a[j].unit != v
  }

  lemma {:induction false} OrderFrom(a: seq<Candidate>, u: Unit)
    ensures u in ClassOrder(a) <==> exists i | 0 <= i < |a| :: a[i].unit == u
  {
    if a != [] {
      var k := |a| - 1;
      OrderFrom(a[..k], u);
      assert forall i | 0 <= i < k :: a[..k][i] == a[i];
    }
  }

  lemma {:induction false} SeenFirstInOrder(a: seq<Candidate>, u: Unit, v: Unit)
    requires SeenFirst(a, u, v)
    ensures exists i | 0 <= i < |ClassOrder(a)| :: ClassOrder(a)[i] == u && v !in ClassOrder(a)[..i + 1]
  {
    var i :| 0 <= i < |a| && a[i].unit == u && forall j | 0 <= j <= i :: a[j].unit != v;
    var k := |a| - 1;
    var init, order := ClassOrder(a[..k]), ClassOrder(a);
    if i < k {
      assert a[..k][i].unit == u && forall j | 0 <= j <= i :: a[..k][j].unit != v;
      SeenFirstInOrder(a[..k], u, v);
      var n :| 0 <= n < |init| && init[n] == u && v !in init[..n + 1];
      assert order[n] == u && order[..n + 1] == init[..n + 1];
    } else {
      OrderFrom(a[..k], v);
      assert forall j | 0 <= j < k :: a[..k][j] == a[j];
      OrderFrom(a, u);
      OrderFrom(a, v);
      var n :| 0 <= n < |order| && order[n] == u;
      assert v !in order[..n + 1];
    }
  }

  /** In the order of first sight, a class with its turn before another's has given at least as many,
      or all it has, whenever the round robin is cut short. */
  lemma {:induction false} TurnGiven(order: seq<Unit>, g: Groups, k: nat, u: Unit, v: Unit, iu: nat)
    requires Grouped(order, g) && k <= |Rounds(order, g, Longest(order, g))|
    requires iu < |order| && order[iu] == u && v !in order[..iu + 1]
    ensures var s := Rounds(order, g, Longest(order, g))[..k];
            Given(s, u) >= Given(s, v) || OfClass(s, u) == g[u]
  {
    hide OfClass, Rounds, Longest;
    var s := Rounds(order, g, Longest(order, g))[..k];
    var n, j := RoundsCut(order, g, Longest(order, g), k);
    PartialOfClass(order, g, n, j, iu);
    TakeAll(g[u]);
    if v in order {
      var iv :| 0 <= iv < |order| && order[iv] == v;
      LaterTurn(order, iu, iv);
      PartialOfClass(order, g, n, j, iv);
    } else {
      AbsentPrefix(order, g, k, v);
    }
  }

  lemma LaterTurn(order: seq<Unit>, iu: nat, iv: nat)
    requires iu < |order| && iv < |order| && order[iv] !in order[..iu + 1]
    ensures iu < iv
  {
  }

  lemma AbsentPrefix(order: seq<Unit>, g: Groups, k: nat, v: Unit)
    requires Grouped(order, g) && v !in order && k <= |Rounds(order, g, Longest(order, g))|
    ensures OfClass(Rounds(order, g, Longest(order, g))[..k], v) == []
  {
    hide OfClass, Rounds, Longest;
    AbsentGivesNothing(order, g, k, v);
  }

  /** Some appliable patch of class `u` comes before any appliable patch of class `v`. */
  ghost predicate ClassFirst(ps: seq<Candidate>, u: Unit, v: Unit) {
    exists i | 0 <= i < |ps| :: !ps[i].skipped && ps[i].unit == u && forall j | 0 <= j <= i && !ps[j].skipped :: ps[j].unit != v
  }

  lemma {:induction false} AppliableSeenFirst(ps: seq<Candidate>, u: Unit, v: Unit)
    requires ClassFirst(ps, u, v)
    ensures SeenFirst(Appliable(ps), u, v)
  {
    var i :| 0 <= i < |ps| && !ps[i].skipped && ps[i].unit == u && forall j | 0 <= j <= i && !ps[j].skipped :: ps[j].unit != v;
    var k := |ps| - 1;
    var init, a := Appliable(ps[..k]), Appliable(ps);
    if i < k {
      assert !ps[..k][i].skipped && ps[..k][i].unit == u && forall j | 0 <= j <= i && !ps[..k][j].skipped :: ps[..k][j].unit != v;
      AppliableSeenFirst(ps[..k], u, v);
      var n :| 0 <= n < |init| && init[n].unit == u && forall j | 0 <= j <= n :: init[j].unit != v;
      assert a[n].unit == u && forall j | 0 <= j <= n :: a[j] == init[j];
    } else {
      forall j | 0 <= j < |init| ensures init[j].unit != v { AppliableFrom(ps[..k], j); }
      var n := |init|;
      assert a[n].unit == u && forall j | 0 <= j <= n :: a[j].unit != v;
    }
  }

  lemma {:induction false} AppliableFrom(ps: seq<Candidate>, j: nat)
    requires j < |Appliable(ps)|
    ensures exists i | 0 <= i < |ps| :: !ps[i].skipped && ps[i] == Appliable(ps)[j]
  {
    var k := |ps| - 1;
    if j < |Appliable(ps[..k])| {
      AppliableFrom(ps[..k], j);
      var i :| 0 <= i < k && !ps[..k][i].skipped && ps[..k][i] == Appliable(ps[..k])[j];
      assert ps[i] == Appliable(ps)[j];
    } else {
      assert ps[k] == Appliable(ps)[j];
    }
  }

  // --- what is selected ----------------------------------------------------------------------------------

  /** Class order is the order of first sight: at every point of the selected list, a class whose first
      appliable patch comes before another's has at least as many patches in it, or all it has. */
  lemma {:induction false} FirstSeenFirst(ps: seq<Candidate>, budget: int, u: Unit, v: Unit, n: nat)
    requires ClassFirst(ps, u, v) && n <= |Selected(ps, budget)|
    ensures var s := Selected(ps, budget)[..n];
            Given(s, u) >= Given(s, v) || OfClass(s, u) == RankedClass(ps, u)
  {
    hide Appliable, ClassOrder, OfClass, Rounds, Longest, Sort, ClassFirst, SeenFirst;
    var a := Appliable(ps);
    var order, g := ClassOrder(a), Ranked(a);
    RankedGrouped(a);
    AppliableSeenFirst(ps, u, v);
    SeenFirstInOrder(a, u, v);
    var i :| 0 <= i < |order| && order[i] == u && v !in order[..i + 1];
    assert Selected(ps, budget)[..n] == Rounds(order, g, Longest(order, g))[..n];
    TurnGiven(order, g, n, u, v, i);
  }

  /** So the k-th patch of a class is selected after the k-th of any class seen before it that has as many. */
  lemma {:induction false} KthInTurn(ps: seq<Candidate>, budget: int, u: Unit, v: Unit, j: nat)
    requires ClassFirst(ps, u, v) && j < |Selected(ps, budget)| && Selected(ps, budget)[j].unit == v
    requires Given(Selected(ps, budget)[..j + 1], v) <= |RankedClass(ps, u)|
    ensures Given(Selected(ps, budget)[..j], u) >= Given(Selected(ps, budget)[..j + 1], v)
  {
    hide Appliable, OfClass, Selected, Sort;
    var s := Selected(ps, budget);
    FirstSeenFirst(ps, budget, u, v, j + 1);
    TakeOneMore(s, j);
    OfClassAppend(s[..j], [s[j]], u);
    OfClassOne(s[j], u);
  }

  /** A shorter budget selects a prefix. */
  lemma {:induction false} PrefixSelected(ps: seq<Candidate>, budget: int, n: nat)
    requires n <= |Selected(ps, budget)|
    ensures Selected(ps, n) == Selected(ps, budget)[..n]
  {
    hide Appliable, ClassOrder, Rounds, Longest, Ranked;
    RankedGrouped(Appliable(ps));
  }

  /** The first patch selected is the top-ranked one of the class of the first appliable patch. */
  lemma {:induction false} FirstSelected(ps: seq<Candidate>, budget: int, i: nat)
    requires budget > 0 && i < |ps| && !ps[i].skipped && forall j | 0 <= j < i :: ps[j].skipped
    ensures Selected(ps, budget) != [] && RankedClass(ps, ps[i].unit) != []
    ensures Selected(ps, budget)[0] == RankedClass(ps, ps[i].unit)[0]
  {
    hide Appliable, OfClass, Selected, Sort, ClassFirst, Filter;
    var u := ps[i].unit;
    SelectionSize(ps, budget);
    SomeAppliable(ps, i);
    RankedNonempty(ps, u, i);
    PrefixSelected(ps, budget, 1);
    var s := Selected(ps, budget);
    var v := s[0].unit;
    assert s[..1] == [s[0]];
    OfClassOne(s[0], u);
    OfClassOne(s[0], v);
    if v != u {
      assert ClassFirst(ps, u, v) by { OnlySkippedBefore(ps, i, v); }
      FirstSeenFirst(ps, budget, u, v, 1);
      assert false;
    }
    SelectionIsFair(ps, 1, u, u);
  }

  lemma OnlySkippedBefore(ps: seq<Candidate>, i: nat, v: Unit)
    requires i < |ps| && !ps[i].skipped && (forall j | 0 <= j < i :: ps[j].skipped) && ps[i].unit != v
    ensures ClassFirst(ps, ps[i].unit, v)
  {
  }

  lemma SomeAppliable(ps: seq<Candidate>, i: nat)
    requires i < |ps| && !ps[i].skipped
    ensures |Appliable(ps)| > 0
  {
    hide Filter;
    SplitIs(ps);
    FilterHas(Usable(), ps, i);
  }

  lemma {:induction false} FilterHas(p: Candidate -> bool, ps: seq<Candidate>, i: nat)
    requires i < |ps| && p(ps[i])
    ensures Filter(p, ps) != []
  {
    if i < |ps| - 1 { FilterHas(p, ps[..|ps| - 1], i); }
  }

  lemma RankedNonempty(ps: seq<Candidate>, u: Unit, i: nat)
    requires i < |ps| && UsableOf(u)(ps[i])
    ensures RankedClass(ps, u) != []
  {
    hide Filter, OfClass, Appliable;
    ClassIs(ps, u);
    FilterHas(UsableOf(u), ps, i);
  }

  // --- what is dropped ----------------------------------------------------------------------------------

  function NotIn(ids: set<string>): Candidate -> bool { (p: Candidate) => p.id !in ids }

  lemma {:induction false} UnpickedIs(group: seq<Candidate>, ids: set<string>)
    ensures Unpicked(group, ids) == Filter(NotIn(ids), group)
  {
    if group != [] { UnpickedIs(group[..|group| - 1], ids); }
  }

  /** The dropped list ends with the patches that were skipped already, in input order; before them come
      the outranked ones, each class's in ranked order. */
  lemma {:induction false} DroppedInOrder(ps: seq<Candidate>, budget: int, u: Unit)
    ensures var skipped, dropped := Filter(Skipped(), ps), Dropped(ps, budget);
            && |skipped| <= |dropped| && dropped[|dropped| - |skipped|..] == skipped
            && OfClass(dropped[..|dropped| - |skipped|], u) == Filter(NotIn(Ids(Selected(ps, budget))), RankedClass(ps, u))
  {
    hide Appliable, AlreadySkipped, ClassOrder, OfClass, Selected, Sort, Filter, Outranked, Ids, Unpicked;
    var a, ids := Appliable(ps), Ids(Selected(ps, budget));
    RankedGrouped(a);
    SplitIs(ps);
    var o := Outranked(ClassOrder(a), Ranked(a), ids);
    assert Dropped(ps, budget) == o + Filter(Skipped(), ps);
    OutrankedOfClass(ClassOrder(a), Ranked(a), ids, u);
    UnpickedIs(RankedClass(ps, u), ids);
    if u !in ClassOrder(a) {
      OfNoClass(a, u);
      NothingSorted();
      NoneFiltered(NotIn(ids));
    }
  }

  lemma NothingSorted()
    ensures Sort(RanksBefore, []) == []
  {
  }

  lemma NoneFiltered(p: Candidate -> bool)
    ensures Filter(p, []) == []
  {
  }
}
