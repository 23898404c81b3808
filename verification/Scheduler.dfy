/** Ranking patches within their impact class and interleaving the classes under a budget:
    `_rank_and_select` in `interstellar/cli.py`. Class and score of a patch are arbitrary. */
module Scheduler {
  import opened Common

  datatype Unit = TokensEst | Milliseconds | Unmeasured

  datatype Candidate = Candidate(id: string, unit: Unit, score: real, skipped: bool)

  // --- classes --------------------------------------------------------------------------------

  /** Higher score first, ties by id. */
  predicate RanksBefore(a: Candidate, b: Candidate) {
    a.score > b.score || (a.score == b.score && LexLeq(a.id, b.id))
  }

  lemma RankingIsPreorder()
    ensures TotalPreorder(RanksBefore)
  {
    forall a, b ensures RanksBefore(a, b) || RanksBefore(b, a) { LexTotal(a.id, b.id); }
    forall a, b, c | RanksBefore(a, b) && RanksBefore(b, c)
      ensures RanksBefore(a, c)
    {
      if a.score == c.score { LexTransitive(a.id, b.id, c.id); }
    }
  }

  function Appliable(ps: seq<Candidate>): seq<Candidate> {
    if ps == [] then [] else Appliable(ps[..|ps| - 1]) + if ps[|ps| - 1].skipped then [] else [ps[|ps| - 1]]
  }

  function AlreadySkipped(ps: seq<Candidate>): seq<Candidate> {
    if ps == [] then [] else AlreadySkipped(ps[..|ps| - 1]) + if ps[|ps| - 1].skipped then [ps[|ps| - 1]] else []
  }

  function OfClass(ps: seq<Candidate>, u: Unit): seq<Candidate> {
    if ps == [] then [] else OfClass(ps[..|ps| - 1], u) + if ps[|ps| - 1].unit == u then [ps[|ps| - 1]] else []
  }

  /** Classes in the order in which they are first seen. */
  function ClassOrder(ps: seq<Candidate>): seq<Unit> {
    if ps == [] then []
    else
      var order, u := ClassOrder(ps[..|ps| - 1]), ps[|ps| - 1].unit;
      if u in order then order else order + [u]
  }

  type Groups = map<Unit, seq<Candidate>>

  /** Each class ranked on its own. */
  function Ranked(ps: seq<Candidate>): Groups {
    map u | u in ClassOrder(ps) :: Sort(RanksBefore, OfClass(ps, u))
  }

  ghost predicate Distinct<T>(s: seq<T>) { forall i, j | 0 <= i < j < |s| :: s[i] != s[j] }

  /** Every class in the order has its group, which holds only its own candidates. */
  ghost predicate Grouped(order: seq<Unit>, g: Groups) {
    && Distinct(order)
    && (forall i | 0 <= i < |order| :: order[i] in g)
    && forall u, k | u in g && 0 <= k < |g[u]| :: g[u][k].unit == u
  }

  // --- the interleaving ---------------------------------------------------------------------------

  /** The candidates of one rank, class by class. */
  function Column(order: seq<Unit>, g: Groups, rank: nat): seq<Candidate>
    requires forall i | 0 <= i < |order| :: order[i] in g
  {
    if order == [] then []
    else
      var u := order[|order| - 1];
      Column(order[..|order| - 1], g, rank) + if rank < |g[u]| then [g[u][rank]] else []
  }

  function Rounds(order: seq<Unit>, g: Groups, n: nat): seq<Candidate>
    requires forall i | 0 <= i < |order| :: order[i] in g
  {
    if n == 0 then [] else Rounds(order, g, n - 1) + Column(order, g, n - 1)
  }

  function Longest(order: seq<Unit>, g: Groups): (n: nat)
    requires forall i | 0 <= i < |order| :: order[i] in g
    ensures forall i | 0 <= i < |order| :: |g[order[i]]| <= n
  {
    if order == [] then 0
    else
      var k := |order| - 1;
      var n := Longest(order[..k], g);
      assert forall i | 0 <= i < k :: order[..k][i] == order[i];
      Max(n, |g[order[k]]|)
  }

  /** One candidate from each class in turn, as far as the budget goes. */
  function Select(order: seq<Unit>, g: Groups, budget: int): seq<Candidate>
    requires forall i | 0 <= i < |order| :: order[i] in g
  {
    var all := Rounds(order, g, Longest(order, g));
    all[..Max(0, Min(budget, |all|))]
  }

  /** `n` full rounds and `j` classes of the next one. */
  function Partial(order: seq<Unit>, g: Groups, n: nat, j: nat): seq<Candidate>
    requires (forall i | 0 <= i < |order| :: order[i] in g) && j <= |order|
  {
    Rounds(order, g, n) + Column(order[..j], g, n)
  }

  lemma {:induction false} ColumnPrefix(order: seq<Unit>, g: Groups, rank: nat, j: nat)
    requires (forall i | 0 <= i < |order| :: order[i] in g) && j <= |order|
    ensures Column(order[..j], g, rank) <= Column(order, g, rank)
  {
    if j < |order| {
      var init := order[..|order| - 1];
      assert init[..j] == order[..j];
      ColumnPrefix(init, g, rank, j);
    } else {
      assert order[..j] == order;
    }
  }

  lemma {:induction false} RoundsPrefix(order: seq<Unit>, g: Groups, n: nat, m: nat)
    requires (forall i | 0 <= i < |order| :: order[i] in g) && n <= m
    ensures Rounds(order, g, n) <= Rounds(order, g, m)
  {
    if n < m { RoundsPrefix(order, g, n, m - 1); }
  }

  lemma {:induction false} ColumnEmpty(order: seq<Unit>, g: Groups, rank: nat)
    requires forall i | 0 <= i < |order| :: order[i] in g && |g[order[i]]| <= rank
    ensures Column(order, g, rank) == []
  {
    if order != [] { ColumnEmpty(order[..|order| - 1], g, rank); }
  }

  lemma {:induction false} RoundsStable(order: seq<Unit>, g: Groups, n: nat, m: nat)
    requires (forall i | 0 <= i < |order| :: order[i] in g && |g[order[i]]| <= n) && n <= m
    ensures Rounds(order, g, m) == Rounds(order, g, n)
  {
    hide Column;
    if n < m {
      RoundsStable(order, g, n, m - 1);
      ColumnEmpty(order, g, m - 1);
      assert Rounds(order, g, m - 1) + [] == Rounds(order, g, m - 1);
    }
  }

  /** Every intermediate state of the round robin is a prefix of the full interleaving. */
  lemma {:induction false} PartialPrefix(order: seq<Unit>, g: Groups, n: nat, j: nat)
    requires (forall i | 0 <= i < |order| :: order[i] in g) && j <= |order|
    ensures Partial(order, g, n, j) <= Rounds(order, g, Longest(order, g))
  {
    hide Column, Longest;
    var N := Longest(order, g);
    ColumnPrefix(order, g, n, j);
    assert Partial(order, g, n, j) <= Rounds(order, g, n + 1);
    if n + 1 <= N { RoundsPrefix(order, g, n + 1, N); } else { RoundsStable(order, g, N, n + 1); }
  }

  // --- the code ---------------------------------------------------------------------------------------

  method SplitBySkip(ps: seq<Candidate>) returns (appliable: seq<Candidate>, skipped: seq<Candidate>)
    ensures appliable == Appliable(ps) && skipped == AlreadySkipped(ps)
  {
    appliable, skipped := [], [];
    for i := 0 to |ps|
      invariant appliable == Appliable(ps[..i]) && skipped == AlreadySkipped(ps[..i])
    {
      assert ps[..i + 1][..i] == ps[..i];
      if ps[i].skipped { skipped := skipped + [ps[i]]; } else { appliable := appliable + [ps[i]]; }
    }
    assert ps[..|ps|] == ps;
  }

  /** Every class seen so far, with its candidates in input order. */
  ghost predicate GroupedSoFar(ps: seq<Candidate>, order: seq<Unit>, g: Groups) {
    order == ClassOrder(ps) && (forall u :: u in g <==> u in order) && forall u | u in g :: g[u] == OfClass(ps, u)
  }

  method GroupByClass(ps: seq<Candidate>) returns (order: seq<Unit>, g: Groups)
    ensures GroupedSoFar(ps, order, g)
  {
    order, g := [], map[];
    for i := 0 to |ps|
      invariant GroupedSoFar(ps[..i], order, g)
    {
      assert ps[..i + 1][..i] == ps[..i] && ps[..i + 1][i] == ps[i];
      var u := ps[i].unit;
      if u !in g {
        OfNoClass(ps[..i], u);
        order, g := order + [u], g[u := []];
      }
      g := g[u := g[u] + [ps[i]]];
    }
    assert ps[..|ps|] == ps;
  }

  method RankClasses(ps: seq<Candidate>) returns (order: seq<Unit>, g: Groups)
    ensures order == ClassOrder(ps) && g == Ranked(ps)
  {
    hide ClassOrder, LexLeq, OfClass;
    var groups;
    order, groups := GroupByClass(ps);
    g := map[];
    for i := 0 to |order|
      invariant forall u :: u in g <==> u in order[..i]
      invariant forall u | u in g :: g[u] == Sort(RanksBefore, OfClass(ps, u))
    {
      assert order[..i + 1] == order[..i] + [order[i]];
      g := g[order[i] := Sort(RanksBefore, groups[order[i]])];
    }
    assert order[..|order|] == order;
  }

  lemma {:induction false} OfNoClass(ps: seq<Candidate>, u: Unit)
    requires u !in ClassOrder(ps)
    ensures OfClass(ps, u) == []
  {
    if ps != [] { OfNoClass(ps[..|ps| - 1], u); }
  }

  lemma {:induction false} OrderDistinct(ps: seq<Candidate>)
    ensures Distinct(ClassOrder(ps))
    ensures forall p | p in ps :: p.unit in ClassOrder(ps)
  {
    if ps != [] {
      OrderDistinct(ps[..|ps| - 1]);
      assert ps == ps[..|ps| - 1] + [ps[|ps| - 1]];
    }
  }

  /** Candidates a class has given after `n` full rounds, plus one if its turn has come. */
  function Taken(size: nat, n: nat, turn: bool): nat { Min(if turn then n + 1 else n, size) }

  ghost predicate CursorsAt(order: seq<Unit>, g: Groups, cursor: map<Unit, nat>, n: nat, j: int) {
    forall i | 0 <= i < |order| :: order[i] in g && order[i] in cursor && cursor[order[i]] == Taken(|g[order[i]]|, n, i < j)
  }

  predicate Open(order: seq<Unit>, g: Groups, cursor: map<Unit, nat>)
    requires forall i | 0 <= i < |order| :: order[i] in g && order[i] in cursor
  {
    exists i | 0 <= i < |order| :: cursor[order[i]] < |g[order[i]]|
  }

  /** One pass over the classes; it stops early when the budget is used up. */
  method OneRound(order: seq<Unit>, g: Groups, budget: int, before: seq<Candidate>, cursors: map<Unit, nat>, ghost n: nat)
    returns (selected: seq<Candidate>, cursor: map<Unit, nat>, ghost j: nat)
    requires Grouped(order, g) && CursorsAt(order, g, cursors, n, 0) && before == Rounds(order, g, n) && |before| < budget
    ensures j <= |order| && selected == Partial(order, g, n, j) && |selected| <= budget
    ensures j < |order| ==> |selected| == budget
    ensures CursorsAt(order, g, cursor, n, j)
  {
    selected, cursor, j := before, cursors, 0;
    assert order[..0] == [];
    for k := 0 to |order|
      invariant j == k && CursorsAt(order, g, cursor, n, j)
      invariant selected == Partial(order, g, n, j) && |selected| <= budget
    {
      if |selected| >= budget { return; }
      var u := order[k];
      assert order[..k + 1][..k] == order[..k];
      if cursor[u] < |g[u]| {
        selected := selected + [g[u][cursor[u]]];
        cursor := cursor[u := cursor[u] + 1];
      }
      j := k + 1;
    }
  }

  method RoundRobin(order: seq<Unit>, g: Groups, budget: int) returns (selected: seq<Candidate>)
    requires Grouped(order, g)
    ensures selected == Select(order, g, budget)
  {
    hide Column, Longest;
    selected := [];
    var cursor: map<Unit, nat> := map u | u in order :: 0;
    ghost var n := 0;
    while |selected| < budget && Open(order, g, cursor)
      invariant CursorsAt(order, g, cursor, n, 0)
      invariant selected == Rounds(order, g, n)
      invariant n > 0 ==> |selected| <= budget
      decreases Longest(order, g) - n
    {
      ghost var j;
      selected, cursor, j := OneRound(order, g, budget, selected, cursor, n);
      if |selected| == budget {
        PartialPrefix(order, g, n, j);
        return;
      }
      assert order[..|order|] == order;
      n := n + 1;
    }
    Finished(order, g, cursor, n, budget);
  }

  lemma {:induction false} Finished(order: seq<Unit>, g: Groups, cursor: map<Unit, nat>, n: nat, budget: int)
    requires CursorsAt(order, g, cursor, n, 0)
    requires n > 0 ==> |Rounds(order, g, n)| <= budget
    requires |Rounds(order, g, n)| >= budget || !Open(order, g, cursor)
    ensures Rounds(order, g, n) == Select(order, g, budget)
  {
    var N := Longest(order, g);
    assert order[..0] == [];
    PartialPrefix(order, g, n, 0);
    if !Open(order, g, cursor) {
      assert forall i | 0 <= i < |order| :: |g[order[i]]| <= n;
      if n <= N { RoundsStable(order, g, n, N); } else { RoundsStable(order, g, N, n); }
    }
  }

  function Ids(ps: seq<Candidate>): set<string> { set p | p in ps :: p.id }

  function Unpicked(group: seq<Candidate>, ids: set<string>): seq<Candidate> {
    if group == [] then []
    else
      var p := group[|group| - 1];
      Unpicked(group[..|group| - 1], ids) + if p.id in ids then [] else [p]
  }

  /** What the budget leaves out, class by class. */
  function Outranked(order: seq<Unit>, g: Groups, ids: set<string>): seq<Candidate>
    requires forall i | 0 <= i < |order| :: order[i] in g
  {
    if order == [] then [] else Outranked(order[..|order| - 1], g, ids) + Unpicked(g[order[|order| - 1]], ids)
  }

  function Selected(ps: seq<Candidate>, budget: int): seq<Candidate> {
    Select(ClassOrder(Appliable(ps)), Ranked(Appliable(ps)), budget)
  }

  function Dropped(ps: seq<Candidate>, budget: int): seq<Candidate> {
    Outranked(ClassOrder(Appliable(ps)), Ranked(Appliable(ps)), Ids(Selected(ps, budget))) + AlreadySkipped(ps)
  }

  method UnpickedOf(group: seq<Candidate>, ids: set<string>) returns (left: seq<Candidate>)
    ensures left == Unpicked(group, ids)
  {
    left := [];
    for r := 0 to |group|
      invariant left == Unpicked(group[..r], ids)
    {
      assert group[..r + 1][..r] == group[..r];
      if group[r].id !in ids { left := left + [group[r]]; }
    }
    assert group[..|group|] == group;
  }

  method LeaveOut(order: seq<Unit>, g: Groups, ids: set<string>) returns (dropped: seq<Candidate>)
    requires forall i | 0 <= i < |order| :: order[i] in g
    ensures dropped == Outranked(order, g, ids)
  {
    dropped := [];
    for i := 0 to |order|
      invariant dropped == Outranked(order[..i], g, ids)
    {
      assert order[..i + 1][..i] == order[..i];
      var left := UnpickedOf(g[order[i]], ids);
      dropped := dropped + left;
    }
    assert order[..|order|] == order;
  }

  /** Selected patches, and the dropped ones that still appear in the report. */
  method RankAndSelect(ps: seq<Candidate>, budget: int) returns (selected: seq<Candidate>, dropped: seq<Candidate>)
    ensures selected == Selected(ps, budget) && dropped == Dropped(ps, budget)
  {
    var appliable, skipped := SplitBySkip(ps);
    var order, g := RankClasses(appliable);
    RankedGrouped(appliable);
    selected := RoundRobin(order, g, budget);
    dropped := LeaveOut(order, g, Ids(selected));
    dropped := dropped + skipped;
  }

  // --- what each class contributes ---------------------------------------------------------------------

  lemma {:induction false} OfClassAppend(a: seq<Candidate>, b: seq<Candidate>, u: Unit)
    ensures OfClass(a + b, u) == OfClass(a, u) + OfClass(b, u)
  {
    if b == [] {
      assert a + b == a;
    } else {
      hide OfClass;
      var k := |b| - 1;
      OfClassAppend(a, b[..k], u);
      AppendInit(a, b);
      OfClassLast(a + b, u);
      OfClassLast(b, u);
      Assoc(OfClass(a, u), OfClass(b[..k], u), if b[k].unit == u then [b[k]] else []);
    }
  }

  lemma OfNothing(u: Unit)
    ensures OfClass([], u) == []
  {
  }

  lemma OfClassLast(ps: seq<Candidate>, u: Unit)
    requires ps != []
    ensures var k := |ps| - 1; OfClass(ps, u) == OfClass(ps[..k], u) + if ps[k].unit == u then [ps[k]] else []
  {
  }

  lemma {:induction false} OfClassUniform(ps: seq<Candidate>, u: Unit, v: Unit)
    requires forall k | 0 <= k < |ps| :: ps[k].unit == v
    ensures OfClass(ps, u) == if u == v then ps else []
  {
    if ps != [] { OfClassUniform(ps[..|ps| - 1], u, v); }
  }

  lemma {:induction false} OfClassMembers(ps: seq<Candidate>, u: Unit)
    ensures forall k | 0 <= k < |OfClass(ps, u)| :: OfClass(ps, u)[k].unit == u
  {
    if ps != [] { OfClassMembers(ps[..|ps| - 1], u); }
  }

  lemma {:induction false} RankedGrouped(ps: seq<Candidate>)
    ensures Grouped(ClassOrder(ps), Ranked(ps))
  {
    OrderDistinct(ps);
    forall u, k | u in Ranked(ps) && 0 <= k < |Ranked(ps)[u]| ensures Ranked(ps)[u][k].unit == u {
      OfClassMembers(ps, u);
      var s := Sort(RanksBefore, OfClass(ps, u));
      assert s[k] in multiset(OfClass(ps, u));
      assert s[k] in OfClass(ps, u);
    }
  }

  lemma LastClass(order: seq<Unit>, g: Groups, u: Unit)
    requires Grouped(order, g) && order != []
    ensures var init, v := order[..|order| - 1], order[|order| - 1];
            && Grouped(init, g) && v in g && v !in init
            && (u in order <==> u in init || u == v)
  {
    InitLast(order);
  }

  lemma {:induction false} ColumnOfClass(order: seq<Unit>, g: Groups, rank: nat, u: Unit)
    requires Grouped(order, g)
    ensures OfClass(Column(order, g, rank), u) == if u in order && rank < |g[u]| then [g[u][rank]] else []
  {
    if order != [] {
      var init, v := order[..|order| - 1], order[|order| - 1];
      LastClass(order, g, u);
      ColumnOfClass(init, g, rank, u);
      var x := if rank < |g[v]| then [g[v][rank]] else [];
      assert Column(order, g, rank) == Column(init, g, rank) + x;
      OfClassUniform(x, u, v);
      OfClassAppend(Column(init, g, rank), x, u);
    }
  }

  /** The first `n` of class `u`, as far as they go. */
  ghost function FirstOf(order: seq<Unit>, g: Groups, n: nat, u: Unit): seq<Candidate>
    requires forall i | 0 <= i < |order| :: order[i] in g
  {
    if u in order then g[u][..Min(n, |g[u]|)] else []
  }

  lemma FirstOfStep(order: seq<Unit>, g: Groups, n: nat, u: Unit)
    requires n > 0 && forall i | 0 <= i < |order| :: order[i] in g
    ensures FirstOf(order, g, n, u)
         == FirstOf(order, g, n - 1, u) + if u in order && n - 1 < |g[u]| then [g[u][n - 1]] else []
  {
    if u in order {
      var s := g[u];
      assert s[..Min(n - 1, |s|)] + (if n - 1 < |s| then [s[n - 1]] else []) == s[..Min(n, |s|)];
    }
  }

  /** What one more round adds to a class. */
  lemma {:induction false} RoundOfClass(order: seq<Unit>, g: Groups, n: nat, u: Unit)
    requires Grouped(order, g) && n > 0
    requires OfClass(Rounds(order, g, n - 1), u) == FirstOf(order, g, n - 1, u)
    ensures OfClass(Rounds(order, g, n), u) == FirstOf(order, g, n, u)
  {
    hide OfClass, Column, FirstOf;
    OfClassAppend(Rounds(order, g, n - 1), Column(order, g, n - 1), u);
    ColumnOfClass(order, g, n - 1, u);
    FirstOfStep(order, g, n, u);
  }

  lemma {:induction false} RoundsOfClass(order: seq<Unit>, g: Groups, n: nat, u: Unit)
    requires Grouped(order, g)
    ensures OfClass(Rounds(order, g, n), u) == FirstOf(order, g, n, u)
  {
    hide Column;
    if n == 0 {
      assert FirstOf(order, g, 0, u) == [];
    } else {
      RoundsOfClass(order, g, n - 1, u);
      RoundOfClass(order, g, n, u);
    }
  }

  lemma FirstOfAll(order: seq<Unit>, g: Groups, u: Unit)
    requires u in order && forall i | 0 <= i < |order| :: order[i] in g
    ensures FirstOf(order, g, Longest(order, g), u) == g[u]
  {
    var i :| 0 <= i < |order| && order[i] == u;
    assert g[u][..|g[u]|] == g[u];
  }

  lemma {:induction false} PartialOfClass(order: seq<Unit>, g: Groups, n: nat, j: nat, i: nat)
    requires Grouped(order, g) && j <= |order| && i < |order|
    ensures OfClass(Partial(order, g, n, j), order[i]) == g[order[i]][..Taken(|g[order[i]]|, n, i < j)]
  {
    hide Column, OfClass, Rounds;
    var u := order[i];
    RoundsOfClass(order, g, n, u);
    assert Grouped(order[..j], g);
    ColumnOfClass(order[..j], g, n, u);
    assert u in order[..j] <==> i < j by {
      if i < j { assert order[..j][i] == u; }
    }
    OfClassAppend(Rounds(order, g, n), Column(order[..j], g, n), u);
  }

  lemma {:induction false} ColumnCut(order: seq<Unit>, g: Groups, rank: nat, k: nat) returns (j: nat)
    requires (forall i | 0 <= i < |order| :: order[i] in g) && k <= |Column(order, g, rank)|
    ensures j <= |order| && Column(order[..j], g, rank) == Column(order, g, rank)[..k]
  {
    var c := Column(order, g, rank);
    if k == |c| {
      j := |order|;
      assert order[..j] == order && c[..k] == c;
    } else {
      var init := order[..|order| - 1];
      j := ColumnCut(init, g, rank, k);
      assert init[..j] == order[..j] && Column(init, g, rank)[..k] == c[..k];
    }
  }

  lemma {:induction false} RoundsCut(order: seq<Unit>, g: Groups, n: nat, k: nat) returns (m: nat, j: nat)
    requires (forall i | 0 <= i < |order| :: order[i] in g) && k <= |Rounds(order, g, n)|
    ensures j <= |order| && Partial(order, g, m, j) == Rounds(order, g, n)[..k]
  {
    if n == 0 {
      m, j := 0, 0;
      assert order[..0] == [];
    } else {
      var before, c := Rounds(order, g, n - 1), Column(order, g, n - 1);
      if k <= |before| {
        m, j := RoundsCut(order, g, n - 1, k);
        assert before[..k] == (before + c)[..k];
      } else {
        m := n - 1;
        j := ColumnCut(order, g, n - 1, k - |before|);
        assert (before + c)[..k] == before + c[..k - |before|];
      }
    }
  }

  /** How many candidates of class `u` a selection holds. */
  function Given(selected: seq<Candidate>, u: Unit): nat { |OfClass(selected, u)| }

  lemma {:induction false} SelectFairly(order: seq<Unit>, g: Groups, budget: int)
    requires Grouped(order, g)
    ensures var s := Select(order, g, budget);
            && (forall u | u in order :: OfClass(s, u) <= g[u])
            && forall u, v | u in order && v in order :: Given(s, u) >= Given(s, v) - 1 || OfClass(s, u) == g[u]
  {
    var s := Select(order, g, budget);
    var all := Rounds(order, g, Longest(order, g));
    var n, j := RoundsCut(order, g, Longest(order, g), |s|);
    assert s == Partial(order, g, n, j);
    forall u | u in order
      ensures OfClass(s, u) <= g[u] && (Given(s, u) >= n || OfClass(s, u) == g[u]) && Given(s, u) <= n + 1
    {
      var i :| 0 <= i < |order| && order[i] == u;
      PartialOfClass(order, g, n, j, i);
      assert g[u][..|g[u]|] == g[u];
    }
  }

  /** The appliable patches of a class, ranked. */
  function RankedClass(ps: seq<Candidate>, u: Unit): seq<Candidate> { Sort(RanksBefore, OfClass(Appliable(ps), u)) }

  lemma {:induction false} AbsentGivesNothing(order: seq<Unit>, g: Groups, budget: int, u: Unit)
    requires Grouped(order, g) && u !in order
    ensures OfClass(Select(order, g, budget), u) == []
  {
    hide OfClass, Rounds, Longest;
    var s, all := Select(order, g, budget), Rounds(order, g, Longest(order, g));
    RoundsOfClass(order, g, Longest(order, g), u);
    assert all == s + all[|s|..];
    OfClassAppend(s, all[|s|..], u);
  }

  /** What one class gives of its ranked patches, present or not. */
  lemma {:induction false} ClassGives(ps: seq<Candidate>, budget: int, u: Unit)
    ensures var a, s := Appliable(ps), Selected(ps, budget);
            u !in ClassOrder(a) ==> OfClass(s, u) == [] && RankedClass(ps, u) == []
  {
    hide Appliable, ClassOrder, OfClass, Select;
    var a := Appliable(ps);
    RankedGrouped(a);
    if u !in ClassOrder(a) {
      OfNoClass(a, u);
      AbsentGivesNothing(ClassOrder(a), Ranked(a), budget, u);
    }
  }

  /** Each class contributes a prefix of its ranked patches, and a class is behind another by more than
      one only when it is exhausted. */
  lemma {:induction false} SelectionIsFair(ps: seq<Candidate>, budget: int, u: Unit, v: Unit)
    ensures var s := Selected(ps, budget);
            && OfClass(s, u) <= RankedClass(ps, u)
            && (Given(s, u) >= Given(s, v) - 1 || OfClass(s, u) == RankedClass(ps, u))
  {
    hide Appliable, ClassOrder, OfClass, Select, Sort;
    var a := Appliable(ps);
    RankedGrouped(a);
    SelectFairly(ClassOrder(a), Ranked(a), budget);
    ClassGives(ps, budget, u);
    ClassGives(ps, budget, v);
  }

  // --- conservation ---------------------------------------------------------------------------------------

  lemma {:induction false} CountOfClass(ps: seq<Candidate>, x: Candidate)
    ensures multiset(ps)[x] == multiset(OfClass(ps, x.unit))[x]
  {
    hide OfClass;
    if ps == [] {
      OfNothing(x.unit);
    } else {
      var k := |ps| - 1;
      CountOfClass(ps[..k], x);
      InitLast(ps);
      MultisetLast(ps[..k], ps[k]);
      OfClassLast(ps, x.unit);
      if ps[k].unit == x.unit { MultisetLast(OfClass(ps[..k], x.unit), ps[k]); }
      else { assert OfClass(ps[..k], x.unit) + [] == OfClass(ps[..k], x.unit); }
    }
  }

  lemma {:induction false} InterleavedOfClass(ps: seq<Candidate>, u: Unit)
    ensures var order, g := ClassOrder(ps), Ranked(ps);
            multiset(OfClass(Rounds(order, g, Longest(order, g)), u)) == multiset(OfClass(ps, u))
  {
    var order, g := ClassOrder(ps), Ranked(ps);
    RankedGrouped(ps);
    RoundsOfClass(order, g, Longest(order, g), u);
    if u in order {
      FirstOfAll(order, g, u);
      assert g[u] == Sort(RanksBefore, OfClass(ps, u));
    } else {
      OfNoClass(ps, u);
    }
  }

  lemma {:induction false} FullInterleaving(ps: seq<Candidate>)
    ensures var order, g := ClassOrder(ps), Ranked(ps);
            multiset(Rounds(order, g, Longest(order, g))) == multiset(ps)
  {
    var order, g := ClassOrder(ps), Ranked(ps);
    var all := Rounds(order, g, Longest(order, g));
    forall x ensures multiset(all)[x] == multiset(ps)[x] {
      CountOfClass(all, x);
      CountOfClass(ps, x);
      InterleavedOfClass(ps, x.unit);
    }
  }

  lemma {:induction false} SkipSplit(ps: seq<Candidate>)
    ensures multiset(ps) == multiset(Appliable(ps)) + multiset(AlreadySkipped(ps))
  {
    if ps != [] {
      var init, last := ps[..|ps| - 1], ps[|ps| - 1];
      SkipSplit(init);
      MultisetLast(init, last);
      InitLast(ps);
      if last.skipped {
        assert Appliable(ps) == Appliable(init) + [] == Appliable(init);
        MultisetLast(AlreadySkipped(init), last);
      } else {
        assert AlreadySkipped(ps) == AlreadySkipped(init) + [] == AlreadySkipped(init);
        MultisetLast(Appliable(init), last);
      }
    }
  }

  lemma MultisetLast(s: seq<Candidate>, x: Candidate)
    ensures multiset(s + [x]) == multiset(s) + multiset{x}
  {
  }

  /** The selection has as many patches as the budget and the appliable patches allow. */
  lemma {:induction false} SelectionSize(ps: seq<Candidate>, budget: int)
    ensures |Selected(ps, budget)| == Max(0, Min(budget, |Appliable(ps)|))
  {
    FullInterleaving(Appliable(ps));
    var order, g := ClassOrder(Appliable(ps)), Ranked(Appliable(ps));
    SameSize(Rounds(order, g, Longest(order, g)), Appliable(ps));
  }

  ghost predicate UniqueIds(ps: seq<Candidate>) { forall i, j | 0 <= i < j < |ps| :: ps[i].id != ps[j].id }

  lemma {:induction false} UnpickedNone(a: seq<Candidate>, ids: set<string>)
    requires forall i | 0 <= i < |a| :: a[i].id in ids
    ensures Unpicked(a, ids) == []
  {
    if a != [] { UnpickedNone(a[..|a| - 1], ids); }
  }

  lemma {:induction false} UnpickedAppend(a: seq<Candidate>, b: seq<Candidate>, ids: set<string>)
    requires forall i | 0 <= i < |a| :: a[i].id in ids
    requires forall i | 0 <= i < |b| :: b[i].id !in ids
    ensures Unpicked(a + b, ids) == b
  {
    if b == [] {
      assert a + b == a;
      UnpickedNone(a, ids);
    } else {
      var k := |b| - 1;
      UnpickedAppend(a, b[..k], ids);
      assert (a + b)[..|a| + k] == a + b[..k] && (a + b)[|a| + k] == b[k];
    }
  }

  lemma {:induction false} UnpickedUnit(group: seq<Candidate>, ids: set<string>, v: Unit)
    requires forall k | 0 <= k < |group| :: group[k].unit == v
    ensures forall k | 0 <= k < |Unpicked(group, ids)| :: Unpicked(group, ids)[k].unit == v
  {
    if group != [] { UnpickedUnit(group[..|group| - 1], ids, v); }
  }

  lemma {:induction false} OutrankedOfClass(order: seq<Unit>, g: Groups, ids: set<string>, u: Unit)
    requires Grouped(order, g)
    ensures OfClass(Outranked(order, g, ids), u) == if u in order then Unpicked(g[u], ids) else []
  {
    hide OfClass, Unpicked;
    if order == [] {
      OfNothing(u);
    } else {
      var init, v := order[..|order| - 1], order[|order| - 1];
      LastClass(order, g, u);
      OutrankedOfClass(init, g, ids, u);
      var x := Unpicked(g[v], ids);
      assert Outranked(order, g, ids) == Outranked(init, g, ids) + x;
      UnpickedUnit(g[v], ids, v);
      OfClassUniform(x, u, v);
      OfClassAppend(Outranked(init, g, ids), x, u);
    }
  }

  lemma PrefixMembers(s: seq<Candidate>, all: seq<Candidate>, a: seq<Candidate>)
    requires s <= all && multiset(all) == multiset(a)
    ensures forall p | p in s :: p in a
  {
    forall p | p in s ensures p in a { assert p in multiset(all); }
  }

  lemma TwoOccurrences(s: seq<Candidate>, n: nat, k: nat, y: Candidate)
    requires n <= k < |s| && y in s[..n] && s[k] == y
    ensures multiset(s)[y] >= 2
  {
    assert s == s[..n] + s[n..];
    assert s[n..][k - n] == y;
    assert y in multiset(s[..n]) && y in multiset(s[n..]);
  }

  lemma {:induction false} OfClassIds(ps: seq<Candidate>, u: Unit)
    ensures forall p | p in OfClass(ps, u) :: p in ps && p.id in Ids(ps)
  {
    if ps != [] {
      OfClassIds(ps[..|ps| - 1], u);
      InitLast(ps);
    }
  }

  /** Of candidates with unique ids, those that come later share no id with those before. */
  lemma LaterIds(s: seq<Candidate>, rest: seq<Candidate>)
    requires UniqueIds(s + rest)
    ensures forall p | p in rest :: p.id !in Ids(s)
  {
    forall p, q | p in rest && q in s ensures p.id != q.id {
      var i :| 0 <= i < |s| && s[i] == q;
      var j :| 0 <= j < |rest| && rest[j] == p;
      assert (s + rest)[i] == q && (s + rest)[|s| + j] == p;
    }
  }

  /** What a class leaves out is the rest of its ranked list. */
  lemma {:induction false} UnpickedRest(group: seq<Candidate>, s: seq<Candidate>, rest: seq<Candidate>, u: Unit)
    requires UniqueIds(s + rest) && group == OfClass(s, u) + OfClass(rest, u)
    ensures Unpicked(group, Ids(s)) == OfClass(rest, u)
  {
    hide OfClass, Unpicked, UniqueIds;
    var taken, left := OfClass(s, u), OfClass(rest, u);
    OfClassIds(s, u);
    OfClassIds(rest, u);
    LaterIds(s, rest);
    forall i | 0 <= i < |taken| ensures taken[i].id in Ids(s) { assert taken[i] in taken; }
    forall i | 0 <= i < |left| ensures left[i].id !in Ids(s) { assert left[i] in left; }
    UnpickedAppend(taken, left, Ids(s));
  }

  /** Of each class, exactly the unselected candidates are left out. */
  lemma {:induction false} ClassConserved(order: seq<Unit>, g: Groups, s: seq<Candidate>, rest: seq<Candidate>, u: Unit)
    requires Grouped(order, g) && s + rest == Rounds(order, g, Longest(order, g)) && UniqueIds(s + rest)
    ensures OfClass(Outranked(order, g, Ids(s)), u) == OfClass(rest, u)
  {
    hide OfClass, UniqueIds, Rounds, Longest, Outranked, Unpicked, Ids;
    OutrankedOfClass(order, g, Ids(s), u);
    RoundsOfClass(order, g, Longest(order, g), u);
    OfClassAppend(s, rest, u);
    if u in order {
      FirstOfAll(order, g, u);
      UnpickedRest(g[u], s, rest, u);
    } else {
      NoneFirst(order, g, Longest(order, g), u);
      assert OfClass(rest, u) == [];
    }
  }

  lemma NoneFirst(order: seq<Unit>, g: Groups, n: nat, u: Unit)
    requires u !in order && forall i | 0 <= i < |order| :: order[i] in g
    ensures FirstOf(order, g, n, u) == []
  {
  }

  /** With unique ids the candidates left out are those not selected. */
  lemma {:induction false} RestLeftOut(order: seq<Unit>, g: Groups, s: seq<Candidate>, rest: seq<Candidate>)
    requires Grouped(order, g) && s + rest == Rounds(order, g, Longest(order, g)) && UniqueIds(s + rest)
    ensures multiset(Outranked(order, g, Ids(s))) == multiset(rest)
  {
    hide OfClass, UniqueIds, Rounds, Longest, Outranked, Ids;
    var o := Outranked(order, g, Ids(s));
    forall x ensures multiset(o)[x] == multiset(rest)[x] {
      CountOfClass(o, x);
      CountOfClass(rest, x);
      ClassConserved(order, g, s, rest, x.unit);
    }
  }

  /** Nothing is lost and nothing is reported twice: selected and dropped patches together are the
      input. */
  ghost predicate Conserved(ps: seq<Candidate>, budget: int) {
    multiset(Selected(ps, budget)) + multiset(Dropped(ps, budget)) == multiset(ps)
  }

  lemma {:induction false} UniqueConserved(ps: seq<Candidate>, budget: int)
    requires UniqueIds(Appliable(ps))
    ensures Conserved(ps, budget)
  {
    hide Appliable, AlreadySkipped, Outranked, ClassOrder, Ranked, Ids, Rounds, Longest, UniqueIds;
    var a, s := Appliable(ps), Selected(ps, budget);
    RankedGrouped(a);
    FullInterleaving(a);
    var order, g := ClassOrder(a), Ranked(a);
    var all := Rounds(order, g, Longest(order, g));
    var rest := all[|s|..];
    assert s + rest == all;
    StillUnique(a, all);
    RestLeftOut(order, g, s, rest);
    SkipSplit(ps);
    MultisetConcat(s, rest);
    MultisetConcat(Outranked(order, g, Ids(s)), AlreadySkipped(ps));
  }

  lemma StillUnique(a: seq<Candidate>, all: seq<Candidate>)
    requires multiset(a) == multiset(all) && UniqueIds(a)
    ensures UniqueIds(all)
  {
    if !UniqueIds(all) { var i, j := RepeatedId(all, a); }
  }

  lemma MultisetConcat(a: seq<Candidate>, b: seq<Candidate>)
    ensures multiset(a + b) == multiset(a) + multiset(b)
  {
  }

  lemma TwoPlaces(s: seq<Candidate>, y: Candidate) returns (i: nat, j: nat)
    requires multiset(s)[y] >= 2
    ensures i < j < |s| && s[i] == s[j] == y
  {
    var k :| 0 <= k < |s| && s[k] == y;
    assert s == s[..k] + [y] + s[k + 1..];
    if y in s[..k] {
      i :| 0 <= i < k && s[..k][i] == y;
      j := k;
    } else {
      assert y in multiset(s[k + 1..]);
      var l :| 0 <= l < |s[k + 1..]| && s[k + 1..][l] == y;
      i, j := k, k + 1 + l;
    }
  }

  /** An id that occurs twice occurs twice in every arrangement. */
  lemma {:induction false} RepeatedId(a: seq<Candidate>, all: seq<Candidate>) returns (i: nat, j: nat)
    requires multiset(a) == multiset(all) && !UniqueIds(a)
    ensures i < j < |all| && all[i].id == all[j].id
  {
    var k, l :| 0 <= k < l < |a| && a[k].id == a[l].id;
    if a[k] == a[l] {
      TwoOccurrences(a, l, l, a[k]);
      i, j := TwoPlaces(all, a[k]);
    } else {
      assert a[k] in multiset(all) && a[l] in multiset(all);
      var x: nat :| x < |all| && all[x] == a[k];
      var y: nat :| y < |all| && all[y] == a[l];
      if x < y { i, j := x, y; } else { i, j := y, x; }
    }
  }

  lemma {:induction false} UnpickedIds(group: seq<Candidate>, ids: set<string>)
    ensures forall p | p in Unpicked(group, ids) :: p.id !in ids
  {
    if group != [] { UnpickedIds(group[..|group| - 1], ids); }
  }

  lemma {:induction false} OutrankedIds(order: seq<Unit>, g: Groups, ids: set<string>)
    requires forall i | 0 <= i < |order| :: order[i] in g
    ensures forall p | p in Outranked(order, g, ids) :: p.id !in ids
  {
    if order != [] {
      OutrankedIds(order[..|order| - 1], g, ids);
      UnpickedIds(g[order[|order| - 1]], ids);
    }
  }

  lemma CutCount(all: seq<Candidate>, i: nat, j: nat)
    requires i < j < |all|
    ensures multiset(all[..i + 1])[all[j]] < multiset(all)[all[j]]
  {
    assert all == all[..i + 1] + all[i + 1..];
    assert all[i + 1..][j - i - 1] == all[j];
    assert all[j] in multiset(all[i + 1..]);
  }

  /** Two patches of one id in the interleaving: a budget that ends just after the first loses the
      second. */
  lemma {:induction false} SecondIsLost(ps: seq<Candidate>, all: seq<Candidate>, i: nat, j: nat)
    requires var a := Appliable(ps);
             all == Rounds(ClassOrder(a), Ranked(a), Longest(ClassOrder(a), Ranked(a)))
    requires i < j < |all| && all[i].id == all[j].id
    ensures !Conserved(ps, i + 1)
  {
    hide Appliable, AlreadySkipped, ClassOrder, Ranked, Rounds, Longest, Outranked;
    var a, s, y := Appliable(ps), Selected(ps, i + 1), all[j];
    RankedGrouped(a);
    var o := Outranked(ClassOrder(a), Ranked(a), Ids(s));
    assert s == all[..i + 1];
    assert s[i] in s && y.id in Ids(s);
    OutrankedIds(ClassOrder(a), Ranked(a), Ids(s));
    assert y !in o && y !in multiset(o);
    CutCount(all, i, j);
    FullInterleaving(a);
    SkipSplit(ps);
    MultisetConcat(o, AlreadySkipped(ps));
    assert multiset(s)[y] + multiset(Dropped(ps, i + 1))[y] < multiset(ps)[y];
  }

  /** Selected and dropped patches are a permutation of the input, under every budget, exactly when
      the ids of the appliable patches are unique. */
  lemma {:induction false} NothingLost(ps: seq<Candidate>)
    ensures (forall budget :: Conserved(ps, budget)) <==> UniqueIds(Appliable(ps))
  {
    hide Conserved, Appliable, ClassOrder, Ranked, Rounds, Longest;
    var a := Appliable(ps);
    if UniqueIds(a) {
      forall budget ensures Conserved(ps, budget) { UniqueConserved(ps, budget); }
    } else {
      RankedGrouped(a);
      FullInterleaving(a);
      var all := Rounds(ClassOrder(a), Ranked(a), Longest(ClassOrder(a), Ranked(a)));
      var i, j := RepeatedId(a, all);
      SecondIsLost(ps, all, i, j);
    }
  }

  lemma {:induction false} TwinInput(c: Candidate)
    requires !c.skipped
    ensures Appliable([c, c]) == [c, c] && AlreadySkipped([c, c]) == [] && ClassOrder([c, c]) == [c.unit]
  {
    var one := [c];
    assert [c, c][..1] == one && one[..0] == [];
    assert Appliable(one) == Appliable(one[..0]) + one && AlreadySkipped(one) == AlreadySkipped(one[..0]) + [];
    assert ClassOrder(one[..0]) == [];
    assert ClassOrder(one) == [] + [c.unit];
  }

  lemma {:induction false} TwinsAllPicked(c: Candidate, ids: set<string>)
    requires c.id in ids && ClassOrder([c, c]) == [c.unit]
    ensures Outranked([c.unit], Ranked([c, c]), ids) == []
  {
    hide ClassOrder, LexLeq, OfClass, Unpicked;
    var ps, g := [c, c], Ranked([c, c]);
    var group := g[c.unit];
    forall i | 0 <= i < |group| ensures group[i].id in ids {
      assert group[i] in multiset(OfClass(ps, c.unit));
      OfClassMembers(ps, c.unit);
      CountOfClass(ps, group[i]);
      assert group[i] in multiset(ps);
    }
    UnpickedNone(group, ids);
    assert [c.unit][..0] == [];
  }

  /** Two appliable patches with one id: with a budget of one the other disappears from both lists. */
  lemma {:induction false} DuplicateIdLost(c: Candidate)
    requires !c.skipped
    ensures |Selected([c, c], 1)| + |Dropped([c, c], 1)| == 1
  {
    hide Appliable, AlreadySkipped, ClassOrder, Rounds, Longest, OfClass, LexLeq, Outranked;
    var ps := [c, c];
    TwinInput(c);
    SelectionSize(ps, 1);
    var s := Selected(ps, 1);
    RankedGrouped(ps);
    FullInterleaving(ps);
    PrefixMembers(s, Rounds(ClassOrder(ps), Ranked(ps), Longest(ClassOrder(ps), Ranked(ps))), ps);
    assert s[0] in s && s[0] == c;
    TwinsAllPicked(c, Ids(s));
  }
}
