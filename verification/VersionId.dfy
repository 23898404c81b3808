/** The byte string hashed into a harness version id: `_compute_version_id` in
    `interstellar/harness.py`. Text stands for its UTF-8 encoding, and the digest of a text is an
    arbitrary string of 64 hexadecimal digits. */
module VersionId {
  import opened Common

  datatype SkillKey = SkillKey(name: string, sha: string)

  const NUL := '\0'

  // --- the order Python sorts the pairs by -----------------------------------------------------

  predicate KeyLeq(a: SkillKey, b: SkillKey) {
    if a.name == b.name then LexLeq(a.sha, b.sha) else LexLeq(a.name, b.name)
  }

  lemma {:induction false} KeyOrder()
    ensures TotalPreorder(KeyLeq) && Antisymmetric(KeyLeq)
  {
    forall a, b
      ensures KeyLeq(a, b) || KeyLeq(b, a)
      ensures KeyLeq(a, b) && KeyLeq(b, a) ==> a == b
    {
      LexTotal(a.name, b.name);
      LexTotal(a.sha, b.sha);
    }
    forall a, b, c | KeyLeq(a, b) && KeyLeq(b, c)
      ensures KeyLeq(a, c)
    {
      LexTotal(a.name, b.name);
      LexTotal(b.name, c.name);
      LexTotal(a.name, c.name);
      if LexLeq(a.name, b.name) && LexLeq(b.name, c.name) { LexTransitive(a.name, b.name, c.name); }
      if LexLeq(a.sha, b.sha) && LexLeq(b.sha, c.sha) { LexTransitive(a.sha, b.sha, c.sha); }
    }
  }

  // --- the hashed string ------------------------------------------------------------------------

  /** The NUL-separated fields: name and digest of each skill, the configuration digest, the rules. */
  function Fields(keys: seq<SkillKey>, config: string, rules: seq<string>): (r: seq<string>)
    ensures r != []
  {
    if keys == [] then [config] + rules else [keys[0].name, keys[0].sha] + Fields(keys[1..], config, rules)
  }

  function JoinNul(fields: seq<string>): string
    requires fields != []
  {
    if |fields| == 1 then fields[0] else fields[0] + [NUL] + JoinNul(fields[1..])
  }

  function Hashed(skills: seq<SkillKey>, config: string, rules: seq<string>): string {
    JoinNul(Fields(Sort(KeyLeq, skills), config, rules))
  }

  function RuleText(rules: seq<string>): string {
    if rules == [] then "" else RuleText(rules[..|rules| - 1]) + [NUL] + rules[|rules| - 1]
  }

  lemma {:induction false} RulesJoin(config: string, rules: seq<string>)
    ensures JoinNul([config] + rules) == config + RuleText(rules)
  {
    if rules == [] {
      assert [config] + rules == [config];
    } else {
      var k := |rules| - 1;
      RulesJoin(config, rules[..k]);
      JoinLast([config] + rules[..k], rules[k]);
      assert [config] + rules == [config] + rules[..k] + [rules[k]];
    }
  }

  lemma {:induction false} JoinLast(fields: seq<string>, x: string)
    requires fields != []
    ensures JoinNul(fields + [x]) == JoinNul(fields) + [NUL] + x
  {
    if |fields| == 1 {
      assert (fields + [x])[1..] == [x];
    } else {
      JoinLast(fields[1..], x);
      assert (fields + [x])[1..] == fields[1..] + [x];
    }
  }

  function KeyText(keys: seq<SkillKey>): string {
    if keys == [] then "" else keys[0].name + [NUL] + keys[0].sha + [NUL] + KeyText(keys[1..])
  }

  /** Four updates of the digest. */
  lemma FourUpdates(h: string, name: string, sha: string)
    ensures h + name + [NUL] + sha + [NUL] == h + (name + [NUL] + sha + [NUL])
  {
  }

  lemma {:induction false} KeyTextLast(keys: seq<SkillKey>, k: SkillKey)
    ensures KeyText(keys + [k]) == KeyText(keys) + (k.name + [NUL] + k.sha + [NUL])
  {
    var last := k.name + [NUL] + k.sha + [NUL];
    if keys == [] {
      assert keys + [k] == [k] && [k][1..] == [] && KeyText([]) == "";
      assert KeyText([k]) == last + "" == last == "" + last;
    } else {
      var first := keys[0].name + [NUL] + keys[0].sha + [NUL];
      KeyTextLast(keys[1..], k);
      AppendTail(keys, [k]);
      assert KeyText(keys + [k]) == first + (KeyText(keys[1..]) + last);
      assert KeyText(keys) == first + KeyText(keys[1..]);
      Assoc(first, KeyText(keys[1..]), last);
    }
  }

  lemma {:induction false} KeysJoin(keys: seq<SkillKey>, config: string, rules: seq<string>)
    ensures JoinNul(Fields(keys, config, rules)) == KeyText(keys) + config + RuleText(rules)
  {
    hide RuleText;
    if keys == [] {
      RulesJoin(config, rules);
      assert KeyText(keys) + config == config;
    } else {
      var first, more := keys[0].name + [NUL] + keys[0].sha + [NUL], KeyText(keys[1..]);
      KeysJoin(keys[1..], config, rules);
      JoinPair(keys[0], Fields(keys[1..], config, rules));
      assert KeyText(keys) == first + more;
      Assoc(first + more, config, RuleText(rules));
      Assoc(first, more, config + RuleText(rules));
      Assoc(more, config, RuleText(rules));
    }
  }

  lemma JoinPair(k: SkillKey, rest: seq<string>)
    requires rest != []
    ensures JoinNul([k.name, k.sha] + rest) == k.name + [NUL] + k.sha + [NUL] + JoinNul(rest)
  {
    var f := [k.name, k.sha] + rest;
    assert f[1..] == [k.sha] + rest && f[1..][1..] == rest;
    assert JoinNul(f[1..]) == k.sha + [NUL] + JoinNul(rest);
  }

  /** The string fed to the digest for the skills, update by update. */
  method KeyUpdates(keys: seq<SkillKey>) returns (h: string)
    ensures h == KeyText(keys)
  {
    hide KeyText;
    h := "";
    NoKeys();
    for i := 0 to |keys|
      invariant h == KeyText(keys[..i])
    {
      TakeOneMore(keys, i);
      KeyTextLast(keys[..i], keys[i]);
      FourUpdates(h, keys[i].name, keys[i].sha);
      h := h + keys[i].name;
      h := h + [NUL];
      h := h + keys[i].sha;
      h := h + [NUL];
    }
    TakeAll(keys);
  }

  lemma NoKeys()
    ensures KeyText([]) == ""
  {
  }

  /** The string fed to the digest, update by update. */
  method HashInput(skills: seq<SkillKey>, config: string, rules: seq<string>) returns (h: string)
    ensures h == Hashed(skills, config, rules)
  {
    hide Fields, JoinNul, LexLeq, KeyText, Sort;
    var keys := Sort(KeyLeq, skills);
    h := KeyUpdates(keys);
    h := h + config;
    for i := 0 to |rules|
      invariant h == KeyText(keys) + config + RuleText(rules[..i])
    {
      TakeOneMore(rules, i);
      RuleStep(KeyText(keys) + config, RuleText(rules[..i]), rules[i]);
      h := h + [NUL];
      h := h + rules[i];
    }
    TakeAll(rules);
    KeysJoin(keys, config, rules);
  }

  lemma RuleStep(a: string, b: string, rule: string)
    ensures a + b + [NUL] + rule == a + (b + [NUL] + rule)
  {
  }

  // --- unique decodability -----------------------------------------------------------------------

  predicate NulFree(s: string) { NUL !in s }

  predicate IsHex(c: char) { '0' <= c <= '9' || 'a' <= c <= 'f' }

  predicate IsDigest(s: string) { |s| == 64 && forall i | 0 <= i < |s| :: IsHex(s[i]) }

  ghost predicate Decodable(skills: seq<SkillKey>, config: string, rules: seq<string>) {
    && (forall k | k in skills :: NulFree(k.name) && !IsDigest(k.name) && NulFree(k.sha))
    && IsDigest(config)
    && forall r | r in rules :: NulFree(r)
  }

  ghost predicate AllNulFree(fields: seq<string>) { forall i | 0 <= i < |fields| :: NulFree(fields[i]) }

  lemma {:induction false} FieldEnd(a: string, x: string, b: string, y: string)
    requires NulFree(a) && NulFree(b) && a + [NUL] + x == b + [NUL] + y
    ensures a == b && x == y
  {
    var s, t := a + [NUL] + x, b + [NUL] + y;
    assert s[|a|] == NUL && t[|b|] == NUL;
    assert forall i | 0 <= i < |a| :: s[i] == a[i];
    assert forall i | 0 <= i < |b| :: t[i] == b[i];
    assert |a| == |b|;
    assert a == s[..|a|] && b == t[..|b|];
    assert x == s[|a| + 1..] && y == t[|b| + 1..];
  }

  lemma {:induction false} JoinNulFree(f: seq<string>)
    requires f != [] && AllNulFree(f)
    ensures NulFree(JoinNul(f)) <==> |f| == 1
  {
    if |f| > 1 { assert JoinNul(f)[|f[0]|] == NUL; }
  }

  lemma {:induction false} JoinInjective(f: seq<string>, g: seq<string>)
    requires f != [] && g != [] && AllNulFree(f) && AllNulFree(g) && JoinNul(f) == JoinNul(g)
    ensures f == g
  {
    JoinNulFree(f);
    JoinNulFree(g);
    if |f| > 1 {
      FieldEnd(f[0], JoinNul(f[1..]), g[0], JoinNul(g[1..]));
      JoinInjective(f[1..], g[1..]);
    }
  }

  lemma {:induction false} FieldsInjective(a: seq<SkillKey>, c: string, r: seq<string>, b: seq<SkillKey>, d: string, q: seq<string>)
    requires (forall k | k in a :: !IsDigest(k.name)) && (forall k | k in b :: !IsDigest(k.name))
    requires IsDigest(c) && IsDigest(d) && Fields(a, c, r) == Fields(b, d, q)
    ensures a == b && c == d && r == q
  {
    var f, g := Fields(a, c, r), Fields(b, d, q);
    assert f[0] == if a == [] then c else a[0].name;
    assert g[0] == if b == [] then d else b[0].name;
    assert IsDigest(f[0]) <==> a == [];
    assert IsDigest(g[0]) <==> b == [];
    if a == [] {
      assert r == f[1..] && q == g[1..];
    } else {
      assert Fields(a[1..], c, r) == f[2..] && Fields(b[1..], d, q) == g[2..];
      FieldsInjective(a[1..], c, r, b[1..], d, q);
      assert a[0].sha == f[1] && b[0].sha == g[1];
      assert a == [a[0]] + a[1..] && b == [b[0]] + b[1..];
    }
  }

  lemma {:induction false} FieldsNulFree(keys: seq<SkillKey>, config: string, rules: seq<string>)
    requires Decodable(keys, config, rules)
    ensures AllNulFree(Fields(keys, config, rules))
  {
    if keys != [] {
      assert keys[0] in keys;
      FieldsNulFree(keys[1..], config, rules);
    } else {
      var f := Fields(keys, config, rules);
      forall i | 0 <= i < |f| ensures NulFree(f[i]) {
        if i > 0 { assert f[i] == rules[i - 1] && rules[i - 1] in rules; }
      }
    }
  }

  lemma SortDecodable(skills: seq<SkillKey>, config: string, rules: seq<string>)
    requires Decodable(skills, config, rules)
    ensures Decodable(Sort(KeyLeq, skills), config, rules)
  {
    forall k | k in Sort(KeyLeq, skills) ensures k in skills {
      assert k in multiset(Sort(KeyLeq, skills));
      assert k in multiset(skills);
    }
  }

  /** Equal hashed strings come from the same skills (as a multiset of name and digest), the same
      configuration digest and the same rules in the same order. */
  lemma {:induction false} HashedDecodes(s: seq<SkillKey>, c: string, r: seq<string>, t: seq<SkillKey>, d: string, q: seq<string>)
    requires Decodable(s, c, r) && Decodable(t, d, q) && Hashed(s, c, r) == Hashed(t, d, q)
    ensures multiset(s) == multiset(t) && c == d && r == q
  {
    var a, b := Sort(KeyLeq, s), Sort(KeyLeq, t);
    SortDecodable(s, c, r);
    SortDecodable(t, d, q);
    FieldsNulFree(a, c, r);
    FieldsNulFree(b, d, q);
    JoinInjective(Fields(a, c, r), Fields(b, d, q));
    FieldsInjective(a, c, r, b, d, q);
  }

  /** The order in which skills are listed does not matter. */
  lemma {:induction false} HashedOrderFree(s: seq<SkillKey>, t: seq<SkillKey>, config: string, rules: seq<string>)
    requires multiset(s) == multiset(t)
    ensures Hashed(s, config, rules) == Hashed(t, config, rules)
  {
    KeyOrder();
    SortSorts(KeyLeq, s);
    SortSorts(KeyLeq, t);
    SortedUnique(KeyLeq, Sort(KeyLeq, s), Sort(KeyLeq, t));
  }

  /** Without the condition on names two different harnesses share a hashed string: a skill named
      like a digest passes for the configuration. */
  lemma {:induction false} DigestNameCollides(h: string, sha: string, c: string)
    ensures Hashed([SkillKey(h, sha)], c, []) == Hashed([], h, [sha, c])
  {
    var one := [SkillKey(h, sha)];
    assert one[1..] == [];
    assert Sort(KeyLeq, one) == Insert(KeyLeq, one[0], Sort(KeyLeq, one[1..])) == one;
    assert Fields(one[1..], c, []) == [c];
    assert Fields(one, c, []) == [h, sha, c] == Fields([], h, [sha, c]);
  }

  /** Without the condition on rules, a rule that contains NUL passes for two rules. */
  lemma {:induction false} NulRuleCollides(skills: seq<SkillKey>, c: string, a: string, b: string)
    ensures Hashed(skills, c, [a + [NUL] + b]) == Hashed(skills, c, [a, b])
  {
    var keys, one := Sort(KeyLeq, skills), a + [NUL] + b;
    KeysJoin(keys, c, [one]);
    KeysJoin(keys, c, [a, b]);
    assert [a, b][..1] == [a] && [a][..0] == [] && [one][..0] == [];
    assert RuleText([a]) == RuleText([]) + [NUL] + a;
    assert RuleText([a, b]) == RuleText([a]) + [NUL] + b;
    assert RuleText([one]) == RuleText([]) + [NUL] + one;
    assert RuleText([a, b]) == RuleText([one]);
  }

  /** Three laws that determine the hashed string: the configuration's digest alone; a rule is added at
      the end, after a NUL; and the least skill's name and digest stand first, each ended by a NUL. */
  lemma {:induction false} HashedLaws(skills: seq<SkillKey>, config: string, rules: seq<string>, rule: string, k: SkillKey)
    ensures Hashed([], config, []) == config
    ensures Hashed(skills, config, rules + [rule]) == Hashed(skills, config, rules) + [NUL] + rule
    ensures (forall s | s in skills :: KeyLeq(k, s)) ==>
            Hashed([k] + skills, config, rules) == k.name + [NUL] + k.sha + [NUL] + Hashed(skills, config, rules)
  {
    hide KeyLeq, Fields, JoinNul, KeyText, RuleText, Sort;
    EmptyHashed(config);
    var keys := Sort(KeyLeq, skills);
    KeysJoin(keys, config, rules);
    KeysJoin(keys, config, rules + [rule]);
    RuleLast(rules, rule);
    if forall s | s in skills :: KeyLeq(k, s) {
      LeastFirst(k, skills);
      KeyFirst(k, keys);
      KeysJoin([k] + keys, config, rules);
    }
  }

  lemma EmptyHashed(config: string)
    ensures Hashed([], config, []) == config
  {
    assert [config] + [] == [config];
    assert Sort(KeyLeq, []) == [];
  }

  lemma RuleLast(rules: seq<string>, rule: string)
    ensures RuleText(rules + [rule]) == RuleText(rules) + [NUL] + rule
  {
    assert (rules + [rule])[..|rules|] == rules;
  }

  lemma KeyFirst(k: SkillKey, keys: seq<SkillKey>)
    ensures KeyText([k] + keys) == k.name + [NUL] + k.sha + [NUL] + KeyText(keys)
  {
    assert ([k] + keys)[1..] == keys;
  }

  lemma LeastFirst(k: SkillKey, skills: seq<SkillKey>)
    requires forall s | s in skills :: KeyLeq(k, s)
    ensures Sort(KeyLeq, [k] + skills) == [k] + Sort(KeyLeq, skills)
  {
    var keys := Sort(KeyLeq, skills);
    assert ([k] + skills)[1..] == skills;
    if keys != [] {
      assert keys[0] in multiset(keys);
      assert keys[0] in skills;
    }
  }

  /** Skills are ordered by name, and by digest where names are equal. */
  lemma KeyLeqMeans(a: SkillKey, b: SkillKey)
    ensures a.name != b.name ==> (KeyLeq(a, b) <==> LexLeq(a.name, b.name))
    ensures a.name == b.name ==> (KeyLeq(a, b) <==> LexLeq(a.sha, b.sha))
  {
  }
}
