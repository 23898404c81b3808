/** What each kind of patch does to a harness version, said without the functions that compute it:
    `interstellar/harness.py`. */
module PatchEffects {
  import opened Common
  import opened Lines
  import opened Ranges
  import opened Harness
  import McpConfig

  /** `i` is where the first skill of that name is. */
  ghost predicate FirstNamed(skills: seq<Skill>, name: string, i: nat) {
    i < |skills| && skills[i].name == name && forall k | 0 <= k < i :: skills[k].name != name
  }

  /** A report of a patch that was not applied, and the version as it was. */
  ghost predicate Skips(v: Version, p: Patch, w: Version, app: Application) {
    w == v && app.id == p.id && !app.applied && app.linesChanged == 0
  }

  /** All but the skills are the same. */
  ghost predicate SameElsewhere(v: Version, w: Version) { w.servers == v.servers && w.config == v.config && w.rules == v.rules }

  /** The skills are the same but for the content of the one at `i`. */
  ghost predicate OnlyContent(v: Version, w: Version, i: nat, content: string) {
    && SameElsewhere(v, w) && |w.skills| == |v.skills| && i < |v.skills|
    && (forall k | 0 <= k < |v.skills| && k != i :: w.skills[k] == v.skills[k])
    && w.skills[i].name == v.skills[i].name && w.skills[i].meta == v.skills[i].meta && w.skills[i].content == content
  }

  lemma FoundFirst(skills: seq<Skill>, name: string, i: nat)
    requires FirstNamed(skills, name, i)
    ensures FindSkill(skills, name) == i
  {
  }

  /** Without a skill of the name, a patch to one is skipped. */
  lemma MissingSkillSkips(v: Version, p: Patch)
    requires (p.Truncate? || p.RemoveSkill? || p.Insert?) && forall k | 0 <= k < |v.skills| :: v.skills[k].name != p.target
    ensures var (w, app) := Step(v, p); Skips(v, p, w, app)
  {
    hide Split;
  }

  // --- removing a skill ---------------------------------------------------------------------------

  /** Removing a skill takes out the first one of the name; the others stay as they are and in order,
      and the lines of its text are reported. */
  lemma {:induction false} RemoveSkillEffect(v: Version, p: Patch, i: nat)
    requires p.RemoveSkill? && FirstNamed(v.skills, p.target, i)
    ensures var (w, app) := Step(v, p);
            && SameElsewhere(v, w) && |w.skills| == |v.skills| - 1
            && (forall k | 0 <= k < i :: w.skills[k] == v.skills[k])
            && (forall k | i <= k < |w.skills| :: w.skills[k] == v.skills[k + 1])
            && app == Application(p.id, true, |Split(v.skills[i].content)|)
  {
    hide Split;
    FoundFirst(v.skills, p.target, i);
  }

  function Named(name: string): Skill -> bool { (s: Skill) => s.name == name }

  lemma CountSpliced(skills: seq<Skill>, i: nat, put: seq<Skill>, name: string)
    requires i < |skills|
    ensures CountIf(Named(name), skills[..i] + put + skills[i + 1..])
            == CountIf(Named(name), skills) - CountIf(Named(name), [skills[i]]) + CountIf(Named(name), put)
  {
    hide Filter;
    var a, b, p := skills[..i], skills[i + 1..], Named(name);
    assert skills == a + [skills[i]] + b;
    FilterAppend(p, a + put, b);
    FilterAppend(p, a, put);
    FilterAppend(p, a + [skills[i]], b);
    FilterAppend(p, a, [skills[i]]);
  }

  lemma CountOne(s: Skill, name: string)
    ensures CountIf(Named(name), [s]) == (if s.name == name then 1 else 0) && CountIf(Named(name), []) == 0
  {
    assert [s][..0] == [];
    assert Filter(Named(name), [s]) == Filter(Named(name), []) + if s.name == name then [s] else [];
  }

  /** No patch adds a skill of any name, and removing takes one of its name if there is one. */
  lemma {:induction false} StepCounts(v: Version, p: Patch, name: string)
    ensures var n, m := CountIf(Named(name), v.skills), CountIf(Named(name), Step(v, p).0.skills);
            m <= n && (p.RemoveSkill? && p.target == name && n > 0 ==> m == n - 1)
  {
    hide Step, CountIf, FindSkill;
    if Step(v, p).0.skills != v.skills {
      var put := StepSkills(v, p);
      var i := FindSkill(v.skills, p.target);
      SplicedOne(v, p, put);
      CountSpliced(v.skills, i, put, name);
      CountOne(v.skills[i], name);
      if put != [] { CountOne(put[0], name); }
    } else if p.RemoveSkill? && p.target == name {
      Unremoved(v, p);
    }
  }

  lemma SplicedOne(v: Version, p: Patch, put: seq<Skill>)
    requires p.Truncate? || p.RemoveSkill? || p.Insert?
    requires var i := FindSkill(v.skills, p.target);
             i < |v.skills| && Step(v, p).0.skills == v.skills[..i] + put + v.skills[i + 1..]
    requires forall k | 0 <= k < |put| :: put[k].name == p.target
    ensures put == [] || put == [put[0]]
    ensures p.RemoveSkill? ==> put == []
  {
    hide FindSkill, Truncated, Inserted, Split, InBounds, CoveredLines;
    assert |Step(v, p).0.skills| <= |v.skills|;
    assert p.RemoveSkill? ==> |Step(v, p).0.skills| == |v.skills| - 1;
  }

  lemma Unremoved(v: Version, p: Patch)
    requires p.RemoveSkill? && Step(v, p).0.skills == v.skills
    ensures CountIf(Named(p.target), v.skills) == 0
  {
    hide Split;
    var i := FindSkill(v.skills, p.target);
    assert i == |v.skills| || |Step(v, p).0.skills| == |v.skills| - 1;
    FilterNone(Named(p.target), v.skills);
  }

  /** Where at most one skill has the name, a list that removes it leaves none, whatever else it does. */
  lemma {:induction false} RemovedForGood(v: Version, patches: seq<Patch>, name: string)
    requires CountIf(Named(name), v.skills) <= 1
    ensures CountIf(Named(name), Run(v, patches).0.skills) <= 1
    ensures (exists p | p in patches :: p.RemoveSkill? && p.target == name) ==> CountIf(Named(name), Run(v, patches).0.skills) == 0
  {
    hide Step, CountIf;
    if patches != [] {
      var k := |patches| - 1;
      var w, apps := Run(v, patches[..k]).0, Run(v, patches[..k]).1;
      RemovedForGood(v, patches[..k], name);
      StepCounts(w, patches[k], name);
      RunLast(v, patches, w, apps);
      InitLast(patches);
    }
  }

  // --- editing a skill's text -----------------------------------------------------------------------

  /** A truncate patch applies exactly when ranges are given and all lie within the skill's lines; then
      the first skill of the name keeps exactly its uncovered lines. */
  lemma {:induction false} TruncateEffect(v: Version, p: Patch, i: nat)
    requires p.Truncate? && FirstNamed(v.skills, p.target, i)
    ensures var (w, app), ls := Step(v, p), Split(v.skills[i].content);
            if p.ranges != [] && (forall r | r in p.ranges :: 1 <= r.start <= r.end <= |ls|)
            then OnlyContent(v, w, i, Join(Keep(ls, 0, x => Covers(p.ranges, x)))) && app == Application(p.id, true, |CoveredLines(p.ranges)|)
            else Skips(v, p, w, app)
  {
    hide Split, Join, Keep, CoveredLines;
    FoundFirst(v.skills, p.target, i);
    var ls := Split(v.skills[i].content);
    KeepSame(ls, 0, Gone(p.ranges), x => Covers(p.ranges, x));
    assert InBounds(p.ranges, |ls|) <==> forall r | r in p.ranges :: 1 <= r.start <= r.end <= |ls|;
  }

  /** The inserted text, its last line ended. */
  ghost function Ended(text: string): string { if text != "" && text[|text| - 1] == '\n' then text else text + "\n" }

  /** An insert patch applies exactly when there is text and the anchor -- the beginning unless given --
      is a line of the skill or its end. Then the text stands between the lines up to the anchor and
      the others, its last line ended, and its lines are reported. */
  lemma {:induction false} InsertEffect(v: Version, p: Patch, i: nat)
    requires p.Insert? && FirstNamed(v.skills, p.target, i)
    ensures var (w, app), ls, at := Step(v, p), Split(v.skills[i].content), if p.after.Some? then p.after.value else 0;
            if p.text.Some? && p.text.value != "" && 0 <= at <= |ls|
            then
              && OnlyContent(v, w, i, Join(ls[..at]) + Ended(p.text.value) + Join(ls[at..]))
              && app == Application(p.id, true, |Split(Ended(p.text.value))|)
            else Skips(v, p, w, app)
  {
    hide Split, Join;
    FoundFirst(v.skills, p.target, i);
    if p.text.Some? && 0 <= Anchor(p) <= |Split(v.skills[i].content)| { InsertedText(v.skills[i].content, Anchor(p), p.text.value); }
  }

  lemma InsertedText(content: string, after: nat, text: string)
    requires after <= |Split(content)|
    ensures Block(text) == Ended(text)
    ensures Inserted(content, after, text) == Join(Split(content)[..after]) + Ended(text) + Join(Split(content)[after..])
  {
    hide Split, Join;
    var ls := Split(content);
    JoinAppend(ls[..after] + Split(Block(text)), ls[after..]);
    JoinAppend(ls[..after], Split(Block(text)));
    JoinSplit(Block(text));
  }

  // --- the other kinds ---------------------------------------------------------------------------------

  /** A rule patch applies exactly when it has a text, which is added after the other rules. */
  lemma AppendRuleEffect(v: Version, p: Patch)
    requires p.AppendRule?
    ensures var (w, app) := Step(v, p);
            if p.rule.None? || p.rule.value == "" then Skips(v, p, w, app)
            else
              && w.skills == v.skills && w.servers == v.servers && w.config == v.config
              && |w.rules| == |v.rules| + 1 && w.rules[|v.rules|] == p.rule.value
              && (forall k | 0 <= k < |v.rules| :: w.rules[k] == v.rules[k])
              && app == Application(p.id, true, 1)
  {
  }

  /** A remove-server patch changes text and list as the removal does, and nothing else. */
  lemma RemoveServerEffect(v: Version, p: Patch)
    requires p.RemoveServer?
    ensures var (w, app) := Step(v, p);
            match McpConfig.RemoveSpec(v.servers, v.config, p.target)
            case NotFound => Skips(v, p, w, app)
            case Removed(servers, config, n) =>
              w.skills == v.skills && w.rules == v.rules && w.servers == servers && w.config == config && app == Application(p.id, true, n)
  {
    hide McpConfig.RemoveSpec;
  }

  /** A patch of a kind the engine does not know is skipped. */
  lemma UnknownSkipped(v: Version, p: Patch)
    requires p.UnknownKind?
    ensures var (w, app) := Step(v, p); Skips(v, p, w, app)
  {
  }
}
