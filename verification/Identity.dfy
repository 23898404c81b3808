/** What a version id tells apart: the hashed string of `_compute_version_id` against the patches of
    `apply`, both in `interstellar/harness.py`. The digest is an arbitrary function of the text that
    has no collision among the texts at hand. */
module Identity {
  import opened Common
  import opened Lines
  import opened Ranges
  import opened Harness
  import opened VersionId
  import Toml

  function Keys(skills: seq<Skill>, sha: string -> string): (r: seq<SkillKey>)
    ensures |r| == |skills| && forall i | 0 <= i < |skills| :: r[i] == SkillKey(skills[i].name, sha(skills[i].content))
  {
    seq(|skills|, i requires 0 <= i < |skills| => SkillKey(skills[i].name, sha(skills[i].content)))
  }

  /** The string a version's id is the digest of. */
  function IdInput(v: Version, sha: string -> string): string { Hashed(Keys(v.skills, sha), sha(v.config), v.rules) }

  /** A skill as the agent sees it. */
  datatype Shown = Shown(name: string, content: string)

  function Shows(skills: seq<Skill>): (r: seq<Shown>)
    ensures |r| == |skills| && forall i | 0 <= i < |skills| :: r[i] == Shown(skills[i].name, skills[i].content)
  {
    seq(|skills|, i requires 0 <= i < |skills| => Shown(skills[i].name, skills[i].content))
  }

  /** Same skills in any order, same configuration, same rules in the same order. */
  ghost predicate SameHarness(v: Version, w: Version) {
    multiset(Shows(v.skills)) == multiset(Shows(w.skills)) && v.config == w.config && v.rules == w.rules
  }

  /** Names and rules without NUL, and no skill named like a digest. */
  predicate Safe(v: Version) {
    && (forall i | 0 <= i < |v.skills| :: NulFree(v.skills[i].name) && !IsDigest(v.skills[i].name))
    && forall i | 0 <= i < |v.rules| :: NulFree(v.rules[i])
  }

  ghost predicate Digests(sha: string -> string) { forall t :: IsDigest(sha(t)) }

  /** All texts a version hashes. */
  function Texts(v: Version): set<string> { (set i | 0 <= i < |v.skills| :: v.skills[i].content) + {v.config} }

  ghost predicate NoCollision(sha: string -> string, texts: set<string>) {
    forall a, b | a in texts && b in texts && sha(a) == sha(b) :: a == b
  }

  // --- from keys back to contents -----------------------------------------------------------------

  function KeyOf(x: Shown, sha: string -> string): SkillKey { SkillKey(x.name, sha(x.content)) }

  function KeysOf(s: seq<Shown>, sha: string -> string): (r: seq<SkillKey>)
    ensures |r| == |s| && forall i | 0 <= i < |s| :: r[i] == KeyOf(s[i], sha)
  {
    seq(|s|, i requires 0 <= i < |s| => KeyOf(s[i], sha))
  }

  lemma LastCount<T>(s: seq<T>, last: T, x: T)
    ensures multiset(s + [last])[x] == multiset(s)[x] + if last == x then 1 else 0
  {
    assert multiset(s + [last]) == multiset(s) + multiset{last};
  }

  lemma {:induction false} KeyCount(s: seq<Shown>, sha: string -> string, x: Shown)
    requires forall i | 0 <= i < |s| && sha(s[i].content) == sha(x.content) :: s[i].content == x.content
    ensures multiset(KeysOf(s, sha))[KeyOf(x, sha)] == multiset(s)[x]
  {
    hide KeysOf;
    if s != [] {
      var k := |s| - 1;
      KeyCount(s[..k], sha, x);
      var init, last := s[..k], s[k];
      InitLast(s);
      assert KeysOf(s, sha) == KeysOf(init, sha) + [KeyOf(last, sha)];
      LastCount(init, last, x);
      LastCount(KeysOf(init, sha), KeyOf(last, sha), KeyOf(x, sha));
    }
  }

  lemma {:induction false} SameKeysSameSkills(a: seq<Skill>, b: seq<Skill>, sha: string -> string, texts: set<string>)
    requires NoCollision(sha, texts)
    requires (forall i | 0 <= i < |a| :: a[i].content in texts) && forall i | 0 <= i < |b| :: b[i].content in texts
    ensures multiset(Keys(a, sha)) == multiset(Keys(b, sha)) <==> multiset(Shows(a)) == multiset(Shows(b))
  {
    hide Keys, KeysOf, Shows;
    var s, t := Shows(a), Shows(b);
    assert Keys(a, sha) == KeysOf(s, sha) && Keys(b, sha) == KeysOf(t, sha);
    if multiset(KeysOf(s, sha)) == multiset(KeysOf(t, sha)) {
      forall x: Shown
        ensures multiset(s)[x] == multiset(t)[x]
      {
        if x.content in texts {
          KeyCount(s, sha, x);
          KeyCount(t, sha, x);
        } else {
          assert x !in s && x !in t;
        }
      }
    }
    if multiset(s) == multiset(t) {
      forall k: SkillKey
        ensures multiset(KeysOf(s, sha))[k] == multiset(KeysOf(t, sha))[k]
      {
        if x: Shown :| (x in s || x in t) && KeyOf(x, sha) == k {
          KeyCount(s, sha, x);
          KeyCount(t, sha, x);
        } else {
          assert forall i | 0 <= i < |s| :: s[i] in s;
          assert forall i | 0 <= i < |t| :: t[i] in t;
          assert k !in KeysOf(s, sha) && k !in KeysOf(t, sha);
        }
      }
    }
  }

  lemma DecodableVersion(v: Version, sha: string -> string)
    requires Safe(v) && Digests(sha)
    ensures Decodable(Keys(v.skills, sha), sha(v.config), v.rules)
  {
    assert forall s: string | IsDigest(s) :: NulFree(s);
  }

  /** Two versions hash the same string exactly when they are the same harness. */
  lemma {:induction false} IdentifiesHarness(v: Version, w: Version, sha: string -> string)
    requires Safe(v) && Safe(w) && Digests(sha) && NoCollision(sha, Texts(v) + Texts(w))
    ensures IdInput(v, sha) == IdInput(w, sha) <==> SameHarness(v, w)
  {
    DecodableVersion(v, sha);
    DecodableVersion(w, sha);
    SameKeysSameSkills(v.skills, w.skills, sha, Texts(v) + Texts(w));
    if IdInput(v, sha) == IdInput(w, sha) {
      HashedDecodes(Keys(v.skills, sha), sha(v.config), v.rules, Keys(w.skills, sha), sha(w.config), w.rules);
    }
    if SameHarness(v, w) {
      HashedOrderFree(Keys(v.skills, sha), Keys(w.skills, sha), sha(v.config), v.rules);
    }
  }

  // --- every applied patch changes the harness ------------------------------------------------------------

  lemma {:induction false} KeepShorter(ls: seq<string>, off: int, gone: int -> bool)
    requires forall i | 0 <= i < |ls| :: ls[i] != ""
    ensures |Join(Keep(ls, off, gone))| <= |Join(ls)|
    ensures (exists x :: off < x <= off + |ls| && gone(x)) ==> |Join(Keep(ls, off, gone))| < |Join(ls)|
  {
    if ls != [] {
      KeepShorter(ls[1..], off + 1, gone);
      KeepFirst(ls, off, gone);
    }
  }

  lemma KeepFirst(ls: seq<string>, off: int, gone: int -> bool)
    requires ls != []
    ensures |Join(ls)| == |ls[0]| + |Join(ls[1..])|
    ensures |Join(Keep(ls, off, gone))| == |Join(Keep(ls[1..], off + 1, gone))| + if gone(off + 1) then 0 else |ls[0]|
  {
    var rest := Keep(ls[1..], off + 1, gone);
    assert ([ls[0]] + rest)[1..] == rest && [] + rest == rest;
    assert Keep(ls, off, gone) == if gone(off + 1) then rest else [ls[0]] + rest;
  }

  lemma {:induction false} DeletionShortens(text: string, gone: int -> bool, x: int)
    requires 1 <= x <= |Split(text)| && gone(x)
    ensures |Join(Keep(Split(text), 0, gone))| < |text|
  {
    SplitWellFormed(text);
    JoinSplit(text);
    KeepShorter(Split(text), 0, gone);
  }

  lemma {:induction false} InsertionLengthens(content: string, after: nat, text: string)
    requires after <= |Split(content)| && text != ""
    ensures |Inserted(content, after, text)| > |content|
  {
    hide Join, Split;
    var ls, b := Split(content), Split(Block(text));
    JoinSplit(content);
    JoinSplit(Block(text));
    JoinAppend(ls[..after] + b, ls[after..]);
    JoinAppend(ls[..after], b);
    JoinAppend(ls[..after], ls[after..]);
    assert ls[..after] + ls[after..] == ls;
  }

  lemma {:induction false} ContentChanged(skills: seq<Skill>, i: nat, content: string)
    requires i < |skills| && content != skills[i].content
    ensures multiset(Shows(WithContent(skills, i, content))) != multiset(Shows(skills))
  {
    var s, y := Shows(skills), Shown(skills[i].name, content);
    assert Shows(WithContent(skills, i, content)) == s[i := y];
    assert multiset(s[i := y])[y] == multiset(s)[y] + 1;
  }

  lemma {:induction false} TruncateChanges(v: Version, p: Patch)
    requires p.Truncate? && Step(v, p).1.applied
    ensures !SameHarness(v, Step(v, p).0)
  {
    var i := FindSkill(v.skills, p.target);
    var content, r := v.skills[i].content, p.ranges[0];
    assert Covers(p.ranges, r.start);
    DeletionShortens(content, Gone(p.ranges), r.start);
    ContentChanged(v.skills, i, Truncated(content, p.ranges));
  }

  lemma {:induction false} InsertChanges(v: Version, p: Patch)
    requires p.Insert? && Step(v, p).1.applied
    ensures !SameHarness(v, Step(v, p).0)
  {
    var i := FindSkill(v.skills, p.target);
    var after := if p.after.Some? then p.after.value else 0;
    InsertionLengthens(v.skills[i].content, after, p.text.value);
    ContentChanged(v.skills, i, Inserted(v.skills[i].content, after, p.text.value));
  }

  lemma {:induction false} RemoveSkillChanges(v: Version, p: Patch)
    requires p.RemoveSkill? && Step(v, p).1.applied
    ensures !SameHarness(v, Step(v, p).0)
  {
    var w := Step(v, p).0;
    assert |multiset(Shows(v.skills))| == |v.skills| && |multiset(Shows(w.skills))| == |w.skills|;
  }

  lemma {:induction false} RemoveServerChanges(v: Version, p: Patch)
    requires p.RemoveServer? && Step(v, p).1.applied
    ensures !SameHarness(v, Step(v, p).0)
  {
    hide CoveredLines, FindSkill, FirstLine, Join, McpConfig.Without, StripLeft, StripRight, Toml.Sweep;
    var ls, q := Split(v.config), McpConfig.Of(p.target);
    var i :| 0 <= i < |ls| && Toml.Hit(Toml.Header(ls[i]), q);
    assert ls[..i + 1][i] == ls[i];
    assert Toml.Owned(ls, q, i + 1);
    Toml.SweepIsKeep(ls, q);
    DeletionShortens(v.config, x => Toml.Owned(ls, q, x), i + 1);
  }

  /** A patch is reported as applied exactly when it changes the harness. */
  lemma {:induction false} AppliedIsChanged(v: Version, p: Patch)
    ensures Step(v, p).1.applied <==> !SameHarness(v, Step(v, p).0)
  {
    if Step(v, p).1.applied {
      match p
      case Truncate(_, _, _) => TruncateChanges(v, p);
      case RemoveSkill(_, _) => RemoveSkillChanges(v, p);
      case Insert(_, _, _, _) => InsertChanges(v, p);
      case RemoveServer(_, _) => RemoveServerChanges(v, p);
      case AppendRule(_, _) =>
      case UnknownKind(_, _) =>
    } else {
      StepReports(v, p);
    }
  }

  /** So control and treatment get different hashed strings exactly when the patch applies. */
  lemma {:induction false} AppliedChangesId(v: Version, p: Patch, sha: string -> string)
    requires Safe(v) && (p.AppendRule? && p.rule.Some? ==> NulFree(p.rule.value))
    requires Digests(sha) && NoCollision(sha, Texts(v) + Texts(Step(v, p).0))
    ensures IdInput(v, sha) != IdInput(Step(v, p).0, sha) <==> Step(v, p).1.applied
  {
    var w := Step(v, p).0;
    StaysSafe(v, p);
    IdentifiesHarness(v, w, sha);
    AppliedIsChanged(v, p);
  }

  lemma StaysSafe(v: Version, p: Patch)
    requires Safe(v) && (p.AppendRule? && p.rule.Some? ==> NulFree(p.rule.value))
    ensures Safe(Step(v, p).0)
  {
    if p.Truncate? || p.Insert? { OtherSkillsUntouched(v, p); }
  }
}
