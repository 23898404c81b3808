/** Removing an MCP server from the configuration text: `_apply_mcp_remove` in
    `interstellar/harness.py`. */
module McpConfig {
  import opened Common
  import opened Ranges
  import opened Lines
  import opened Toml

  /** The server's own table or a nested one, but not a longer name. */
  predicate Names(header: string, server: string) {
    header == "mcp_servers." + server || StartsWith(header, "mcp_servers." + server + ".")
  }

  function Of(server: string): string -> bool { h => Names(h, server) }

  datatype Removal = NotFound | Removed(servers: seq<string>, config: string, linesChanged: nat)

  function Without(servers: seq<string>, name: string): seq<string> {
    if servers == [] then []
    else Without(servers[..|servers| - 1], name) + if servers[|servers| - 1] != name then [servers[|servers| - 1]] else []
  }

  /** What removing a server yields. */
  ghost function RemoveSpec(servers: seq<string>, config: string, name: string): Removal {
    var ls := Split(config);
    if !HasHeader(ls, Of(name)) then NotFound
    else
      SweepShorter(ls, Of(name));
      Removed(Without(servers, name), Join(Sweep(ls, Of(name))), |ls| - |Sweep(ls, Of(name))|)
  }

  lemma {:induction false} SweepShorter(ls: seq<string>, p: string -> bool)
    ensures |Sweep(ls, p)| <= |ls|
  {
    if ls != [] { SweepShorter(ls[..|ls| - 1], p); }
  }

  lemma NothingRead(p: string -> bool)
    ensures Owner([]) == None && !HasHeader([], p) && Sweep([], p) == []
  {
  }

  /** What one more line does to the owner and to the lines kept. */
  lemma ReadOn(ls: seq<string>, p: string -> bool)
    requires ls != []
    ensures var init, l := ls[..|ls| - 1], ls[|ls| - 1];
            && Owner(ls) == (if Header(l).Some? then Header(l) else Owner(init))
            && Sweep(ls, p) == if Hit(Owner(ls), p) then Sweep(init, p) else Sweep(init, p) + [l]
  {
  }

  method Remove(servers: seq<string>, config: string, name: string) returns (r: Removal)
    ensures r == RemoveSpec(servers, config, name)
  {
    hide Join, Split, Header, HasHeader, Owner, Sweep;
    var ls := Split(config);
    var p := Of(name);
    NothingRead(p);
    var inTarget, found, removed := false, false, 0;
    var kept := [];
    for i := 0 to |ls|
      invariant inTarget == Hit(Owner(ls[..i]), p)
      invariant found == HasHeader(ls[..i], p)
      invariant kept == Sweep(ls[..i], p) && removed == i - |kept|
    {
      TakeOneMore(ls, i);
      HasHeaderSplit(ls[..i + 1], p);
      ReadOn(ls[..i + 1], p);
      SweepShorter(ls[..i + 1], p);
      var h := Header(ls[i]);
      if h.Some? {
        inTarget := h.value == "mcp_servers." + name || StartsWith(h.value, "mcp_servers." + name + ".");
        found := found || inTarget;
      }
      if inTarget { removed := removed + 1; } else { kept := kept + [ls[i]]; }
    }
    assert ls[..|ls|] == ls;
    if !found { return NotFound; }
    var remaining := [];
    for i := 0 to |servers|
      invariant remaining == Without(servers[..i], name)
    {
      assert servers[..i + 1][..i] == servers[..i];
      if servers[i] != name { remaining := remaining + [servers[i]]; }
    }
    assert servers[..|servers|] == servers;
    r := Removed(remaining, Join(kept), removed);
  }

  // --- on text -----------------------------------------------------------------------------

  /** The text after a removal, found or not. */
  ghost function After(config: string, name: string): string {
    match RemoveSpec([], config, name)
    case NotFound => config
    case Removed(_, text, _) => text
  }

  lemma {:induction false} AfterLines(config: string, name: string)
    ensures Split(After(config, name)) == Sweep(Split(config), Of(name))
  {
    var ls, p := Split(config), Of(name);
    SplitWellFormed(config);
    if HasHeader(ls, p) {
      SweepWellFormed(ls, p);
      SplitJoin(Sweep(ls, p));
    } else {
      SweepNothing(ls, p);
    }
  }

  /** Exactly the lines owned by the server's header or a nested one go, and a second removal
      finds nothing. */
  lemma {:induction false} RemovesOwnedLines(config: string, name: string)
    ensures Split(After(config, name)) == Keep(Split(config), 0, x => Owned(Split(config), Of(name), x))
    ensures RemoveSpec([], After(config, name), name) == NotFound
    ensures After(After(config, name), name) == After(config, name)
  {
    var ls, p := Split(config), Of(name);
    AfterLines(config, name);
    SweepIsKeep(ls, p);
    SweepHeaders(ls, p, p);
  }

  /** Removals commute on text, for any two names. */
  lemma {:induction false} RemovalsCommute(config: string, a: string, b: string)
    ensures After(After(config, a), b) == After(After(config, b), a)
  {
    var ls := Split(config);
    AfterLines(config, a);
    AfterLines(config, b);
    AfterLines(After(config, a), b);
    AfterLines(After(config, b), a);
    SweepsCommute(ls, Of(a), Of(b));
    JoinSplit(After(After(config, a), b));
    JoinSplit(After(After(config, b), a));
  }

  // --- the server list ------------------------------------------------------------------------

  predicate Dotless(name: string) { '.' !in name }

  /** The listed servers are the dotless names that occur in `mcp_servers` headers. */
  ghost predicate ListMatches(servers: seq<string>, config: string) {
    && (forall n | n in servers :: Dotless(n))
    && forall n | Dotless(n) :: n in servers <==> HasHeader(Split(config), Of(n))
  }

  lemma {:induction false} NamesUnique(h: string, a: string, b: string)
    requires Dotless(a) && Dotless(b) && Names(h, a) && Names(h, b)
    ensures a == b
  {
    hide Names;
    NamePart(h, a);
    NamePart(h, b);
  }

  /** The server's name in a header, up to its end or the next dot. */
  lemma NamePart(h: string, a: string)
    requires Names(h, a)
    ensures 12 + |a| <= |h| && h[12..12 + |a|] == a && (|h| == 12 + |a| || h[12 + |a|] == '.')
  {
    var r := "mcp_servers." + a;
    assert |r| <= |h| && h[..|r|] == r && (|r| == |h| || h[|r|] == '.') by {
      if h != r { assert h[..|r| + 1] == r + "." && h[..|r|] == h[..|r| + 1][..|r|] && h[|r|] == h[..|r| + 1][|r|]; }
    }
    assert h[12..|r|] == h[..|r|][12..] == r[12..] == a;
  }

  lemma {:induction false} WithoutMembers(servers: seq<string>, name: string, n: string)
    ensures n in Without(servers, name) <==> n in servers && n != name
  {
    if servers != [] {
      WithoutMembers(servers[..|servers| - 1], name, n);
      assert servers == servers[..|servers| - 1] + [servers[|servers| - 1]];
    }
  }

  /** Some header of `n` is not taken by removing `name`. */
  ghost predicate KeepsHeader(config: string, n: string, name: string) {
    HasHeader(Split(config), h => Names(h, n) && !Names(h, name))
  }

  lemma {:induction false} HeadersAfter(config: string, n: string, name: string)
    ensures HasHeader(Split(After(config, name)), Of(n)) <==> KeepsHeader(config, n, name)
    ensures KeepsHeader(config, n, name) ==> HasHeader(Split(config), Of(n))
    ensures Dotless(n) && Dotless(name) && n != name && HasHeader(Split(config), Of(n)) ==> KeepsHeader(config, n, name)
  {
    var ls, q := Split(config), h => Names(h, n) && !Names(h, name);
    AfterLines(config, name);
    SweepHeaders(ls, Of(name), Of(n));
    HeaderCongruence(ls, q, h => Of(n)(h) && !Of(name)(h));
    if HasHeader(ls, q) {
      var i :| 0 <= i < |ls| && Hit(Header(ls[i]), q);
      assert Hit(Header(ls[i]), Of(n));
    }
    if Dotless(n) && Dotless(name) && n != name && HasHeader(ls, Of(n)) {
      var i :| 0 <= i < |ls| && Hit(Header(ls[i]), Of(n));
      if Names(Header(ls[i]).value, name) { NamesUnique(Header(ls[i]).value, n, name); }
      assert Hit(Header(ls[i]), q);
    }
  }

  lemma HeaderCongruence(ls: seq<string>, p: string -> bool, q: string -> bool)
    requires forall h :: p(h) == q(h)
    ensures HasHeader(ls, p) == HasHeader(ls, q)
  {
    if HasHeader(ls, p) {
      var i :| 0 <= i < |ls| && Hit(Header(ls[i]), p);
      assert Hit(Header(ls[i]), q);
    }
    if HasHeader(ls, q) {
      var i :| 0 <= i < |ls| && Hit(Header(ls[i]), q);
      assert Hit(Header(ls[i]), p);
    }
  }

  /** The server list keeps matching the text exactly when the removed name is dotless or takes
      no server's last header. */
  lemma {:induction false} RemovalKeepsList(servers: seq<string>, config: string, name: string)
    requires ListMatches(servers, config) && HasHeader(Split(config), Of(name))
    ensures ListMatches(RemoveSpec(servers, config, name).servers, RemoveSpec(servers, config, name).config)
            <==> Dotless(name) || forall n | Dotless(n) && HasHeader(Split(config), Of(n)) :: KeepsHeader(config, n, name)
  {
    var after := After(config, name);
    assert RemoveSpec(servers, config, name).config == after;
    var left := RemoveSpec(servers, config, name).servers;
    forall n ensures n in left <==> n in servers && n != name { WithoutMembers(servers, name, n); }
    forall n
      ensures HasHeader(Split(after), Of(n)) <==> KeepsHeader(config, n, name)
      ensures KeepsHeader(config, n, name) ==> HasHeader(Split(config), Of(n))
      ensures Dotless(n) && Dotless(name) && n != name && HasHeader(Split(config), Of(n)) ==> KeepsHeader(config, n, name)
    {
      HeadersAfter(config, n, name);
    }
    assert !KeepsHeader(config, name, name);
  }

  const Nested := "[mcp_servers.a.b]\n"

  lemma {:induction false} NestedLines()
    ensures Split(Nested) == [Nested] && Header(Nested) == Some("mcp_servers.a.b")
    ensures Names("mcp_servers.a.b", "a") && Names("mcp_servers.a.b", "a.b")
  {
    hide Header, Split;
    var name := "mcp_servers.a.b";
    assert Nested == "[" + name + "]\n";
    HeaderOf(name);
    OneLine(Nested);
    assert name == "mcp_servers." + "a.b";
    assert name[..14] == "mcp_servers." + "a" + ".";
  }

  /** A configuration with only a nested table of `a`: removing `a.b` takes the last header of `a`,
      which stays listed. */
  lemma {:induction false} NestedRemovalLeavesStale()
    ensures ListMatches(["a"], Nested)
    ensures var r := RemoveSpec(["a"], Nested, "a.b");
            r.Removed? && "a" in r.servers && !ListMatches(r.servers, r.config)
  {
    hide Header, Split, Names;
    NestedLines();
    var ls := [Nested];
    forall n | Dotless(n) ensures n in ["a"] <==> HasHeader(ls, Of(n)) {
      if HasHeader(ls, Of(n)) { NamesUnique("mcp_servers.a.b", n, "a"); }
      assert n == "a" ==> Hit(Header(ls[0]), Of(n));
    }
    assert Hit(Header(ls[0]), Of("a.b"));
    assert !KeepsHeader(Nested, "a", "a.b");
    assert "a.b"[1] == '.';
    RemovalKeepsList(["a"], Nested, "a.b");
    WithoutMembers(["a"], "a.b", "a");
  }

  // --- what a removal reports -------------------------------------------------------------------------

  lemma {:induction false} WithoutIs(servers: seq<string>, name: string)
    ensures Without(servers, name) == Filter((n: string) => n != name, servers)
  {
    if servers != [] { WithoutIs(servers[..|servers| - 1], name); }
  }

  /** A removal is a skip exactly when no header is the server's own or nested in it. Otherwise the
      list loses every entry of the name, and the lines the text lost are reported. */
  lemma {:induction false} RemovalReports(servers: seq<string>, config: string, name: string)
    ensures var r, ls, own := RemoveSpec(servers, config, name), Split(config), "mcp_servers." + name;
            && (r.NotFound? <==> forall i | 0 <= i < |ls| && Header(ls[i]).Some? ::
                                   var h := Header(ls[i]).value; h != own && !(own + "." <= h))
            && (r.Removed? ==>
                  && r.config == After(config, name) && r.servers == Filter((n: string) => n != name, servers)
                  && r.linesChanged + |Split(r.config)| == |ls|)
  {
    hide Split, Join, Header, Sweep;
    AfterLines(config, name);
    WithoutIs(servers, name);
    SweepShorter(Split(config), Of(name));
    var ls := Split(config);
    forall i | 0 <= i < |ls| && Header(ls[i]).Some?
      ensures Hit(Header(ls[i]), Of(name)) <==>
              var h, own := Header(ls[i]).value, "mcp_servers." + name; h == own || own + "." <= h
    {
      PrefixIs(Header(ls[i]).value, "mcp_servers." + name + ".");
    }
  }

  lemma PrefixIs(s: string, prefix: string)
    ensures StartsWith(s, prefix) <==> prefix <= s
  {
  }
}
