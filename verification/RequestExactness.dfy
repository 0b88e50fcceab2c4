/** Exactly which components a request is given, from the request and the configuration. */
module RequestExactness {
  import opened Wrappers
  import opened CatalogTypes
  import opened CatalogCompiler
  import opened ToolCalls
  import opened RequestCatalog
  import Namespace

  // ---- The family ----

  /** The method is the family's, or something of it after a slash. */
  predicate Belongs(rpc: string, family: string) {
    rpc == family || family + "/" <= rpc
  }

  lemma {:induction false} CutExactly(s: string)
    ensures Cut(s) <= s && '/' !in Cut(s) && (Cut(s) == s || Cut(s) + "/" <= s)
  {
    if s != "" && s[0] != '/' {
      CutExactly(s[1..]);
      assert s == [s[0]] + s[1..];
    }
  }

  /** The part before the first slash is unique. */
  lemma CutIs(s: string, family: string)
    requires '/' !in family
    ensures Cut(s) == family <==> Belongs(s, family)
  {
    CutExactly(s);
    var n, k := |family|, |Cut(s)|;
    assert k < |s| ==> s[k] == '/' && (k < n <= |s| ==> s[..n][k] == '/');
    assert n < k ==> s[n] == Cut(s)[n] && Cut(s)[n] in Cut(s);
    assert family + "/" <= s ==> s[n] == (family + "/")[n];
  }

  /** Main result. Which family a request is limited to. */
  lemma FamilyExactly(rpc: string)
    ensures FamilyOf(rpc) ==
      if Belongs(rpc, "tools") || rpc == "subscriptions/listen" then "tools"
      else if Belongs(rpc, "prompts") then "prompts"
      else if Belongs(rpc, "resources") then "resources"
      else "initialize"
  {
    CutIs(rpc, "tools");
    CutIs(rpc, "prompts");
    CutIs(rpc, "resources");
  }

  // ---- The candidates ----

  /** The component's names start with `stem`. */
  predicate StartsWith(prefix: string, stem: string, name: string) {
    Namespace.NamedFeature(prefix, "x") == Ok(stem + "x") && stem <= name
  }

  /** The component could own the name under that prefix. */
  ghost predicate MayOwn(server: Server, several: bool, name: string, prefix: string) {
    if !several && server.prefix == "" then prefix == ""
    else Namespace.Prefix(server.name, server.prefix) == Ok(prefix) && exists stem :: StartsWith(prefix, stem, name)
  }

  lemma CandidateExactly(server: Server, several: bool, name: string, found: Server)
    ensures Candidate(server, several, name) == Some(found) <==>
      MayOwn(server, several, name, found.prefix) && found == WithPrefix(server, found.prefix)
  {
    var prefix := Namespace.Prefix(server.name, server.prefix);
    if (several || server.prefix != "") && prefix.Ok? {
      MarkerIs(prefix.value, name);
    }
  }

  lemma MarkerIs(prefix: string, name: string)
    ensures (exists stem :: StartsWith(prefix, stem, name)) <==>
      Namespace.Marker(prefix).Ok? && Namespace.Marker(prefix).value <= name
  {
    var marker := Namespace.NamedFeature(prefix, "x");
    if marker.Ok? {
      Namespace.MarkerPasses(prefix, "x");
      var stem := Namespace.Stem(prefix);
      assert marker.value == stem + "x";
      assert Namespace.Marker(prefix) == Ok(stem);
      if other :| StartsWith(prefix, other, name) {
        assert other == (other + "x")[..|stem + "x"| - 1] == stem;
      }
      if stem <= name { assert StartsWith(prefix, stem, name); }
    }
  }

  /** The positions of the components that could own the name, in order. */
  lemma {:induction false} CandidatesExactly(servers: seq<Server>, several: bool, name: string)
      returns (picked: seq<nat>)
    ensures |picked| == |Candidates(servers, several, name)|
    ensures forall i :: 0 <= i < |picked| ==>
      && picked[i] < |servers|
      && Candidate(servers[picked[i]], several, name) == Some(Candidates(servers, several, name)[i])
    ensures forall i, j :: 0 <= i < j < |picked| ==> picked[i] < picked[j]
    ensures forall k :: 0 <= k < |servers| && Candidate(servers[k], several, name).Some? ==> k in picked
  {
    hide Candidate;
    picked := [];
    if |servers| > 0 {
      var n := |servers| - 1;
      picked := CandidatesExactly(servers[..n], several, name);
      if Candidate(servers[n], several, name).Some? { picked := picked + [n]; }
    }
  }

  // ---- The whole selection ----

  /** The tool that a call is about, if it needs a component at all. */
  function Target(env: Environment, cfg: Config, name: string, arguments: string): Option<string> {
    if !cfg.toolSearch then Some(name)
    else if name != "call_tool" then None
    else
      match env.parse(arguments)
      case None => None
      case Some(args) => Some(args.name)
  }

  /** Main result. A request's configuration differs from the given one in its components
      alone. Without request scoping it is the given one. Otherwise every component is
      limited to the request's family, and all of them are kept unless the request calls
      a tool without deferred authorization. A generic call with bad arguments keeps
      none; any other that names a tool keeps what `SelectedFor` says. */
  lemma ScopeExactly(env: Environment, cached: Config -> Option<Catalog>, cfg: Config, rpc: string, name: string,
                     arguments: string)
    ensures var result := RequestCatalogConfig(env, cached, cfg, rpc, name, arguments);
      var limited := Limited(cfg, FamilyOf(rpc));
      && result == cfg.(servers := result.servers)
      && (!cfg.requestScoped ==> result.servers == cfg.servers)
      && (cfg.requestScoped ==>
            if rpc != "tools/call" || cfg.deferAuthorization || (cfg.toolSearch && name != "call_tool") then
              result == limited
            else
              match Target(env, cfg, name, arguments)
              case None => result.servers == []
              case Some(tool) => SelectedFor(env, cached, limited, tool, result.servers))
  {
    hide Limited, CachedOwner, Candidates, FamilyOf;
    LimitedExactly(cfg, FamilyOf(rpc));
    var limited := Limited(cfg, FamilyOf(rpc));
    var target := Target(env, cfg, name, arguments);
    if target.Some? { SelectExactly(env, cached, limited, target.value); }
    hide Select;
  }

  /** Limiting replaces the family of every component and nothing else. */
  lemma LimitedExactly(cfg: Config, family: string)
    ensures Limited(cfg, family) == cfg.(servers := Limited(cfg, family).servers)
    ensures |Limited(cfg, family).servers| == |cfg.servers|
    ensures forall i :: 0 <= i < |cfg.servers| ==>
      var server := Limited(cfg, family).servers[i];
      server.discoveryMethod == family && server == cfg.servers[i].(discoveryMethod := family)
  {
  }

  /** The owner that the cached catalog of all components knows, or else the one that the
      cached catalog of the candidates knows, or else all candidates; and where there is
      no candidate, all components. */
  ghost predicate SelectedFor(env: Environment, cached: Config -> Option<Catalog>, limited: Config, tool: string,
                              servers: seq<Server>)
  {
    var several := |limited.servers| > 1;
    exists picked :: Picks(limited.servers, several, tool, picked) &&
      var candidates := if picked == [] then limited else limited.(servers := picked);
      if Knows(env, cached, limited, tool).Some? then servers == [Knows(env, cached, limited, tool).value]
      else if Knows(env, cached, candidates, tool).Some? then servers == [Knows(env, cached, candidates, tool).value]
      else servers == candidates.servers
  }

  /** The components that could own the tool, in order, with their prefixes spelled out. */
  ghost predicate Picks(servers: seq<Server>, several: bool, tool: string, picked: seq<Server>) {
    exists at: seq<nat> :: PicksAt(servers, several, tool, picked, at)
  }

  ghost predicate PicksAt(servers: seq<Server>, several: bool, tool: string, picked: seq<Server>, at: seq<nat>) {
    && |at| == |picked|
    && (forall i :: 0 <= i < |at| ==>
          && at[i] < |servers| && MayOwn(servers[at[i]], several, tool, picked[i].prefix)
          && picked[i] == WithPrefix(servers[at[i]], picked[i].prefix))
    && (forall i, j :: 0 <= i < j < |at| ==> at[i] < at[j])
    && (forall k, prefix :: 0 <= k < |servers| && MayOwn(servers[k], several, tool, prefix) ==> k in at)
  }

  /** Where the cached catalog of the configuration, if there is one, leads the tool to. */
  function Knows(env: Environment, cached: Config -> Option<Catalog>, cfg: Config, tool: string): Option<Server> {
    var catalog := cached(cfg);
    if catalog.Some? && RouteReference(env, catalog.value, tool).Some?
    then
      var route := RouteReference(env, catalog.value, tool).value.0;
      Some(route.component.(prefix := route.prefix))
    else None
  }

  lemma SelectExactly(env: Environment, cached: Config -> Option<Catalog>, limited: Config, tool: string)
    ensures Select(env, cached, limited, tool) == limited.(servers := Select(env, cached, limited, tool).servers)
    ensures SelectedFor(env, cached, limited, tool, Select(env, cached, limited, tool).servers)
  {
    var several := |limited.servers| > 1;
    var candidates := Candidates(limited.servers, several, tool);
    var at := CandidatesExactly(limited.servers, several, tool);
    hide Candidate, RouteReference;
    assert PicksAt(limited.servers, several, tool, candidates, at) by {
      forall i | 0 <= i < |at|
        ensures MayOwn(limited.servers[at[i]], several, tool, candidates[i].prefix)
          && candidates[i] == WithPrefix(limited.servers[at[i]], candidates[i].prefix)
      {
        CandidateExactly(limited.servers[at[i]], several, tool, candidates[i]);
      }
      forall k, prefix | 0 <= k < |limited.servers| && MayOwn(limited.servers[k], several, tool, prefix)
        ensures k in at
      {
        CandidateExactly(limited.servers[k], several, tool, WithPrefix(limited.servers[k], prefix));
      }
    }
    assert Picks(limited.servers, several, tool, candidates);
    KnowsExactly(env, cached, limited, tool);
    KnowsExactly(env, cached, CandidateConfig(limited, tool), tool);
  }

  lemma KnowsExactly(env: Environment, cached: Config -> Option<Catalog>, cfg: Config, tool: string)
    ensures CachedOwner(env, cached, cfg, tool) == Knows(env, cached, cfg, tool)
  {
    hide RouteReference;
  }
}
