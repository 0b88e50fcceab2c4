/** Choosing which components a request needs: the scoped configuration. */
module RequestCatalog {
  import opened Wrappers
  import opened CatalogTypes
  import opened CatalogCompiler
  import opened ToolCalls
  import Namespace

  const CALL_METHOD := "tools/call"

  const LISTEN_METHOD := "subscriptions/listen"

  /** What comes before the first slash. */
  function Cut(s: string): string {
    if s == "" || s[0] == '/' then "" else [s[0]] + Cut(s[1..])
  }

  function FamilyOf(rpc: string): string {
    var family := if rpc == LISTEN_METHOD then "tools" else Cut(rpc);
    if family == "tools" || family == "prompts" || family == "resources" then family else "initialize"
  }

  /** Limits discovery to one family of every component. */
  function Limited(cfg: Config, family: string): Config {
    cfg.(servers := seq(|cfg.servers|, i requires 0 <= i < |cfg.servers| => cfg.servers[i].(discoveryMethod := family)))
  }

  /** The component, with its prefix spelled out, if it could own the name. */
  function Candidate(server: Server, several: bool, name: string): Option<Server> {
    if !several && server.prefix == "" then Some(server)
    else
      match Namespace.Prefix(server.name, server.prefix)
      case Err(_) => None
      case Ok(prefix) =>
        match Namespace.Marker(prefix)
        case Err(_) => None
        case Ok(marker) => if marker <= name then Some(WithPrefix(server, prefix)) else None
  }

  function Candidates(servers: seq<Server>, several: bool, name: string): seq<Server> {
    if |servers| == 0 then []
    else
      var rest := Candidates(servers[..|servers| - 1], several, name);
      match Candidate(servers[|servers| - 1], several, name)
      case None => rest
      case Some(server) => rest + [server]
  }

  function CandidateConfig(cfg: Config, name: string): Config {
    var candidates := Candidates(cfg.servers, |cfg.servers| > 1, name);
    if |candidates| > 0 then cfg.(servers := candidates) else cfg
  }

  /** The owner according to a cached catalog of this configuration. */
  function CachedOwner(env: Environment, cached: Config -> Option<Catalog>, cfg: Config, name: string): Option<Server> {
    match cached(cfg)
    case None => None
    case Some(catalog) =>
      match RouteReference(env, catalog, name)
      case None => None
      case Some((route, _)) => Some(WithPrefix(route.component, route.prefix))
  }

  /** Only the owner if a cached catalog knows it, and otherwise every candidate. */
  function Select(env: Environment, cached: Config -> Option<Catalog>, limited: Config, name: string): Config {
    var selected := CandidateConfig(limited, name);
    match CachedOwner(env, cached, limited, name)
    case Some(owner) => selected.(servers := [owner])
    case None =>
      match CachedOwner(env, cached, selected, name)
      case Some(owner) => selected.(servers := [owner])
      case None => selected
  }

  /** `cached` is the registry's lookup; without a registry it finds nothing. */
  function RequestCatalogConfig(env: Environment, cached: Config -> Option<Catalog>, cfg: Config,
                                rpc: string, name: string, arguments: string): Config
  {
    if !cfg.requestScoped then cfg
    else
      var limited := Limited(cfg, FamilyOf(rpc));
      if rpc != CALL_METHOD || cfg.deferAuthorization then limited
      else if !cfg.toolSearch then Select(env, cached, limited, name)
      else if name != CALL_TOOL then limited
      else
        match env.parse(arguments)
        case None => limited.(servers := [])
        case Some(args) => Select(env, cached, limited, args.name)
  }

  // ---- The loops ----

  method BuildRequestConfig(env: Environment, cached: Config -> Option<Catalog>, cfg: Config,
                            rpc: string, tool: string, arguments: string) returns (result: Config)
    ensures result == RequestCatalogConfig(env, cached, cfg, rpc, tool, arguments)
  {
    hide Select, Limited, FamilyOf;
    if !cfg.requestScoped {
      return cfg;
    }
    var clone := Restrict(cfg, FamilyOf(rpc));
    if rpc != CALL_METHOD || cfg.deferAuthorization {
      return clone;
    }
    var name := tool;
    if cfg.toolSearch {
      if tool != CALL_TOOL {
        return clone;
      }
      var args := env.parse(arguments);
      if args.None? {
        return clone.(servers := []);
      }
      name := args.value.name;
    }
    result := BuildSelection(env, cached, clone, name);
  }

  method Restrict(cfg: Config, family: string) returns (clone: Config)
    ensures clone == Limited(cfg, family)
  {
    var servers := cfg.servers;
    for i := 0 to |servers|
      invariant |servers| == |cfg.servers|
      invariant forall j :: 0 <= j < i ==> servers[j] == cfg.servers[j].(discoveryMethod := family)
      invariant forall j :: i <= j < |servers| ==> servers[j] == cfg.servers[j]
    {
      servers := servers[i := servers[i].(discoveryMethod := family)];
    }
    assert servers == Limited(cfg, family).servers;
    clone := cfg.(servers := servers);
  }

  method BuildSelection(env: Environment, cached: Config -> Option<Catalog>, clone: Config, name: string)
      returns (selected: Config)
    ensures selected == Select(env, cached, clone, name)
  {
    hide RouteReference, Namespace.Prefix, Namespace.Marker;
    var candidates := [];
    for i := 0 to |clone.servers|
      invariant candidates == Candidates(clone.servers[..i], |clone.servers| > 1, name)
    {
      assert clone.servers[..i + 1][..i] == clone.servers[..i];
      var server := clone.servers[i];
      var prefix := server.prefix;
      if |clone.servers| > 1 || prefix != "" {
        var derived := Namespace.BuildPrefix(server.name, prefix);
        if derived.Err? {
          continue;
        }
        prefix := derived.value;
        var marker := Namespace.Marker(prefix);
        if marker.Err? || !(marker.value <= name) {
          continue;
        }
      }
      candidates := candidates + [WithPrefix(server, prefix)];
    }
    assert clone.servers[..|clone.servers|] == clone.servers;
    selected := clone;
    if |candidates| > 0 {
      selected := selected.(servers := candidates);
    }
    var known := [clone, selected];
    for i := 0 to |known|
      invariant forall j :: 0 <= j < i ==> CachedOwner(env, cached, known[j], name).None?
    {
      var catalog := cached(known[i]);
      if catalog.Some? {
        var found := RouteReference(env, catalog.value, name);
        if found.Some? {
          assert i == 1 ==> CachedOwner(env, cached, known[0], name).None?;
          return selected.(servers := [WithPrefix(found.value.0.component, found.value.0.prefix)]);
        }
      }
    }
    assert CachedOwner(env, cached, known[0], name).None? && CachedOwner(env, cached, known[1], name).None?;
  }
}
