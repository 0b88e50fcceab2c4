/** Compiling a whole configuration: prefixes, discovery, then component after
    component into one catalog. */
module CatalogCompiler {
  import opened Wrappers
  import opened Ordering
  import opened CatalogTypes
  import opened FamilyCompiler
  import Namespace

  const AUTHORIZATION_TOOL := "mmmcp_auth_status"

  const AUTHORIZATION := Feature(AUTHORIZATION_TOOL, "", "", 0)

  const SEARCH_TOOL := "search_tools"

  const CALL_TOOL := "call_tool"

  const DEFINITIONS := [Feature(SEARCH_TOOL, "", "", 0), Feature(CALL_TOOL, "", "", 1)]

  /** A component with its prefix and what it reported. */
  datatype Part = Part(server: Server, prefix: string, features: Features)

  // ---- One component ----

  /** URI mappings that are configured stand in for an inventory that this discovery
      did not fetch. */
  function Configured(overrides: seq<Override>): seq<Option<Feature>> {
    if |overrides| == 0 then []
    else
      var rest, last := Configured(overrides[..|overrides| - 1]), overrides[|overrides| - 1];
      if last.enabled then rest + [Some(Feature(last.key, "", "", 0))] else rest
  }

  predicate MapsConfigured(server: Server) {
    server.discoveryMethod != "" && server.discoveryMethod != "resources"
  }

  function Inventory(part: Part, family: Family): seq<Option<Feature>> {
    var mapped := if MapsConfigured(part.server) then Configured(OverridesOf(part.server, family)) else [];
    match family
    case Tools => part.features.tools
    case Prompts => part.features.prompts
    case Resources => part.features.resources + mapped
    case Templates => part.features.templates + mapped
  }

  function CompileStep(env: Environment, sections: Sections, part: Part, family: Family): Result<Sections, Error> {
    var version, section := part.features.protocolVersion, Get(sections, family);
    match CompileFamily(env, family, part.server, part.prefix, version, section, Inventory(part, family))
    case Err(e) => Err(e)
    case Ok(section) => Ok(Put(sections, family, section))
  }

  function Then(env: Environment, sections: Result<Sections, Error>, part: Part,
                family: Family): Result<Sections, Error> {
    match sections
    case Err(e) => Err(e)
    case Ok(s) => CompileStep(env, s, part, family)
  }

  function CompileComponent(env: Environment, sections: Sections, part: Part): Result<Sections, Error> {
    var named := Then(env, CompileStep(env, sections, part, Tools), part, Prompts);
    Then(env, Then(env, named, part, Resources), part, Templates)
  }

  function CompileAll(env: Environment, parts: seq<Part>): Result<Sections, Error> {
    if |parts| == 0 then Ok(NO_SECTIONS)
    else
      match CompileAll(env, parts[..|parts| - 1])
      case Err(e) => Err(e)
      case Ok(s) => CompileComponent(env, s, parts[|parts| - 1])
  }

  // ---- Prefixes and discovery ----

  /** A component that is alone and has no configured prefix is not namespaced. */
  function PrefixOf(servers: seq<Server>, i: nat): Result<string, Error>
    requires i < |servers|
  {
    var server := servers[i];
    if |servers| <= 1 && server.prefix == "" then Ok("")
    else
      match Namespace.Prefix(server.name, server.prefix)
      case Err(_) => Err(InvalidPrefix(server.name))
      case Ok(prefix) => Ok(prefix)
  }

  /** All the results, or the first error. */
  function Collect<T>(results: seq<Result<T, Error>>): Result<seq<T>, Error> {
    if |results| == 0 then Ok([])
    else
      match Collect(results[..|results| - 1])
      case Err(e) => Err(e)
      case Ok(values) =>
        match results[|results| - 1]
        case Err(e) => Err(e)
        case Ok(last) => Ok(values + [last])
  }

  lemma {:induction false} CollectExactly<T>(results: seq<Result<T, Error>>)
    ensures Collect(results).Ok? <==> forall i :: 0 <= i < |results| ==> results[i].Ok?
    ensures Collect(results).Ok? ==> |Collect(results).value| == |results|
    ensures Collect(results).Ok? ==> forall i :: 0 <= i < |results| ==> results[i] == Ok(Collect(results).value[i])
  {
    if |results| > 0 {
      CollectExactly(results[..|results| - 1]);
    }
  }

  function Prefixes(servers: seq<Server>): Result<seq<string>, Error> {
    Collect(seq(|servers|, i requires 0 <= i < |servers| => PrefixOf(servers, i)))
  }

  datatype Found = Found(features: Features, pending: bool)

  /** What one worker makes of one component. */
  function Find(env: Environment, server: Server, prefix: string, deferAuthorization: bool): Result<Found, Error> {
    match env.discover(server)
    case Challenged => if deferAuthorization then Ok(Found(NOTHING, true)) else Err(Unauthorized)
    case Failed => Err(Undiscovered(server.name))
    case Listed(None) => Err(Undiscovered(server.name))
    case Listed(Some(features)) =>
      match CompileComponent(env, NO_SECTIONS, Part(server, prefix, features))
      case Err(e) => Err(e)
      case Ok(_) => Ok(Found(features, false))
  }

  /** All components' findings in configuration order. When some fail, this reports the
      first failure; which one the workers report depends on their timing. */
  function FindAll(env: Environment, servers: seq<Server>, prefixes: seq<string>,
                   deferAuthorization: bool): Result<seq<Found>, Error>
    requires |servers| == |prefixes|
  {
    Collect(seq(|servers|, i requires 0 <= i < |servers| => Find(env, servers[i], prefixes[i], deferAuthorization)))
  }

  function PartsOf(servers: seq<Server>, prefixes: seq<string>, found: seq<Found>): seq<Part>
    requires |servers| == |prefixes| == |found|
  {
    seq(|servers|, i requires 0 <= i < |servers| => Part(servers[i], prefixes[i], found[i].features))
  }

  function PendingNames(servers: seq<Server>, found: seq<Found>): seq<string>
    requires |servers| == |found|
  {
    if |servers| == 0 then []
    else
      var n := |servers| - 1;
      var rest := PendingNames(servers[..n], found[..n]);
      if found[n].pending then rest + [servers[n].name] else rest
  }

  // ---- The catalog ----

  function InsertFeature(feature: Feature, sorted: seq<Feature>): seq<Feature> {
    if |sorted| == 0 || Less(feature.key, sorted[0].key) then [feature] + sorted
    else [sorted[0]] + InsertFeature(feature, sorted[1..])
  }

  function SortFeatures(features: seq<Feature>): seq<Feature> {
    if |features| == 0 then [] else InsertFeature(features[|features| - 1], SortFeatures(features[..|features| - 1]))
  }

  function Sorted(section: Section): Section {
    section.(exposed := SortFeatures(section.exposed))
  }

  function NewCatalog(pending: seq<string>, info: Option<Implementation>, toolSearch: bool, visible: seq<Feature>,
                      s: Sections): Catalog {
    Catalog(pending, info, toolSearch, SortFeatures(visible),
      Sections(Sorted(s.tools), Sorted(s.prompts), Sorted(s.resources), Sorted(s.templates)))
  }

  function Finish(cfg: Config, found: seq<Found>, sections: Sections): Result<Catalog, Error>
    requires |found| == |cfg.servers|
  {
    var info := if |found| == 1 then found[0].features.serverInfo else None;
    var pending := PendingNames(cfg.servers, found);
    if cfg.deferAuthorization && AUTHORIZATION_TOOL in sections.tools.routes then Err(Reserved)
    else if |pending| > 0 then
      Ok(NewCatalog(pending, info, false, [AUTHORIZATION], NO_SECTIONS.(tools := Section([AUTHORIZATION], map[]))))
    else
      Ok(NewCatalog([], info, cfg.toolSearch, if cfg.toolSearch then DEFINITIONS else sections.tools.exposed, sections))
  }

  function Compile(env: Environment, cfg: Config, deferAuthorization: bool): Result<Catalog, Error> {
    match Prefixes(cfg.servers)
    case Err(e) => Err(e)
    case Ok(prefixes) =>
      PrefixesExactly(cfg.servers);
      match FindAll(env, cfg.servers, prefixes, deferAuthorization)
      case Err(e) => Err(e)
      case Ok(found) =>
        FindAllExactly(env, cfg.servers, prefixes, deferAuthorization);
        match CompileAll(env, PartsOf(cfg.servers, prefixes, found))
        case Err(e) => Err(e)
        case Ok(sections) => Finish(cfg, found, sections)
  }

  lemma PrefixesExactly(servers: seq<Server>)
    ensures Prefixes(servers).Ok? <==> forall i :: 0 <= i < |servers| ==> PrefixOf(servers, i).Ok?
    ensures Prefixes(servers).Ok? ==> |Prefixes(servers).value| == |servers|
    ensures Prefixes(servers).Ok? ==> forall i :: 0 <= i < |servers| ==>
      PrefixOf(servers, i) == Ok(Prefixes(servers).value[i])
  {
    var all := seq(|servers|, i requires 0 <= i < |servers| => PrefixOf(servers, i));
    CollectExactly(all);
    assert forall i :: 0 <= i < |servers| ==> all[i] == PrefixOf(servers, i);
  }

  lemma FindAllExactly(env: Environment, servers: seq<Server>, prefixes: seq<string>, deferAuthorization: bool)
    requires |servers| == |prefixes|
    ensures FindAll(env, servers, prefixes, deferAuthorization).Ok? <==>
      forall i :: 0 <= i < |servers| ==> Find(env, servers[i], prefixes[i], deferAuthorization).Ok?
    ensures FindAll(env, servers, prefixes, deferAuthorization).Ok? ==>
      |FindAll(env, servers, prefixes, deferAuthorization).value| == |servers|
    ensures FindAll(env, servers, prefixes, deferAuthorization).Ok? ==>
      forall i :: 0 <= i < |servers| ==>
        Find(env, servers[i], prefixes[i], deferAuthorization) ==
          Ok(FindAll(env, servers, prefixes, deferAuthorization).value[i])
  {
    var all := seq(|servers|, i requires 0 <= i < |servers| => Find(env, servers[i], prefixes[i], deferAuthorization));
    CollectExactly(all);
    assert forall i :: 0 <= i < |servers| ==> all[i] == Find(env, servers[i], prefixes[i], deferAuthorization);
  }

  // ---- The loops of compile ----

  method CompileServers(env: Environment, parts: seq<Part>) returns (result: Result<Sections, Error>)
    ensures result == CompileAll(env, parts)
  {
    var sections := NO_SECTIONS;
    for i := 0 to |parts|
      invariant CompileAll(env, parts[..i]) == Ok(sections)
    {
      assert parts[..i + 1][..i] == parts[..i];
      var step := CompileFamilies(env, sections, parts[i]);
      if step.Err? {
        CompileErrorLasts(env, parts, i + 1);
        return step;
      }
      sections := step.value;
    }
    assert parts[..|parts|] == parts;
    return Ok(sections);
  }

  method CompileFamilies(env: Environment, sections: Sections, part: Part) returns (result: Result<Sections, Error>)
    ensures result == CompileComponent(env, sections, part)
  {
    var version := part.features.protocolVersion;
    var tools := CompileSection(env, Tools, part.server, part.prefix, version, sections.tools, Inventory(part, Tools));
    if tools.Err? { return Err(tools.error); }
    var prompts :=
      CompileSection(env, Prompts, part.server, part.prefix, version, sections.prompts, Inventory(part, Prompts));
    if prompts.Err? { return Err(prompts.error); }
    var resources :=
      CompileSection(env, Resources, part.server, part.prefix, version, sections.resources, Inventory(part, Resources));
    if resources.Err? { return Err(resources.error); }
    var templates :=
      CompileSection(env, Templates, part.server, part.prefix, version, sections.templates, Inventory(part, Templates));
    if templates.Err? { return Err(templates.error); }
    return Ok(Sections(tools.value, prompts.value, resources.value, templates.value));
  }

  lemma {:induction false} CompileErrorLasts(env: Environment, parts: seq<Part>, i: nat)
    requires i <= |parts| && CompileAll(env, parts[..i]).Err?
    ensures CompileAll(env, parts) == CompileAll(env, parts[..i])
    decreases |parts|
  {
    if i == |parts| {
      assert parts[..i] == parts;
    } else {
      assert parts[..|parts| - 1][..i] == parts[..i];
      CompileErrorLasts(env, parts[..|parts| - 1], i);
    }
  }

  method BuildPrefixes(servers: seq<Server>) returns (result: Result<seq<string>, Error>)
    ensures result == Prefixes(servers)
  {
    var prefixes := [];
    ghost var all := seq(|servers|, i requires 0 <= i < |servers| => PrefixOf(servers, i));
    for i := 0 to |servers|
      invariant Collect(all[..i]) == Ok(prefixes)
    {
      assert all[..i + 1][..i] == all[..i];
      var prefix := PrefixOf(servers, i);
      if prefix.Err? {
        CollectErrorLasts(all, i + 1);
        return Err(prefix.error);
      }
      prefixes := prefixes + [prefix.value];
    }
    assert all[..|servers|] == all;
    return Ok(prefixes);
  }

  method CompileConfig(env: Environment, cfg: Config, deferAuthorization: bool) returns (result: Result<Catalog, Error>)
    ensures result == Compile(env, cfg, deferAuthorization)
  {
    var prefixes := BuildPrefixes(cfg.servers);
    if prefixes.Err? {
      return Err(prefixes.error);
    }
    PrefixesExactly(cfg.servers);
    var found := FindAll(env, cfg.servers, prefixes.value, deferAuthorization);
    if found.Err? {
      return Err(found.error);
    }
    FindAllExactly(env, cfg.servers, prefixes.value, deferAuthorization);
    var sections := CompileServers(env, PartsOf(cfg.servers, prefixes.value, found.value));
    if sections.Err? {
      return Err(sections.error);
    }
    return Finish(cfg, found.value, sections.value);
  }

  lemma {:induction false} CollectErrorLasts<T>(results: seq<Result<T, Error>>, i: nat)
    requires i <= |results| && Collect(results[..i]).Err?
    ensures Collect(results) == Collect(results[..i])
    decreases |results|
  {
    if i == |results| {
      assert results[..i] == results;
    } else {
      assert results[..|results| - 1][..i] == results[..i];
      CollectErrorLasts(results[..|results| - 1], i);
    }
  }
}
