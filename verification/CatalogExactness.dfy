/** Exactly when a configuration compiles, and exactly what its route tables hold. */
module CatalogExactness {
  import opened Wrappers
  import opened Ordering
  import opened CatalogTypes
  import opened FamilyCompiler
  import opened CatalogCompiler
  import Namespace

  // ---- One component ----

  function JobOf(env: Environment, family: Family, part: Part): Job {
    var keyed := KeyedOverrides(OverridesOf(part.server, family));
    var overrides := if keyed.Some? then keyed.value else map[];
    Job(env, family, part.server, part.prefix, overrides, part.features.protocolVersion)
  }

  predicate Disabled(family: Family, server: Server) {
    family.Tools? && server.disableTools
  }

  /** What a component contributes to a family. */
  function OffersOf(env: Environment, family: Family, part: Part): seq<Offer> {
    if Disabled(family, part.server) then [] else Offers(JobOf(env, family, part), Inventory(part, family))
  }

  /** No override repeated, and a well-formed inventory. */
  ghost predicate Sound(env: Environment, family: Family, part: Part) {
    Disabled(family, part.server)
    || (DistinctKeys(OverridesOf(part.server, family)) && WellListed(JobOf(env, family, part), Inventory(part, family)))
  }

  ghost predicate Fits(env: Environment, family: Family, part: Part, section: Section) {
    Sound(env, family, part) && Distinct(OffersOf(env, family, part)) && Free(section, OffersOf(env, family, part))
  }

  lemma StepExactly(env: Environment, sections: Sections, part: Part, family: Family)
    ensures CompileStep(env, sections, part, family).Ok? <==> Fits(env, family, part, Get(sections, family))
    ensures CompileStep(env, sections, part, family).Ok? ==>
      CompileStep(env, sections, part, family).value ==
        Put(sections, family, InstallAll(Get(sections, family), OffersOf(env, family, part)))
  {
    KeyedExactly(OverridesOf(part.server, family));
    AddAllExactly(JobOf(env, family, part), Get(sections, family), Inventory(part, family));
  }

  ghost predicate FitsAll(env: Environment, part: Part, sections: Sections) {
    && Fits(env, Tools, part, sections.tools) && Fits(env, Prompts, part, sections.prompts)
    && Fits(env, Resources, part, sections.resources) && Fits(env, Templates, part, sections.templates)
  }

  function InstallPart(env: Environment, sections: Sections, part: Part): Sections {
    Sections(
      InstallAll(sections.tools, OffersOf(env, Tools, part)),
      InstallAll(sections.prompts, OffersOf(env, Prompts, part)),
      InstallAll(sections.resources, OffersOf(env, Resources, part)),
      InstallAll(sections.templates, OffersOf(env, Templates, part)))
  }

  lemma ThenExactly(env: Environment, before: Result<Sections, Error>, part: Part, family: Family)
    ensures Then(env, before, part, family).Ok? <==> before.Ok? && Fits(env, family, part, Get(before.value, family))
    ensures Then(env, before, part, family).Ok? ==>
      Then(env, before, part, family).value
      == Put(before.value, family, InstallAll(Get(before.value, family), OffersOf(env, family, part)))
  {
    if before.Ok? { StepExactly(env, before.value, part, family); }
  }

  lemma ComponentExactly(env: Environment, sections: Sections, part: Part)
    ensures CompileComponent(env, sections, part).Ok? <==> FitsAll(env, part, sections)
    ensures CompileComponent(env, sections, part).Ok? ==>
      CompileComponent(env, sections, part).value == InstallPart(env, sections, part)
  {
    hide CompileStep, Fits, InstallAll, OffersOf, Then;
    StepExactly(env, sections, part, Tools);
    var tools := CompileStep(env, sections, part, Tools);
    ThenExactly(env, tools, part, Prompts);
    var prompts := Then(env, tools, part, Prompts);
    ThenExactly(env, prompts, part, Resources);
    var resources := Then(env, prompts, part, Resources);
    ThenExactly(env, resources, part, Templates);
  }

  // ---- All components ----

  function AllOffers(env: Environment, family: Family, parts: seq<Part>): seq<Offer> {
    if |parts| == 0 then []
    else AllOffers(env, family, parts[..|parts| - 1]) + OffersOf(env, family, parts[|parts| - 1])
  }

  function InstallParts(env: Environment, parts: seq<Part>): Sections {
    if |parts| == 0 then NO_SECTIONS
    else InstallPart(env, InstallParts(env, parts[..|parts| - 1]), parts[|parts| - 1])
  }

  lemma {:induction false} InstallAllAppend(section: Section, a: seq<Offer>, b: seq<Offer>)
    ensures InstallAll(section, a + b) == InstallAll(InstallAll(section, a), b)
    decreases |b|
  {
    if |b| == 0 {
      assert a + b == a;
    } else {
      InstallAllAppend(section, a, b[..|b| - 1]);
      assert (a + b)[..|a + b| - 1] == a + b[..|b| - 1];
    }
  }

  lemma GetInstallPart(env: Environment, sections: Sections, part: Part, family: Family)
    ensures Get(InstallPart(env, sections, part), family) ==
      InstallAll(Get(sections, family), OffersOf(env, family, part))
  {
  }

  /** One family's section is what all its offers add up to. */
  lemma {:induction false} SectionsExactly(env: Environment, parts: seq<Part>, family: Family)
    ensures Get(InstallParts(env, parts), family) == InstallAll(EMPTY, AllOffers(env, family, parts))
  {
    if |parts| > 0 {
      var init, last := parts[..|parts| - 1], parts[|parts| - 1];
      SectionsExactly(env, init, family);
      InstallAllAppend(EMPTY, AllOffers(env, family, init), OffersOf(env, family, last));
      GetInstallPart(env, InstallParts(env, init), last, family);
    }
  }

  ghost predicate Apart(a: seq<Offer>, b: seq<Offer>) {
    forall i, j :: 0 <= i < |a| && 0 <= j < |b| ==> a[i].name != b[j].name
  }

  ghost predicate OwnCoherent(env: Environment, family: Family, part: Part) {
    Sound(env, family, part) && Distinct(OffersOf(env, family, part))
  }

  ghost predicate PartsApart(env: Environment, family: Family, a: Part, b: Part) {
    Apart(OffersOf(env, family, a), OffersOf(env, family, b))
  }

  /** Nothing is wrong within a component, nor between it and an earlier one. */
  ghost predicate Coherent(env: Environment, parts: seq<Part>, family: Family) {
    && (forall i :: 0 <= i < |parts| ==> OwnCoherent(env, family, parts[i]))
    && (forall i, j :: 0 <= i < j < |parts| ==> PartsApart(env, family, parts[i], parts[j]))
  }

  /** Each component in turn fits into what the earlier ones installed. */
  ghost predicate Accepted(env: Environment, parts: seq<Part>, family: Family) {
    |parts| == 0 ||
    (var init := parts[..|parts| - 1];
     Accepted(env, init, family) && Fits(env, family, parts[|parts| - 1], Get(InstallParts(env, init), family)))
  }

  ghost predicate AllAccepted(env: Environment, parts: seq<Part>) {
    |parts| == 0 ||
    (var init := parts[..|parts| - 1];
     AllAccepted(env, init) && FitsAll(env, parts[|parts| - 1], InstallParts(env, init)))
  }

  lemma {:induction false} AllAcceptedIn(env: Environment, parts: seq<Part>, family: Family)
    requires AllAccepted(env, parts)
    ensures Accepted(env, parts, family)
  {
    if |parts| > 0 { AllAcceptedIn(env, parts[..|parts| - 1], family); }
  }

  lemma {:induction false} AcceptedInAll(env: Environment, parts: seq<Part>)
    requires Accepted(env, parts, Tools) && Accepted(env, parts, Prompts)
    requires Accepted(env, parts, Resources) && Accepted(env, parts, Templates)
    ensures AllAccepted(env, parts)
  {
    hide Fits;
    if |parts| > 0 { AcceptedInAll(env, parts[..|parts| - 1]); }
  }

  lemma {:induction false} OffersCovered(env: Environment, parts: seq<Part>, family: Family, name: string)
    ensures OfferedIn(AllOffers(env, family, parts), name) <==>
      exists i :: 0 <= i < |parts| && OfferedIn(OffersOf(env, family, parts[i]), name)
  {
    if |parts| > 0 {
      var init, last := parts[..|parts| - 1], parts[|parts| - 1];
      OffersCovered(env, init, family, name);
      OfferedInAppend(AllOffers(env, family, init), OffersOf(env, family, last), name);
      assert forall i :: 0 <= i < |init| ==> init[i] == parts[i];
      if OfferedIn(AllOffers(env, family, init), name) {
        var i :| 0 <= i < |init| && OfferedIn(OffersOf(env, family, init[i]), name);
        assert OfferedIn(OffersOf(env, family, parts[i]), name);
      }
    }
  }

  lemma OfferedInAppend(a: seq<Offer>, b: seq<Offer>, name: string)
    ensures OfferedIn(a + b, name) <==> OfferedIn(a, name) || OfferedIn(b, name)
  {
    if OfferedIn(a, name) {
      var i :| 0 <= i < |a| && a[i].name == name;
      assert (a + b)[i].name == name;
    }
    if OfferedIn(b, name) {
      var i :| 0 <= i < |b| && b[i].name == name;
      assert (a + b)[|a| + i].name == name;
    }
  }

  /** The offers fit into what the earlier components installed exactly when they stay
      apart from each of them. */
  lemma FreeExactly(env: Environment, init: seq<Part>, last: Part, family: Family)
    ensures Free(Get(InstallParts(env, init), family), OffersOf(env, family, last)) <==>
      forall i :: 0 <= i < |init| ==> PartsApart(env, family, init[i], last)
  {
    var section, offers := Get(InstallParts(env, init), family), OffersOf(env, family, last);
    SectionsExactly(env, init, family);
    InstalledNames(EMPTY, AllOffers(env, family, init));
    forall k | 0 <= k < |offers|
      ensures offers[k].name in section.routes <==>
        exists i :: 0 <= i < |init| && OfferedIn(OffersOf(env, family, init[i]), offers[k].name)
    {
      OffersCovered(env, init, family, offers[k].name);
    }
    if Free(section, offers) {
      forall i | 0 <= i < |init| ensures PartsApart(env, family, init[i], last) {
        forall x, k | 0 <= x < |OffersOf(env, family, init[i])| && 0 <= k < |offers|
          ensures OffersOf(env, family, init[i])[x].name != offers[k].name
        {
          assert offers[k].name !in section.routes;
          assert !OfferedIn(OffersOf(env, family, init[i]), offers[k].name);
        }
      }
    }
  }

  lemma CoherentSplit(env: Environment, init: seq<Part>, last: Part, family: Family)
    ensures Coherent(env, init + [last], family) <==>
      && Coherent(env, init, family) && OwnCoherent(env, family, last)
      && forall i :: 0 <= i < |init| ==> PartsApart(env, family, init[i], last)
  {
    hide OwnCoherent, PartsApart;
    var all := init + [last];
    assert all[|init|] == last && forall i :: 0 <= i < |init| ==> all[i] == init[i];
    if Coherent(env, all, family) {
      assert OwnCoherent(env, family, all[|init|]);
      forall i | 0 <= i < |init| ensures PartsApart(env, family, init[i], last) && OwnCoherent(env, family, init[i]) {
        assert PartsApart(env, family, all[i], all[|init|]) && OwnCoherent(env, family, all[i]);
      }
      forall i, j | 0 <= i < j < |init| ensures PartsApart(env, family, init[i], init[j]) {
        assert PartsApart(env, family, all[i], all[j]);
      }
    }
  }

  /** Fitting in one after the other is the same as being coherent pair by pair. */
  lemma {:induction false} AcceptedExactly(env: Environment, parts: seq<Part>, family: Family)
    ensures Accepted(env, parts, family) <==> Coherent(env, parts, family)
  {
    hide Sound, Distinct, Free, PartsApart, InstallParts, OffersOf;
    if |parts| > 0 {
      var init, last := parts[..|parts| - 1], parts[|parts| - 1];
      assert init + [last] == parts;
      AcceptedExactly(env, init, family);
      CoherentSplit(env, init, last, family);
      FreeExactly(env, init, last, family);
    }
  }

  /** Components compile together exactly when each fits in every family, and then
      every section holds what the offers add up to. */
  lemma {:induction false} AllExactly(env: Environment, parts: seq<Part>)
    ensures CompileAll(env, parts).Ok? <==> AllAccepted(env, parts)
    ensures CompileAll(env, parts).Ok? ==> CompileAll(env, parts).value == InstallParts(env, parts)
  {
    if |parts| > 0 {
      AllExactly(env, parts[..|parts| - 1]);
      ComponentExactly(env, InstallParts(env, parts[..|parts| - 1]), parts[|parts| - 1]);
    }
  }

  // ---- Sorting ----

  ghost predicate SortedKeys(features: seq<Feature>) {
    forall i, j :: 0 <= i < j < |features| ==> !Less(features[j].key, features[i].key)
  }

  lemma {:induction false} InsertSorts(feature: Feature, sorted: seq<Feature>)
    requires SortedKeys(sorted)
    ensures SortedKeys(InsertFeature(feature, sorted))
    ensures multiset(InsertFeature(feature, sorted)) == multiset(sorted) + multiset{feature}
  {
    if |sorted| > 0 {
      if Less(feature.key, sorted[0].key) {
        forall j | 0 <= j < |sorted| ensures !Less(sorted[j].key, feature.key) {
          LessTrichotomy(sorted[0].key, sorted[0].key);
          NotAfter(feature.key, sorted[0].key, sorted[j].key);
        }
      } else {
        InsertSorts(feature, sorted[1..]);
        assert sorted == [sorted[0]] + sorted[1..];
        var rest := InsertFeature(feature, sorted[1..]);
        forall j | 0 <= j < |rest| ensures !Less(rest[j].key, sorted[0].key) {
          assert rest[j] in multiset(rest);
          assert rest[j] == feature || rest[j] in sorted[1..];
        }
      }
    }
  }

  lemma NotAfter(a: string, b: string, c: string)
    requires Less(a, b) && !Less(c, b)
    ensures !Less(c, a)
  {
    if Less(c, a) { LessTransitive(c, a, b); }
  }

  /** Sorting permutes. */
  lemma {:induction false} SortSorts(features: seq<Feature>)
    ensures SortedKeys(SortFeatures(features)) && multiset(SortFeatures(features)) == multiset(features)
  {
    if |features| > 0 {
      SortSorts(features[..|features| - 1]);
      InsertSorts(features[|features| - 1], SortFeatures(features[..|features| - 1]));
      assert features == features[..|features| - 1] + [features[|features| - 1]];
    }
  }

  // ---- A whole configuration ----

  /** `parts` are the components with the prefixes and features that compiling finds. */
  ghost predicate PartsFor(env: Environment, cfg: Config, deferAuthorization: bool, parts: seq<Part>) {
    && |parts| == |cfg.servers|
    && forall i :: 0 <= i < |parts| ==> PartFor(env, cfg.servers, i, deferAuthorization, parts[i])
  }

  predicate PartFor(env: Environment, servers: seq<Server>, i: nat, deferAuthorization: bool, part: Part)
    requires i < |servers|
  {
    var found := Find(env, servers[i], part.prefix, deferAuthorization);
    part.server == servers[i] && PrefixOf(servers, i) == Ok(part.prefix) && found.Ok?
      && found.value.features == part.features
  }

  /** The component is in its place, has the prefix it is due, and either lists the
      features, or asks for authorization where that may be deferred. */
  ghost predicate Describes(env: Environment, cfg: Config, deferAuthorization: bool, i: nat, part: Part)
    requires i < |cfg.servers|
  {
    && part.server == cfg.servers[i]
    && (if |cfg.servers| <= 1 && part.server.prefix == "" then part.prefix == ""
        else Namespace.Prefix(part.server.name, part.server.prefix) == Ok(part.prefix))
    && match env.discover(part.server)
       case Listed(listed) => listed == Some(part.features)
       case Challenged => deferAuthorization && part.features == NOTHING
       case Failed => false
  }

  ghost predicate Described(env: Environment, cfg: Config, deferAuthorization: bool, parts: seq<Part>) {
    |parts| == |cfg.servers| && forall i :: 0 <= i < |parts| ==> Describes(env, cfg, deferAuthorization, i, parts[i])
  }

  /** A component that lists features is found exactly if it compiles alone. */
  lemma FindExactly(env: Environment, part: Part, deferAuthorization: bool)
    requires forall family: Family :: OwnCoherent(env, family, part)
    ensures match env.discover(part.server)
      case Challenged =>
        Find(env, part.server, part.prefix, deferAuthorization) ==
          if deferAuthorization then Ok(Found(NOTHING, true)) else Err(Unauthorized)
      case Listed(Some(features)) =>
        features == part.features ==>
          Find(env, part.server, part.prefix, deferAuthorization) == Ok(Found(features, false))
      case _ => Find(env, part.server, part.prefix, deferAuthorization) == Err(Undiscovered(part.server.name))
  {
    hide OwnCoherent;
    OwnFits(env, Tools, part);
    OwnFits(env, Prompts, part);
    OwnFits(env, Resources, part);
    OwnFits(env, Templates, part);
    ComponentExactly(env, NO_SECTIONS, part);
    hide CompileComponent, Fits;
    assert FitsAll(env, part, NO_SECTIONS) && part == Part(part.server, part.prefix, part.features);
  }

  lemma OwnFits(env: Environment, family: Family, part: Part)
    requires OwnCoherent(env, family, part)
    ensures Fits(env, family, part, EMPTY)
  {
    hide OffersOf, Sound;
  }

  lemma DescribedExactly(env: Environment, cfg: Config, deferAuthorization: bool, parts: seq<Part>)
    requires Together(env, cfg, parts)
    ensures PartsFor(env, cfg, deferAuthorization, parts) <==> Described(env, cfg, deferAuthorization, parts)
  {
    hide OwnCoherent, PartsApart, PartFor, Describes, OffersOf;
    forall i | 0 <= i < |parts| && |parts| == |cfg.servers|
      ensures PartFor(env, cfg.servers, i, deferAuthorization, parts[i]) <==>
        Describes(env, cfg, deferAuthorization, i, parts[i])
    {
      forall family: Family ensures OwnCoherent(env, family, parts[i]) { assert Coherent(env, parts, family); }
      OneDescribed(env, cfg, deferAuthorization, i, parts[i]);
    }
  }

  lemma OneDescribed(env: Environment, cfg: Config, deferAuthorization: bool, i: nat, part: Part)
    requires i < |cfg.servers| && forall family: Family :: OwnCoherent(env, family, part)
    ensures PartFor(env, cfg.servers, i, deferAuthorization, part) <==> Describes(env, cfg, deferAuthorization, i, part)
  {
    hide OwnCoherent, CompileComponent;
    if part.server == cfg.servers[i] { FindExactly(env, part, deferAuthorization); }
  }

  /** Main result. A configuration compiles exactly when every component has a prefix and
      lists its features, or asks for an authorization that may be deferred; these are
      coherent in every family; and no tool takes the reserved name. */
  lemma CompileExactly(env: Environment, cfg: Config, deferAuthorization: bool)
    ensures Compile(env, cfg, deferAuthorization).Ok? <==>
      exists parts :: Described(env, cfg, deferAuthorization, parts) && Together(env, cfg, parts)
  {
    hide Together, Described;
    PartsExactly(env, cfg, deferAuthorization);
    forall parts | Together(env, cfg, parts)
      ensures PartsFor(env, cfg, deferAuthorization, parts) <==> Described(env, cfg, deferAuthorization, parts)
    {
      DescribedExactly(env, cfg, deferAuthorization, parts);
    }
  }

  lemma PartsExactly(env: Environment, cfg: Config, deferAuthorization: bool)
    ensures Compile(env, cfg, deferAuthorization).Ok? <==>
      exists parts :: PartsFor(env, cfg, deferAuthorization, parts) && Together(env, cfg, parts)
  {
    PrefixesExactly(cfg.servers);
    if Compile(env, cfg, deferAuthorization).Ok? {
      var parts := SomeParts(env, cfg, deferAuthorization);
    }
    if parts :| PartsFor(env, cfg, deferAuthorization, parts) && Together(env, cfg, parts) {
      PartsCompile(env, cfg, deferAuthorization, parts);
    }
  }

  /** In every family, each component's offers are sound and distinct, and no two
      components offer the same name; the reserved tool name is not taken. */
  ghost predicate Together(env: Environment, cfg: Config, parts: seq<Part>) {
    && (forall family: Family :: Coherent(env, parts, family))
    && (cfg.deferAuthorization ==> forall i :: 0 <= i < |parts| ==>
      !OfferedIn(OffersOf(env, Tools, parts[i]), AUTHORIZATION_TOOL))
  }

  lemma TogetherExactly(env: Environment, cfg: Config, parts: seq<Part>)
    ensures Together(env, cfg, parts) <==>
      AllAccepted(env, parts)
        && (cfg.deferAuthorization ==> AUTHORIZATION_TOOL !in InstallParts(env, parts).tools.routes)
  {
    hide Accepted, Coherent, OffersOf, InstallParts;
    forall family: Family ensures Accepted(env, parts, family) <==> Coherent(env, parts, family) {
      AcceptedExactly(env, parts, family);
    }
    if AllAccepted(env, parts) {
      forall family: Family ensures Accepted(env, parts, family) { AllAcceptedIn(env, parts, family); }
    } else if Together(env, cfg, parts) {
      AcceptedInAll(env, parts);
    }
    SectionsExactly(env, parts, Tools);
    InstalledNames(EMPTY, AllOffers(env, Tools, parts));
    OffersCovered(env, parts, Tools, AUTHORIZATION_TOOL);
  }

  lemma SomeParts(env: Environment, cfg: Config, deferAuthorization: bool) returns (parts: seq<Part>)
    requires Compile(env, cfg, deferAuthorization).Ok?
    ensures PartsFor(env, cfg, deferAuthorization, parts) && Together(env, cfg, parts)
  {
    PrefixesExactly(cfg.servers);
    var prefixes := Prefixes(cfg.servers).value;
    FindAllExactly(env, cfg.servers, prefixes, deferAuthorization);
    parts := PartsOf(cfg.servers, prefixes, FindAll(env, cfg.servers, prefixes, deferAuthorization).value);
    AllExactly(env, parts);
    TogetherExactly(env, cfg, parts);
    forall i | 0 <= i < |parts| ensures PartFor(env, cfg.servers, i, deferAuthorization, parts[i]) {
      assert PrefixOf(cfg.servers, i) == Ok(prefixes[i]);
    }
  }

  /** A configuration's catalog is made from its parts; without deferral it is never
      pending. */
  lemma PartsCompile(env: Environment, cfg: Config, deferAuthorization: bool, parts: seq<Part>)
    requires PartsFor(env, cfg, deferAuthorization, parts) && Together(env, cfg, parts)
    ensures Compile(env, cfg, deferAuthorization).Ok?
    ensures Made(cfg, InstallParts(env, parts), Compile(env, cfg, deferAuthorization).value)
    ensures !deferAuthorization ==> Compile(env, cfg, deferAuthorization).value.pendingAuthorization == []
  {
    var servers := cfg.servers;
    var prefixes, found := PartsFound(env, cfg, deferAuthorization, parts);
    SameParts(env, cfg, deferAuthorization, parts, prefixes, found);
    AllExactly(env, parts);
    TogetherExactly(env, cfg, parts);
    if !deferAuthorization { NonePending(env, servers, prefixes, found); }
    FinishMakes(cfg, found, InstallParts(env, parts));
  }

  /** A pending catalog shows one tool; any other holds the sections, sorted, and shows
      its tools or, instead of them, the two that search and call them. */
  predicate Made(cfg: Config, sections: Sections, catalog: Catalog) {
    if catalog.pendingAuthorization != [] then
      catalog.visibleTools == [AUTHORIZATION]
      && catalog.sections == NO_SECTIONS.(tools := Section([AUTHORIZATION], map[]))
    else
      && catalog.toolSearch == cfg.toolSearch
      && catalog.visibleTools == (if cfg.toolSearch then SortFeatures(DEFINITIONS) else catalog.sections.tools.exposed)
      && catalog.sections == SortedSections(sections)
  }

  function SortedSections(s: Sections): Sections {
    Sections(Sorted(s.tools), Sorted(s.prompts), Sorted(s.resources), Sorted(s.templates))
  }

  lemma FinishMakes(cfg: Config, found: seq<Found>, sections: Sections)
    requires |found| == |cfg.servers| && (cfg.deferAuthorization ==> AUTHORIZATION_TOOL !in sections.tools.routes)
    ensures Finish(cfg, found, sections).Ok? && Made(cfg, sections, Finish(cfg, found, sections).value)
    ensures Finish(cfg, found, sections).value.pendingAuthorization == PendingNames(cfg.servers, found)
  {
  }

  lemma PartsFound(env: Environment, cfg: Config, deferAuthorization: bool, parts: seq<Part>)
      returns (prefixes: seq<string>, found: seq<Found>)
    requires PartsFor(env, cfg, deferAuthorization, parts)
    ensures Prefixes(cfg.servers) == Ok(prefixes) && |prefixes| == |found| == |cfg.servers|
    ensures FindAll(env, cfg.servers, prefixes, deferAuthorization) == Ok(found)
    ensures forall i :: 0 <= i < |parts| ==> prefixes[i] == parts[i].prefix
    ensures forall i :: 0 <= i < |parts| ==> Find(env, cfg.servers[i], prefixes[i], deferAuthorization) == Ok(found[i])
  {
    var servers := cfg.servers;
    PrefixesExactly(servers);
    forall i | 0 <= i < |servers| ensures PrefixOf(servers, i) == Ok(parts[i].prefix) {
      assert PartFor(env, servers, i, deferAuthorization, parts[i]);
    }
    prefixes := Prefixes(servers).value;
    FindAllExactly(env, servers, prefixes, deferAuthorization);
    forall i | 0 <= i < |servers|
      ensures prefixes[i] == parts[i].prefix && Find(env, servers[i], prefixes[i], deferAuthorization).Ok?
    {
      assert PartFor(env, servers, i, deferAuthorization, parts[i]);
    }
    found := FindAll(env, servers, prefixes, deferAuthorization).value;
  }

  lemma SameParts(env: Environment, cfg: Config, deferAuthorization: bool, parts: seq<Part>, prefixes: seq<string>,
                  found: seq<Found>)
    requires PartsFor(env, cfg, deferAuthorization, parts) && |prefixes| == |found| == |cfg.servers|
    requires forall i :: 0 <= i < |parts| ==> prefixes[i] == parts[i].prefix
    requires forall i :: 0 <= i < |parts| ==> Find(env, cfg.servers[i], prefixes[i], deferAuthorization) == Ok(found[i])
    ensures PartsOf(cfg.servers, prefixes, found) == parts
  {
    forall i | 0 <= i < |parts| ensures Part(cfg.servers[i], prefixes[i], found[i].features) == parts[i] {
      assert PartFor(env, cfg.servers, i, deferAuthorization, parts[i]);
    }
  }

  lemma {:induction false} NonePending(env: Environment, servers: seq<Server>, prefixes: seq<string>, found: seq<Found>)
    requires |servers| == |prefixes| == |found|
    requires forall i :: 0 <= i < |servers| ==> Find(env, servers[i], prefixes[i], false) == Ok(found[i])
    ensures PendingNames(servers, found) == []
  {
    if |servers| > 0 {
      var n := |servers| - 1;
      NonePending(env, servers[..n], prefixes[..n], found[..n]);
      assert Find(env, servers[n], prefixes[n], false) == Ok(found[n]);
    }
  }
}
