/** What a compiled catalog exposes and where each name leads. */
module CatalogRoutes {
  import opened Wrappers
  import opened Ordering
  import opened CatalogTypes
  import opened FamilyCompiler
  import opened CatalogCompiler
  import opened CatalogExactness
  import opened ToolCalls
  import Namespace

  /** The k-th feature that a component reported is exposed as `name`: its family is
      on, the overrides allow it, and renaming and prefixing it gives the name. */
  ghost predicate Leads(env: Environment, family: Family, part: Part, k: nat, name: string, route: Route) {
    var job := JobOf(env, family, part);
    var inventory := Inventory(part, family);
    && !Disabled(family, part.server) && k < |inventory| && inventory[k].Some?
    && Allowed(family, job.keyed, inventory[k].value.key)
    && Named(env, family, part.prefix, LocalKey(job.keyed, inventory[k].value.key)) == Ok(name)
    && route == Route(part.server, part.prefix, inventory[k].value, name, part.features.protocolVersion)
  }

  ghost predicate LeadsFrom(env: Environment, family: Family, part: Part, name: string, route: Route) {
    exists k :: Leads(env, family, part, k, name, route)
  }

  lemma OffersLead(env: Environment, family: Family, part: Part, name: string, route: Route)
    ensures (exists offer :: offer in OffersOf(env, family, part) && offer.name == name && offer.route == route) <==>
      LeadsFrom(env, family, part, name, route)
  {
    var job, inventory := JobOf(env, family, part), Inventory(part, family);
    if offer :| offer in OffersOf(env, family, part) && offer.name == name && offer.route == route {
      OffersExactly(job, inventory, offer);
      var k :| 0 <= k < |inventory| && From(job, inventory[k], offer);
      assert Leads(env, family, part, k, name, route);
    }
    if k: nat :| Leads(env, family, part, k, name, route) {
      var offer := OfferOf(job, name, inventory[k].value);
      assert From(job, inventory[k], offer);
      OffersExactly(job, inventory, offer);
      assert offer in OffersOf(env, family, part) && offer.name == name && offer.route == route;
    }
  }

  lemma {:induction false} AllOffersFrom(env: Environment, family: Family, parts: seq<Part>, offer: Offer)
    ensures offer in AllOffers(env, family, parts) <==>
      exists i :: 0 <= i < |parts| && offer in OffersOf(env, family, parts[i])
  {
    hide OffersOf;
    if |parts| > 0 {
      var init, last := parts[..|parts| - 1], parts[|parts| - 1];
      AllOffersFrom(env, family, init, offer);
      if offer in AllOffers(env, family, init) {
        var i :| 0 <= i < |init| && offer in OffersOf(env, family, init[i]);
        assert parts[i] == init[i];
      }
    }
  }

  lemma RoutesFromOffers(offers: seq<Offer>, name: string, route: Route)
    requires Distinct(offers)
    ensures var routes := InstallAll(EMPTY, offers).routes;
      (name in routes && routes[name] == route) <==>
        exists offer :: offer in offers && offer.name == name && offer.route == route
  {
    RoutedOffers(offers, name);
    FindOfferExactly(offers, name);
    if offer :| offer in offers && offer.name == name && offer.route == route {
      var i :| 0 <= i < |offers| && offers[i] == offer;
      var j :| 0 <= j < |offers| && offers[j] == FindOffer(offers, name).value && offers[j].name == name;
      assert i == j;
    }
  }

  /** In terms of the compiler's own notions: a name has a route exactly when some
      component has a feature that is exposed under that name. */
  lemma RoutesLead(env: Environment, cfg: Config, deferAuthorization: bool, parts: seq<Part>, family: Family,
                   name: string, route: Route)
    requires PartsFor(env, cfg, deferAuthorization, parts) && Together(env, cfg, parts)
    requires Compile(env, cfg, deferAuthorization).Ok?
    requires Compile(env, cfg, deferAuthorization).value.pendingAuthorization == []
    ensures var routes := Get(Compile(env, cfg, deferAuthorization).value.sections, family).routes;
      (name in routes && routes[name] == route) <==>
        exists i :: 0 <= i < |parts| && LeadsFrom(env, family, parts[i], name, route)
  {
    hide Compile, InstallAll, LeadsFrom, AllOffers;
    FamilyOffers(env, cfg, deferAuthorization, parts, family);
    var offers := AllOffers(env, family, parts);
    RoutesFromOffers(offers, name, route);
    if offer :| offer in offers && offer.name == name && offer.route == route {
      AllOffersFrom(env, family, parts, offer);
      var i :| 0 <= i < |parts| && offer in OffersOf(env, family, parts[i]);
      OffersLead(env, family, parts[i], name, route);
    }
    if i :| 0 <= i < |parts| && LeadsFrom(env, family, parts[i], name, route) {
      OffersLead(env, family, parts[i], name, route);
      var offer :| offer in OffersOf(env, family, parts[i]) && offer.name == name && offer.route == route;
      AllOffersFrom(env, family, parts, offer);
    }
  }

  lemma FamilyOffers(env: Environment, cfg: Config, deferAuthorization: bool, parts: seq<Part>, family: Family)
    requires PartsFor(env, cfg, deferAuthorization, parts) && Together(env, cfg, parts)
    requires Compile(env, cfg, deferAuthorization).Ok?
    requires Compile(env, cfg, deferAuthorization).value.pendingAuthorization == []
    ensures var offers := AllOffers(env, family, parts);
      && Distinct(offers) && (forall offer :: offer in offers ==> offer.feature.key == offer.name)
      && Get(Compile(env, cfg, deferAuthorization).value.sections, family) == Sorted(InstallAll(EMPTY, offers))
  {
    hide Compile, InstallAll;
    PartsCompile(env, cfg, deferAuthorization, parts);
    AcceptedExactly(env, parts, family);
    AcceptedDistinct(env, parts, family);
    AllOffersProper(env, family, parts);
    SectionsExactly(env, parts, family);
  }

  /** Main result. The exposed features are sorted by name without repetition, and
      their names are exactly the names that have routes. */
  lemma ExposedExactly(env: Environment, cfg: Config, deferAuthorization: bool, parts: seq<Part>, family: Family)
    requires PartsFor(env, cfg, deferAuthorization, parts) && Together(env, cfg, parts)
    requires Compile(env, cfg, deferAuthorization).Ok?
    requires Compile(env, cfg, deferAuthorization).value.pendingAuthorization == []
    ensures var section := Get(Compile(env, cfg, deferAuthorization).value.sections, family);
      && StrictlySorted(KeysOf(section.exposed))
      && (forall name :: name in KeysOf(section.exposed) <==> name in section.routes)
  {
    hide Compile, InstallAll, AllOffers, PartsFor, Together;
    FamilyOffers(env, cfg, deferAuthorization, parts, family);
    SortedOffers(AllOffers(env, family, parts));
    ExposedNames(AllOffers(env, family, parts));
  }

  lemma SortedOffers(offers: seq<Offer>)
    requires Distinct(offers) && forall offer :: offer in offers ==> offer.feature.key == offer.name
    ensures StrictlySorted(KeysOf(SortFeatures(InstallAll(EMPTY, offers).exposed)))
  {
    hide InstallAll, SortFeatures;
    InstalledFeatures(EMPTY, offers);
    assert EMPTY.exposed + FeaturesOf(offers) == FeaturesOf(offers);
    OffersDistinctFeatures(offers);
    SortedStrictly(FeaturesOf(offers));
  }

  lemma OffersDistinctFeatures(offers: seq<Offer>)
    requires Distinct(offers) && forall offer :: offer in offers ==> offer.feature.key == offer.name
    ensures DistinctFeatures(FeaturesOf(offers))
  {
    forall i, j | 0 <= i < j < |offers| ensures FeaturesOf(offers)[i].key != FeaturesOf(offers)[j].key {
      assert offers[i] in offers && offers[j] in offers;
    }
  }

  lemma SortedStrictly(features: seq<Feature>)
    requires DistinctFeatures(features)
    ensures StrictlySorted(KeysOf(SortFeatures(features)))
  {
    hide SortFeatures, Less;
    SortSorts(features);
    var sorted := SortFeatures(features);
    DistinctKeysPermuted(features, sorted);
    forall i, j | 0 <= i < j < |sorted| ensures Less(KeysOf(sorted)[i], KeysOf(sorted)[j]) {
      LessTrichotomy(sorted[i].key, sorted[j].key);
      assert !Less(sorted[j].key, sorted[i].key) && sorted[i].key != sorted[j].key;
    }
  }

  ghost predicate DistinctFeatures(features: seq<Feature>) {
    forall i, j :: 0 <= i < j < |features| ==> features[i].key != features[j].key
  }

  /** Distinct keys stay distinct under permutation. */
  lemma {:induction false} DistinctKeysPermuted(a: seq<Feature>, b: seq<Feature>)
    requires DistinctFeatures(a) && multiset(a) == multiset(b)
    ensures DistinctFeatures(b)
  {
    forall i, j | 0 <= i < j < |b| ensures b[i].key != b[j].key {
      assert b[i] in multiset(b) && b[j] in multiset(b);
      var x :| 0 <= x < |a| && a[x] == b[i];
      var y :| 0 <= y < |a| && a[y] == b[j];
      if x == y {
        TwoOccurrences(b, i, j);
        OneOccurrence(a, x);
      }
    }
  }

  lemma TwoOccurrences(s: seq<Feature>, i: nat, j: nat)
    requires i < j < |s| && s[i] == s[j]
    ensures multiset(s)[s[i]] >= 2
  {
    assert s == s[..i] + [s[i]] + s[i + 1..j] + [s[j]] + s[j + 1..];
  }

  lemma OneOccurrence(s: seq<Feature>, x: nat)
    requires DistinctFeatures(s) && x < |s|
    ensures multiset(s)[s[x]] == 1
  {
    assert s == s[..x] + [s[x]] + s[x + 1..];
    assert s[x] !in s[..x] && s[x] !in s[x + 1..];
    assert multiset(s) == multiset(s[..x]) + multiset{s[x]} + multiset(s[x + 1..]);
  }

  lemma ExposedNames(offers: seq<Offer>)
    requires Distinct(offers) && forall offer :: offer in offers ==> offer.feature.key == offer.name
    ensures var section := Sorted(InstallAll(EMPTY, offers));
      forall name :: name in KeysOf(section.exposed) <==> name in section.routes
  {
    var section := Sorted(InstallAll(EMPTY, offers));
    forall name ensures name in KeysOf(section.exposed) <==> name in section.routes {
      ExposedOffers(offers, name);
      RoutedOffers(offers, name);
      FindOfferExactly(offers, name);
      KeysHold(section.exposed, name);
      if FindOffer(offers, name).Some? {
        assert FindOffer(offers, name).value in offers;
      }
    }
  }

  lemma KeysHold(features: seq<Feature>, name: string)
    ensures name in KeysOf(features) <==> exists feature :: feature in features && feature.key == name
  {
    if name in KeysOf(features) {
      var i :| 0 <= i < |features| && KeysOf(features)[i] == name;
      assert features[i] in features;
    }
    if feature :| feature in features && feature.key == name {
      var i :| 0 <= i < |features| && features[i] == feature;
      assert KeysOf(features)[i] == name;
    }
  }

  /** Compiling without deferral never yields a pending catalog, and a pending catalog
      routes nothing. */
  lemma PendingExactly(env: Environment, cfg: Config, deferAuthorization: bool)
    requires Compile(env, cfg, deferAuthorization).Ok?
    ensures var catalog := Compile(env, cfg, deferAuthorization).value;
      && (!deferAuthorization ==> catalog.pendingAuthorization == [])
      && (catalog.pendingAuthorization != [] ==>
        catalog.sections.tools.routes == map[] && catalog.visibleTools == [AUTHORIZATION])
      && (catalog.pendingAuthorization != [] <==>
        exists server :: server in cfg.servers && env.discover(server).Challenged?)
  {
    var parts := SomeParts(env, cfg, deferAuthorization);
    PartsCompile(env, cfg, deferAuthorization, parts);
    PrefixesExactly(cfg.servers);
    var prefixes := Prefixes(cfg.servers).value;
    FindAllExactly(env, cfg.servers, prefixes, deferAuthorization);
    var found := FindAll(env, cfg.servers, prefixes, deferAuthorization).value;
    PendingChallenged(env, cfg.servers, prefixes, found, deferAuthorization);
  }

  /** The components that ask for authorization, in configuration order. */
  function ChallengedNames(env: Environment, servers: seq<Server>): seq<string> {
    if |servers| == 0 then []
    else
      var rest, last := ChallengedNames(env, servers[..|servers| - 1]), servers[|servers| - 1];
      if env.discover(last).Challenged? then rest + [last.name] else rest
  }

  /** A pending catalog names exactly those components; and a catalog presents itself as its
      only component does, and as nobody if there are several. */
  lemma CatalogPresents(env: Environment, cfg: Config, deferAuthorization: bool)
    requires Compile(env, cfg, deferAuthorization).Ok?
    ensures var catalog := Compile(env, cfg, deferAuthorization).value;
      && catalog.pendingAuthorization == ChallengedNames(env, cfg.servers)
      && (|cfg.servers| != 1 ==> catalog.serverInfo == None)
      && (|cfg.servers| == 1 ==>
            match env.discover(cfg.servers[0])
            case Listed(Some(features)) => catalog.serverInfo == features.serverInfo
            case _ => catalog.serverInfo == None)
  {
    hide FindAll, CompileAll, CompileComponent;
    PrefixesExactly(cfg.servers);
    var prefixes := Prefixes(cfg.servers).value;
    FindAllExactly(env, cfg.servers, prefixes, deferAuthorization);
    var found := FindAll(env, cfg.servers, prefixes, deferAuthorization).value;
    NamesChallenged(env, cfg.servers, prefixes, found, deferAuthorization);
    hide PendingNames, ChallengedNames;
  }

  lemma {:induction false} NamesChallenged(env: Environment, servers: seq<Server>, prefixes: seq<string>,
                                           found: seq<Found>, deferAuthorization: bool)
    requires |servers| == |prefixes| == |found|
    requires forall i :: 0 <= i < |servers| ==> Find(env, servers[i], prefixes[i], deferAuthorization) == Ok(found[i])
    ensures PendingNames(servers, found) == ChallengedNames(env, servers)
  {
    hide Find;
    if |servers| > 0 {
      var n := |servers| - 1;
      NamesChallenged(env, servers[..n], prefixes[..n], found[..n], deferAuthorization);
      assert Find(env, servers[n], prefixes[n], deferAuthorization) == Ok(found[n]);
      PendingWhenChallenged(env, servers[n], prefixes[n], deferAuthorization);
    }
  }

  lemma PendingWhenChallenged(env: Environment, server: Server, prefix: string, deferAuthorization: bool)
    requires Find(env, server, prefix, deferAuthorization).Ok?
    ensures Find(env, server, prefix, deferAuthorization).value.pending <==> env.discover(server).Challenged?
  {
    hide CompileComponent;
  }

  lemma {:induction false} PendingChallenged(env: Environment, servers: seq<Server>, prefixes: seq<string>,
                                             found: seq<Found>, deferAuthorization: bool)
    requires |servers| == |prefixes| == |found|
    requires forall i :: 0 <= i < |servers| ==> Find(env, servers[i], prefixes[i], deferAuthorization) == Ok(found[i])
    ensures PendingNames(servers, found) != [] <==>
      exists server :: server in servers && env.discover(server).Challenged?
  {
    hide Find;
    if |servers| > 0 {
      var n := |servers| - 1;
      PendingChallenged(env, servers[..n], prefixes[..n], found[..n], deferAuthorization);
      assert Find(env, servers[n], prefixes[n], deferAuthorization) == Ok(found[n]);
      PendingWhenChallenged(env, servers[n], prefixes[n], deferAuthorization);
      assert servers == servers[..n] + [servers[n]];
    }
  }

  // ---- In terms of the configuration alone ----

  /** The override is configured for the family. */
  predicate Configures(server: Server, family: Family, override: Override) {
    match family
    case Tools => override in server.tools
    case Prompts => override in server.prompts
    case Resources => override in server.resources
    case Templates => override in server.templates
  }

  /** Tools may be switched off as a whole, and once there are tool overrides a tool needs
      one that enables it. Elsewhere a feature is selected unless one disables it. */
  ghost predicate Selected(server: Server, family: Family, key: string) {
    if family.Tools? then
      && !server.disableTools
      && (server.tools == [] || exists override :: override in server.tools && override.key == key && override.enabled)
    else
      forall override :: Configures(server, family, override) && override.key == key ==> override.enabled
  }

  /** An override may give the feature another local name. */
  ghost predicate Renames(server: Server, family: Family, key: string, local: string) {
    || (exists override :: Configures(server, family, override) && override.key == key
          && override.rename != "" && local == override.rename)
    || (local == key
        && forall override :: Configures(server, family, override) && override.key == key ==> override.rename == "")
  }

  /** The component reports the feature, or its configuration maps a URI without asking. */
  ghost predicate Reports(part: Part, family: Family, feature: Feature) {
    match family
    case Tools => Some(feature) in part.features.tools
    case Prompts => Some(feature) in part.features.prompts
    case Resources => Some(feature) in part.features.resources || Maps(part.server, family, feature)
    case Templates => Some(feature) in part.features.templates || Maps(part.server, family, feature)
  }

  ghost predicate Maps(server: Server, family: Family, feature: Feature) {
    && server.discoveryMethod !in ["", "resources"]
    && feature == Feature(feature.key, "", "", 0)
    && exists override :: Configures(server, family, override) && override.enabled && override.key == feature.key
  }

  ghost predicate NamedUnder(env: Environment, family: Family, prefix: string, local: string, name: string) {
    match family
    case Tools => Namespace.NamedFeature(prefix, local) == Ok(name)
    case Prompts => Namespace.NamedFeature(prefix, local) == Ok(name)
    case Resources => Namespace.NamedUri(prefix, local, env.validUri(local)) == Ok(name)
    case Templates => Namespace.NamedUri(prefix, local, env.validTemplate(local)) == Ok(name)
  }

  /** The component exposes the feature under the name. */
  ghost predicate Exposes(env: Environment, family: Family, part: Part, feature: Feature, name: string) {
    && Reports(part, family, feature) && Selected(part.server, family, feature.key)
    && exists local ::
         Renames(part.server, family, feature.key, local) && NamedUnder(env, family, part.prefix, local, name)
  }

  lemma KeyedIs(server: Server, family: Family) returns (keyed: map<string, Override>)
    requires DistinctKeys(OverridesOf(server, family))
    ensures KeyedOverrides(OverridesOf(server, family)) == Some(keyed)
    ensures forall override :: Configures(server, family, override) <==>
      override.key in keyed && keyed[override.key] == override
  {
    var overrides := OverridesOf(server, family);
    KeyedExactly(overrides);
    keyed := KeyedOverrides(overrides).value;
    KeyedKeys(overrides);
    forall override ensures Configures(server, family, override) <==>
      override.key in keyed && keyed[override.key] == override
    {
      if override in overrides {
        var i :| 0 <= i < |overrides| && overrides[i] == override;
      }
      if override.key in keyed && keyed[override.key] == override {
        var i :| 0 <= i < |overrides| && overrides[i].key == override.key;
        assert keyed[overrides[i].key] == overrides[i];
      }
    }
  }

  lemma {:induction false} KeyedKeys(overrides: seq<Override>)
    ensures KeyedOverrides(overrides).Some? ==> (|KeyedOverrides(overrides).value| == 0 <==> overrides == [])
    ensures KeyedOverrides(overrides).Some? ==>
      forall key :: key in KeyedOverrides(overrides).value ==> KeyedOverrides(overrides).value[key].key == key
  {
    if |overrides| > 0 { KeyedKeys(overrides[..|overrides| - 1]); }
  }

  lemma AllowedExactly(server: Server, family: Family, keyed: map<string, Override>, key: string)
    requires KeyedOverrides(OverridesOf(server, family)) == Some(keyed)
    requires forall override :: Configures(server, family, override) <==>
      override.key in keyed && keyed[override.key] == override
    ensures Selected(server, family, key) <==> !Disabled(family, server) && Allowed(family, keyed, key)
    ensures forall local :: Renames(server, family, key, local) <==> local == LocalKey(keyed, key)
  {
    KeyedKeys(OverridesOf(server, family));
    if key in keyed { assert Configures(server, family, keyed[key]); }
  }

  lemma {:induction false} ConfiguredExactly(overrides: seq<Override>, feature: Feature)
    ensures Some(feature) in Configured(overrides) <==>
      feature == Feature(feature.key, "", "", 0)
      && exists override :: override in overrides && override.enabled && override.key == feature.key
  {
    if |overrides| > 0 {
      var init, last := overrides[..|overrides| - 1], overrides[|overrides| - 1];
      ConfiguredExactly(init, feature);
      assert overrides == init + [last];
    }
  }

  lemma InventoryExactly(part: Part, family: Family, feature: Feature)
    ensures Some(feature) in Inventory(part, family) <==> Reports(part, family, feature)
  {
    ConfiguredExactly(OverridesOf(part.server, family), feature);
  }

  lemma ExposesExactly(env: Environment, family: Family, part: Part, name: string, route: Route)
    requires OwnCoherent(env, family, part)
    ensures LeadsFrom(env, family, part, name, route) <==>
      Exposes(env, family, part, route.original, name)
      && route == Route(part.server, part.prefix, route.original, name, part.features.protocolVersion)
  {
    var feature := route.original;
    InventoryExactly(part, family, feature);
    hide Inventory, Reports;
    if !Disabled(family, part.server) {
      var keyed := KeyedIs(part.server, family);
      AllowedExactly(part.server, family, keyed, feature.key);
      assert JobOf(env, family, part).keyed == keyed;
      hide Selected, Renames, Allowed;
      var local := LocalKey(keyed, feature.key);
      hide LocalKey;
      assert Named(env, family, part.prefix, local) == Ok(name) <==> NamedUnder(env, family, part.prefix, local, name);
      hide Named, NamedUnder;
      if LeadsFrom(env, family, part, name, route) {
        var k: nat :| Leads(env, family, part, k, name, route);
        assert Some(feature) in Inventory(part, family) && Renames(part.server, family, feature.key, local);
      }
      if Exposes(env, family, part, feature, name)
        && route == Route(part.server, part.prefix, feature, name, part.features.protocolVersion)
      {
        var k: nat :| k < |Inventory(part, family)| && Inventory(part, family)[k] == Some(feature);
        assert Leads(env, family, part, k, name, route);
      }
    }
  }

  /** Main result. In every family of a compiled catalog, a name has a route exactly
      when some component reports a feature, or its configuration maps one, that the
      configuration selects and that gets this name; and the route leads back to that
      feature of that component. */
  lemma RouteTableExact(env: Environment, cfg: Config, deferAuthorization: bool, parts: seq<Part>, family: Family,
                        name: string, route: Route)
    requires PartsFor(env, cfg, deferAuthorization, parts) && Together(env, cfg, parts)
    requires Compile(env, cfg, deferAuthorization).Ok?
    requires Compile(env, cfg, deferAuthorization).value.pendingAuthorization == []
    ensures var routes := Get(Compile(env, cfg, deferAuthorization).value.sections, family).routes;
      (name in routes && routes[name] == route) <==>
        exists i :: 0 <= i < |parts| && Exposes(env, family, parts[i], route.original, name)
          && route == Route(parts[i].server, parts[i].prefix, route.original, name, parts[i].features.protocolVersion)
  {
    assert Coherent(env, parts, family);
    hide Compile, PartsFor, Together, OwnCoherent, LeadsFrom, Exposes;
    RoutesLead(env, cfg, deferAuthorization, parts, family, name, route);
    forall i | 0 <= i < |parts|
      ensures LeadsFrom(env, family, parts[i], name, route) <==>
        Exposes(env, family, parts[i], route.original, name)
        && route == Route(parts[i].server, parts[i].prefix, route.original, name, parts[i].features.protocolVersion)
    {
      ExposesExactly(env, family, parts[i], name, route);
    }
  }
}
