/** What a compiled catalog shows and what it makes of a tool call, in terms of what the
    components report and how they are configured. */
module CatalogCalls {
  import opened Wrappers
  import opened Ordering
  import opened CatalogTypes
  import opened FamilyCompiler
  import opened CatalogCompiler
  import opened CatalogExactness
  import opened CatalogRoutes
  import opened ToolCalls

  // ---- How a feature is shown ----

  /** A text is the one of the feature's override where that has one. */
  ghost predicate Overridden(server: Server, family: Family, key: string, text: Override -> string, own: string,
                             shown: string)
  {
    || (exists override :: Configures(server, family, override) && override.key == key
          && text(override) != "" && shown == text(override))
    || (shown == own
        && forall override :: Configures(server, family, override) && override.key == key ==> text(override) == "")
  }

  /** A shown feature has its exposed name, the component's body, and the overriding
      description; only resources and templates have overriding titles. */
  ghost predicate Shows(server: Server, family: Family, feature: Feature, name: string, shown: Feature) {
    && shown.key == name && shown.body == feature.body
    && Overridden(server, family, feature.key, (o: Override) => o.description, feature.description, shown.description)
    && (if family.Resources? || family.Templates?
        then Overridden(server, family, feature.key, (o: Override) => o.title, feature.title, shown.title)
        else shown.title == feature.title)
  }

  lemma ShowsExactly(server: Server, family: Family, keyed: map<string, Override>, feature: Feature, name: string)
    requires forall override :: Configures(server, family, override) <==>
      override.key in keyed && keyed[override.key] == override
    requires forall key :: key in keyed ==> keyed[key].key == key
    ensures forall shown :: Shows(server, family, feature, name, shown) <==>
      shown == Expose(family, keyed, name, feature)
  {
    if feature.key in keyed { assert Configures(server, family, keyed[feature.key]); }
  }

  /** The component exposes the feature under the name of `shown`, and shows it so. */
  ghost predicate ShowsFrom(env: Environment, family: Family, part: Part, feature: Feature, shown: Feature) {
    Exposes(env, family, part, feature, shown.key) && Shows(part.server, family, feature, shown.key, shown)
  }

  function RouteFor(part: Part, feature: Feature, name: string): Route {
    Route(part.server, part.prefix, feature, name, part.features.protocolVersion)
  }

  /** The component's offers, from its configuration and reports. */
  lemma OfferExactly(env: Environment, family: Family, part: Part, offer: Offer)
    requires OwnCoherent(env, family, part)
    ensures offer in OffersOf(env, family, part) <==>
      && offer.name == offer.feature.key && offer.route == RouteFor(part, offer.route.original, offer.name)
      && ShowsFrom(env, family, part, offer.route.original, offer.feature)
  {
    var feature := offer.route.original;
    ExposesExactly(env, family, part, offer.name, RouteFor(part, feature, offer.name));
    if Disabled(family, part.server) {
      assert !Selected(part.server, family, feature.key);
    } else {
      var keyed := KeyedIs(part.server, family);
      KeyedKeys(OverridesOf(part.server, family));
      ShowsExactly(part.server, family, keyed, feature, offer.name);
      var job, inventory := JobOf(env, family, part), Inventory(part, family);
      OffersExactly(job, inventory, offer);
      hide Offers, Exposes, Shows, Inventory, Allowed;
      if LeadsFrom(env, family, part, offer.name, RouteFor(part, feature, offer.name)) {
        var k: nat :| Leads(env, family, part, k, offer.name, RouteFor(part, feature, offer.name));
        if offer.feature == Expose(family, keyed, offer.name, feature)
          && offer.route == RouteFor(part, feature, offer.name)
        {
          assert From(job, inventory[k], offer);
        }
      }
      if offer in OffersOf(env, family, part) {
        var k :| 0 <= k < |inventory| && From(job, inventory[k], offer);
        assert Leads(env, family, part, k, offer.name, offer.route);
      }
    }
  }

  lemma ShownOffers(env: Environment, parts: seq<Part>, family: Family, offer: Offer)
    requires Coherent(env, parts, family)
    ensures offer in AllOffers(env, family, parts) <==>
      exists i :: 0 <= i < |parts| && offer.name == offer.feature.key
        && offer.route == RouteFor(parts[i], offer.route.original, offer.name)
        && ShowsFrom(env, family, parts[i], offer.route.original, offer.feature)
  {
    AllOffersFrom(env, family, parts, offer);
    hide OffersOf, AllOffers, ShowsFrom, OwnCoherent, PartsApart;
    forall i | 0 <= i < |parts|
      ensures offer in OffersOf(env, family, parts[i]) <==>
        && offer.name == offer.feature.key && offer.route == RouteFor(parts[i], offer.route.original, offer.name)
        && ShowsFrom(env, family, parts[i], offer.route.original, offer.feature)
    {
      OfferExactly(env, family, parts[i], offer);
    }
  }

  /** Main result. What a compiled catalog holds in a family is exactly what some
      component's reports, selection, renaming and overrides come to. */
  lemma DefinitionsExactly(env: Environment, cfg: Config, deferAuthorization: bool, parts: seq<Part>, family: Family,
                           shown: Feature)
    requires PartsFor(env, cfg, deferAuthorization, parts) && Together(env, cfg, parts)
    requires Compile(env, cfg, deferAuthorization).Ok?
    requires Compile(env, cfg, deferAuthorization).value.pendingAuthorization == []
    ensures shown in Get(Compile(env, cfg, deferAuthorization).value.sections, family).exposed <==>
      exists i, feature :: 0 <= i < |parts| && ShowsFrom(env, family, parts[i], feature, shown)
  {
    assert Coherent(env, parts, family);
    hide Compile, PartsFor, Together, InstallAll, AllOffers, ShowsFrom, SortFeatures, FeaturesOf, Coherent;
    FamilyOffers(env, cfg, deferAuthorization, parts, family);
    var offers := AllOffers(env, family, parts);
    InstalledFeatures(EMPTY, offers);
    assert EMPTY.exposed + FeaturesOf(offers) == FeaturesOf(offers);
    SortSorts(FeaturesOf(offers));
    SameMembers(SortFeatures(FeaturesOf(offers)), FeaturesOf(offers));
    OffersFeatures(offers, shown);
    if offer :| offer in offers && offer.feature == shown { ShownOffers(env, parts, family, offer); }
    if i, feature :| 0 <= i < |parts| && ShowsFrom(env, family, parts[i], feature, shown) {
      var offer := Offer(shown.key, shown, RouteFor(parts[i], feature, shown.key));
      ShownOffers(env, parts, family, offer);
      assert offer in offers;
    }
  }

  lemma OffersFeatures(offers: seq<Offer>, shown: Feature)
    ensures shown in FeaturesOf(offers) <==> exists offer :: offer in offers && offer.feature == shown
  {
    if shown in FeaturesOf(offers) {
      var i :| 0 <= i < |offers| && FeaturesOf(offers)[i] == shown;
      assert offers[i] in offers;
    }
    if offer :| offer in offers && offer.feature == shown {
      var i :| 0 <= i < |offers| && offers[i] == offer;
      assert FeaturesOf(offers)[i] == shown;
    }
  }

  // ---- Tool calls ----

  /** Some component exposes a tool under the name; `revision` is the digest of how the
      tool is shown. */
  ghost predicate Offered(env: Environment, parts: seq<Part>, name: string, route: Route, revision: string) {
    exists i, shown :: 0 <= i < |parts| && OfferedBy(env, parts[i], name, route, revision, shown)
  }

  ghost predicate OfferedBy(env: Environment, part: Part, name: string, route: Route, revision: string, shown: Feature)
  {
    && shown.key == name && ShowsFrom(env, Tools, part, route.original, shown)
    && route == RouteFor(part, route.original, name)
    && revision == env.revision(name, part.server.name, route.original.key, shown)
  }

  lemma ReferenceExactly(env: Environment, cfg: Config, deferAuthorization: bool, parts: seq<Part>, name: string,
                         route: Route, revision: string)
    requires PartsFor(env, cfg, deferAuthorization, parts) && Together(env, cfg, parts)
    requires Compile(env, cfg, deferAuthorization).Ok?
    requires Compile(env, cfg, deferAuthorization).value.pendingAuthorization == []
    ensures var catalog := Compile(env, cfg, deferAuthorization).value;
      && catalog.toolSearch == cfg.toolSearch
      && (RouteReference(env, catalog, name) == Some((route, revision)) <==> Offered(env, parts, name, route, revision))
      && (!cfg.toolSearch ==>
            var found := RouteReference(env, catalog, name);
            RouteTool(catalog, name) == if found.Some? then Some(found.value.0) else None)
  {
    assert Coherent(env, parts, Tools);
    PartsCompile(env, cfg, deferAuthorization, parts);
    FamilyOffers(env, cfg, deferAuthorization, parts, Tools);
    hide Compile, PartsFor, Together, InstallAll, AllOffers, ShowsFrom, SortFeatures, FeaturesOf, Coherent;
    hide RouteReference, FindOffer;
    var catalog, offers := Compile(env, cfg, deferAuthorization).value, AllOffers(env, Tools, parts);
    CatalogResolves(env, catalog, offers, name);
    FindOfferExactly(offers, name);
    if FindOffer(offers, name).Some? {
      var offer := FindOffer(offers, name).value;
      assert offer in offers;
      ShownOffers(env, parts, Tools, offer);
      if Some((route, revision)) == ReferenceOf(env, Some(offer)) {
        var i :| 0 <= i < |parts| && offer.route == RouteFor(parts[i], offer.route.original, offer.name)
          && ShowsFrom(env, Tools, parts[i], offer.route.original, offer.feature);
        assert OfferedBy(env, parts[i], name, route, revision, offer.feature);
      }
    }
    if Offered(env, parts, name, route, revision) { OfferedFound(env, parts, name, route, revision); }
  }

  lemma OfferedFound(env: Environment, parts: seq<Part>, name: string, route: Route, revision: string)
    requires Coherent(env, parts, Tools) && Distinct(AllOffers(env, Tools, parts))
    requires Offered(env, parts, name, route, revision)
    ensures ReferenceOf(env, FindOffer(AllOffers(env, Tools, parts), name)) == Some((route, revision))
  {
    hide AllOffers, ShowsFrom, Coherent, FindOffer;
    var offers := AllOffers(env, Tools, parts);
    var i, shown :| 0 <= i < |parts| && OfferedBy(env, parts[i], name, route, revision, shown);
    var offer := Offer(name, shown, route);
    ShownOffers(env, parts, Tools, offer);
    FindOfferExactly(offers, name);
    var k :| 0 <= k < |offers| && offers[k] == offer;
    assert offers[k].name == name;
    var j :| 0 <= j < |offers| && offers[j] == FindOffer(offers, name).value && offers[j].name == name;
    assert j == k;
  }

  /** What the tool calls of a configuration come to. */
  ghost predicate CallsRight(env: Environment, cfg: Config, parts: seq<Part>, tools: seq<Feature>, name: string,
                             arguments: string, result: Resolved)
  {
    if !cfg.toolSearch then
      && (forall route :: result == Forward(route, arguments) <==> exists r :: Offered(env, parts, name, route, r))
      && ((forall route, r :: !Offered(env, parts, name, route, r)) <==> result == NotCallable)
    else if name == "search_tools" then result == Searched(tools, arguments)
    else if name != "call_tool" then result == NotCallable
    else
      match env.parse(arguments)
      case None => result == InvalidArguments
      case Some(args) =>
        && (forall route :: result == Forward(route, args.arguments) <==>
              Offered(env, parts, args.name, route, args.revision))
        && (result == StaleReference <==>
              (exists route, r :: Offered(env, parts, args.name, route, r))
              && !exists route :: Offered(env, parts, args.name, route, args.revision))
        && (result == Unavailable <==> forall route, r :: !Offered(env, parts, args.name, route, r))
  }

  /** Main result. Without tool search, a call is forwarded exactly to the tool that some
      component exposes under its name. With it, only the two generic tools are callable:
      one searches the catalog's tools, and the other forwards exactly to the tool that
      is exposed under the wanted name with the wanted revision, and tells apart bad
      arguments, unavailable tools and stale references. */
  lemma CallsExactly(env: Environment, cfg: Config, deferAuthorization: bool, parts: seq<Part>, name: string,
                     arguments: string)
    requires PartsFor(env, cfg, deferAuthorization, parts) && Together(env, cfg, parts)
    requires Compile(env, cfg, deferAuthorization).Ok?
    requires Compile(env, cfg, deferAuthorization).value.pendingAuthorization == []
    ensures var catalog := Compile(env, cfg, deferAuthorization).value;
      CallsRight(env, cfg, parts, catalog.sections.tools.exposed, name, arguments,
        ResolveToolCall(env, catalog, name, arguments))
  {
    hide Compile, PartsFor, Together, RouteReference, RouteTool, Offered;
    var catalog, parsed := Compile(env, cfg, deferAuthorization).value, env.parse(arguments);
    var wanted := if cfg.toolSearch && parsed.Some? then parsed.value.name else name;
    LookedUp(env, cfg, deferAuthorization, parts, wanted);
    if RouteReference(env, catalog, wanted).Some? {
      var (route, r) := RouteReference(env, catalog, wanted).value;
      assert Offered(env, parts, wanted, route, r);
    }
  }

  lemma LookedUp(env: Environment, cfg: Config, deferAuthorization: bool, parts: seq<Part>, name: string)
    requires PartsFor(env, cfg, deferAuthorization, parts) && Together(env, cfg, parts)
    requires Compile(env, cfg, deferAuthorization).Ok?
    requires Compile(env, cfg, deferAuthorization).value.pendingAuthorization == []
    ensures var catalog := Compile(env, cfg, deferAuthorization).value;
      && catalog.toolSearch == cfg.toolSearch
      && (forall route, r ::
            RouteReference(env, catalog, name) == Some((route, r)) <==> Offered(env, parts, name, route, r))
      && (!cfg.toolSearch ==>
            var found := RouteReference(env, catalog, name);
            RouteTool(catalog, name) == if found.Some? then Some(found.value.0) else None)
  {
    hide Compile, PartsFor, Together, RouteReference, RouteTool, Offered;
    var catalog := Compile(env, cfg, deferAuthorization).value;
    var some := Server("", "", "", "", false, [], [], [], [], 0);
    ReferenceExactly(env, cfg, deferAuthorization, parts, name, Route(some, "", Feature("", "", "", 0), "", ""), "");
    forall route, r
      ensures RouteReference(env, catalog, name) == Some((route, r)) <==> Offered(env, parts, name, route, r)
    {
      ReferenceExactly(env, cfg, deferAuthorization, parts, name, route, r);
    }
  }

  /** A pending catalog calls nothing. */
  lemma PendingCallsNothing(env: Environment, cfg: Config, deferAuthorization: bool, name: string, arguments: string)
    requires Compile(env, cfg, deferAuthorization).Ok?
    requires Compile(env, cfg, deferAuthorization).value.pendingAuthorization != []
    ensures ResolveToolCall(env, Compile(env, cfg, deferAuthorization).value, name, arguments) == NotCallable
  {
    PendingExactly(env, cfg, deferAuthorization);
    var parts := SomeParts(env, cfg, deferAuthorization);
    PartsCompile(env, cfg, deferAuthorization, parts);
  }
}
