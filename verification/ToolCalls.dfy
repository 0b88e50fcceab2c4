/** Resolving a tool call against a compiled catalog. */
module ToolCalls {
  import opened Wrappers
  import opened CatalogTypes
  import opened FamilyCompiler
  import opened CatalogCompiler
  import opened CatalogExactness

  // ---- Looking up a tool ----

  function RouteTool(catalog: Catalog, name: string): Option<Route> {
    if catalog.toolSearch || name !in catalog.sections.tools.routes then None
    else Some(catalog.sections.tools.routes[name])
  }

  function RevisionOf(env: Environment, route: Route, tool: Feature): string {
    env.revision(tool.key, route.component.name, route.original.key, tool)
  }

  /** The search index's documents: the revision of every tool that has a route. */
  function Documents(env: Environment, section: Section, tools: seq<Feature>): map<string, string> {
    if |tools| == 0 then map[]
    else
      var rest, tool := Documents(env, section, tools[..|tools| - 1]), tools[|tools| - 1];
      if tool.key in section.routes then rest[tool.key := RevisionOf(env, section.routes[tool.key], tool)] else rest
  }

  method SearchDocuments(env: Environment, section: Section) returns (documents: map<string, string>)
    ensures documents == Documents(env, section, section.exposed)
  {
    var tools := section.exposed;
    documents := map[];
    for i := 0 to |tools|
      invariant documents == Documents(env, section, tools[..i])
    {
      assert tools[..i + 1][..i] == tools[..i];
      if tools[i].key in section.routes {
        documents := documents[tools[i].key := RevisionOf(env, section.routes[tools[i].key], tools[i])];
      }
    }
    assert tools[..|tools|] == tools;
  }

  function FindTool(tools: seq<Feature>, name: string): Option<Feature> {
    if |tools| == 0 then None
    else if tools[0].key == name then Some(tools[0])
    else FindTool(tools[1..], name)
  }

  method ScanTools(tools: seq<Feature>, name: string) returns (found: Option<Feature>)
    ensures found == FindTool(tools, name)
  {
    for i := 0 to |tools|
      invariant FindTool(tools, name) == FindTool(tools[i..], name)
    {
      if tools[i].key == name {
        return Some(tools[i]);
      }
      assert tools[i..][1..] == tools[i + 1..];
    }
    assert tools[|tools|..] == [];
    return None;
  }

  /** The route of an exposed tool and the revision of its definition. */
  function RouteReference(env: Environment, catalog: Catalog, name: string): Option<(Route, string)> {
    var section := catalog.sections.tools;
    if catalog.toolSearch then
      var documents := Documents(env, section, section.exposed);
      if name in documents && name in section.routes then Some((section.routes[name], documents[name])) else None
    else
      match FindTool(section.exposed, name)
      case None => None
      case Some(tool) =>
        if name !in section.routes then None
        else Some((section.routes[name], RevisionOf(env, section.routes[name], tool)))
  }

  // ---- Calling one ----

  datatype Resolved =
    | NotCallable
    | Forward(route: Route, arguments: string)
    | Searched(tools: seq<Feature>, arguments: string)
    | InvalidArguments
    | Unavailable
    | StaleReference

  function ResolveToolCall(env: Environment, catalog: Catalog, name: string, arguments: string): Resolved {
    if !catalog.toolSearch then
      match RouteTool(catalog, name)
      case None => NotCallable
      case Some(route) => Forward(route, arguments)
    else if name == SEARCH_TOOL then Searched(catalog.sections.tools.exposed, arguments)
    else if name != CALL_TOOL then NotCallable
    else
      match env.parse(arguments)
      case None => InvalidArguments
      case Some(args) =>
        match RouteReference(env, catalog, args.name)
        case None => Unavailable
        case Some((route, revision)) =>
          if revision != args.revision then StaleReference else Forward(route, args.arguments)
  }

  // ---- What a compiled catalog resolves ----

  /** The offer under a name, if there is one. */
  function FindOffer(offers: seq<Offer>, name: string): Option<Offer> {
    if |offers| == 0 then None
    else if offers[0].name == name then Some(offers[0])
    else FindOffer(offers[1..], name)
  }

  lemma {:induction false} FindOfferExactly(offers: seq<Offer>, name: string)
    ensures FindOffer(offers, name).Some? <==> OfferedIn(offers, name)
    ensures FindOffer(offers, name).Some? ==>
      exists i :: 0 <= i < |offers| && offers[i] == FindOffer(offers, name).value && offers[i].name == name
  {
    if |offers| > 0 && offers[0].name != name {
      FindOfferExactly(offers[1..], name);
      assert forall i :: 0 <= i < |offers| - 1 ==> offers[1..][i] == offers[i + 1];
      if OfferedIn(offers, name) {
        var i :| 0 <= i < |offers| && offers[i].name == name;
        assert offers[1..][i - 1].name == name;
      }
    }
  }

  /** Components accepted together offer no name twice. */
  lemma {:induction false} AcceptedDistinct(env: Environment, parts: seq<Part>, family: Family)
    requires Accepted(env, parts, family)
    ensures Distinct(AllOffers(env, family, parts))
  {
    if |parts| > 0 {
      var init, last := parts[..|parts| - 1], parts[|parts| - 1];
      AcceptedDistinct(env, init, family);
      SectionsExactly(env, init, family);
      FreeDistinct(AllOffers(env, family, init), OffersOf(env, family, last));
    }
  }

  lemma FreeDistinct(a: seq<Offer>, b: seq<Offer>)
    requires Distinct(a) && Distinct(b) && Free(InstallAll(EMPTY, a), b)
    ensures Distinct(a + b)
  {
    InstalledNames(EMPTY, a);
    forall i, j | 0 <= i < j < |a + b| ensures (a + b)[i].name != (a + b)[j].name {
      if i < |a| <= j {
        assert b[j - |a|].name !in InstallAll(EMPTY, a).routes;
        assert a[i].name == (a + b)[i].name;
      }
    }
  }

  /** An offer is listed under its own name and leads back to its component. */
  predicate Proper(part: Part, offer: Offer) {
    offer.feature.key == offer.name && offer.route.component == part.server && offer.route.prefix == part.prefix
  }

  lemma {:induction false} OffersProper(job: Job, discovered: seq<Option<Feature>>)
    ensures forall offer :: offer in Offers(job, discovered) ==>
      offer.feature.key == offer.name && offer.route.component == job.server && offer.route.prefix == job.prefix
  {
    if |discovered| > 0 { OffersProper(job, discovered[..|discovered| - 1]); }
  }

  lemma {:induction false} AllOffersProper(env: Environment, family: Family, parts: seq<Part>)
    ensures forall offer :: offer in AllOffers(env, family, parts) ==> offer.feature.key == offer.name
  {
    if |parts| > 0 {
      AllOffersProper(env, family, parts[..|parts| - 1]);
      var last := parts[|parts| - 1];
      OffersProper(JobOf(env, family, last), Inventory(last, family));
    }
  }

  /** The exposed tool under an offered name is that offer's. */
  lemma ExposedOffers(offers: seq<Offer>, name: string)
    requires Distinct(offers) && forall offer :: offer in offers ==> offer.feature.key == offer.name
    ensures var exposed := SortFeatures(InstallAll(EMPTY, offers).exposed);
      && (forall tool :: tool in exposed && tool.key == name ==>
        FindOffer(offers, name).Some? && tool == FindOffer(offers, name).value.feature)
      && (FindOffer(offers, name).Some? ==> FindOffer(offers, name).value.feature in exposed)
  {
    hide InstallAll, FindOffer, SortFeatures, FeaturesOf;
    InstalledFeatures(EMPTY, offers);
    SortSorts(FeaturesOf(offers));
    assert EMPTY.exposed + FeaturesOf(offers) == FeaturesOf(offers);
    SameMembers(SortFeatures(FeaturesOf(offers)), FeaturesOf(offers));
    OfferedFeatures(offers, name);
  }

  lemma OfferedFeatures(offers: seq<Offer>, name: string)
    requires Distinct(offers) && forall offer :: offer in offers ==> offer.feature.key == offer.name
    ensures forall tool :: tool in FeaturesOf(offers) && tool.key == name ==>
      FindOffer(offers, name).Some? && tool == FindOffer(offers, name).value.feature
    ensures FindOffer(offers, name).Some? ==> FindOffer(offers, name).value.feature in FeaturesOf(offers)
  {
    hide FindOffer;
    FindOfferExactly(offers, name);
    if FindOffer(offers, name).Some? {
      var i :| 0 <= i < |offers| && offers[i] == FindOffer(offers, name).value && offers[i].name == name;
      assert FeaturesOf(offers)[i] == offers[i].feature;
    }
    forall tool | tool in FeaturesOf(offers) && tool.key == name
      ensures FindOffer(offers, name).Some? && tool == FindOffer(offers, name).value.feature
    {
      var k :| 0 <= k < |offers| && FeaturesOf(offers)[k] == tool;
      assert offers[k] in offers && offers[k].name == name;
    }
  }

  lemma RoutedOffers(offers: seq<Offer>, name: string)
    requires Distinct(offers)
    ensures var routes := InstallAll(EMPTY, offers).routes;
      && (name in routes <==> FindOffer(offers, name).Some?)
      && (name in routes ==> routes[name] == FindOffer(offers, name).value.route)
  {
    hide InstallAll, FindOffer;
    InstalledNames(EMPTY, offers);
    InstalledRoutes(EMPTY, offers);
    FindOfferExactly(offers, name);
    if FindOffer(offers, name).Some? {
      var i :| 0 <= i < |offers| && offers[i] == FindOffer(offers, name).value && offers[i].name == name;
      assert Routed(InstallAll(EMPTY, offers), offers[i]);
    }
  }

  lemma SameMembers<T>(a: seq<T>, b: seq<T>)
    requires multiset(a) == multiset(b)
    ensures forall x :: x in a <==> x in b
  {
    forall x ensures x in a <==> x in b {
      assert x in a <==> x in multiset(a);
      assert x in b <==> x in multiset(b);
    }
  }

  lemma {:induction false} FindToolExactly(tools: seq<Feature>, name: string)
    ensures FindTool(tools, name).Some? <==> exists tool :: tool in tools && tool.key == name
    ensures FindTool(tools, name).Some? ==>
      FindTool(tools, name).value in tools && FindTool(tools, name).value.key == name
  {
    if |tools| > 0 && tools[0].key != name {
      FindToolExactly(tools[1..], name);
      assert tools == [tools[0]] + tools[1..];
    }
  }

  lemma {:induction false} DocumentsExactly(env: Environment, section: Section, tools: seq<Feature>, name: string)
    requires name in section.routes
    ensures name in Documents(env, section, tools) <==> exists tool :: tool in tools && tool.key == name
    ensures name in Documents(env, section, tools) ==>
      exists tool :: tool in tools && tool.key == name
        && Documents(env, section, tools)[name] == RevisionOf(env, section.routes[name], tool)
  {
    if |tools| > 0 {
      DocumentsExactly(env, section, tools[..|tools| - 1], name);
      assert tools == tools[..|tools| - 1] + [tools[|tools| - 1]];
    }
  }

  /** A reference and its revision, from the offer alone. */
  function ReferenceOf(env: Environment, offer: Option<Offer>): Option<(Route, string)> {
    if offer.None? then None
    else Some((offer.value.route, RevisionOf(env, offer.value.route, offer.value.feature)))
  }

  /** Main result about lookups: a catalog resolves a name to the offer that a
      component makes under it, with or without a search index. */
  lemma CatalogResolves(env: Environment, catalog: Catalog, offers: seq<Offer>, name: string)
    requires Distinct(offers) && forall offer :: offer in offers ==> offer.feature.key == offer.name
    requires catalog.sections.tools == Sorted(InstallAll(EMPTY, offers))
    ensures RouteReference(env, catalog, name) == ReferenceOf(env, FindOffer(offers, name))
    ensures !catalog.toolSearch ==>
      RouteTool(catalog, name) ==
        if FindOffer(offers, name).Some? then Some(FindOffer(offers, name).value.route) else None
  {
    var section := catalog.sections.tools;
    ExposedOffers(offers, name);
    RoutedOffers(offers, name);
    FindToolExactly(section.exposed, name);
    FindOfferExactly(offers, name);
    if FindOffer(offers, name).Some? {
      var tool := FindOffer(offers, name).value.feature;
      assert FindOffer(offers, name).value in offers;
      assert tool.key == name && tool in section.exposed;
      DocumentsExactly(env, section, section.exposed, name);
    }
  }
}
