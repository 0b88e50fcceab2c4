/** Rewriting the resource URIs in results, and routing the rewritten ones back. */
module Rewrite {
  import opened Wrappers
  import opened CatalogTypes
  import opened FamilyCompiler
  import opened CatalogCompiler
  import opened CatalogExactness
  import opened CatalogRoutes
  import Namespace

  datatype Contents = Contents(uri: string, body: nat)

  /** A nil pointer of each kind is a value of its own. */
  datatype Content =
    | NoLink
    | Link(uri: string, body: nat)
    | NoEmbedded
    | Embedded(resource: Option<Contents>, body: nat)
    | NoResult
    | ToolResult(items: Items, body: nat)
    | Other(body: nat)

  /** A nil slice is not an empty one. */
  datatype Items = Nil | Items(values: seq<Content>)

  /** The resource routes of a catalog; `toComposite` and `toOriginal` stand for its
      template routes, which are tried in order. */
  datatype Routes = Routes(
    resources: map<string, Route>,
    toComposite: (string, string) -> Option<string>,
    toOriginal: string -> Option<(Server, string, string)>)

  predicate Matches(route: Route, prefix: string, original: string) {
    route.prefix == prefix && route.original.key == original
  }

  predicate Serves(routes: Routes, composite: string, prefix: string, original: string) {
    composite in routes.resources && Matches(routes.resources[composite], prefix, original)
  }

  /** An exactly listed resource. */
  ghost predicate ListedUri(routes: Routes, prefix: string, original: string) {
    exists composite :: Serves(routes, composite, prefix, original)
  }

  function Fallback(routes: Routes, prefix: string, original: string): string {
    match routes.toComposite(prefix, original)
    case Some(composite) => composite
    case None => if prefix == "" then original else Namespace.SCHEME + prefix + ":" + original
  }

  /** Under some iteration order of the route map, `original` becomes `uri`. */
  ghost predicate MayBecome(routes: Routes, prefix: string, original: string, uri: string) {
    if ListedUri(routes, prefix, original) then Serves(routes, uri, prefix, original)
    else uri == Fallback(routes, prefix, original)
  }

  method ToCompositeURI(routes: Routes, prefix: string, original: string) returns (uri: string)
    ensures MayBecome(routes, prefix, original, uri)
  {
    var rest := routes.resources.Keys;
    while rest != {}
      invariant rest <= routes.resources.Keys
      invariant forall composite :: Serves(routes, composite, prefix, original) ==> composite in rest
      decreases |rest|
    {
      var composite :| composite in rest;
      rest := rest - {composite};
      if Matches(routes.resources[composite], prefix, original) {
        assert Serves(routes, composite, prefix, original);
        return composite;
      }
    }
    return Fallback(routes, prefix, original);
  }

  function RouteResource(routes: Routes, uri: string): Option<(Server, string, string)> {
    if uri in routes.resources then
      var route := routes.resources[uri];
      Some((route.component, route.prefix, route.original.key))
    else routes.toOriginal(uri)
  }

  // ---- Rewriting content ----

  /** `after` is `before` with every URI rewritten, and nothing else changed. */
  ghost predicate Rewritten(routes: Routes, prefix: string, before: Content, after: Content)
    decreases before
  {
    match before
    case Link(uri, body) => after.Link? && after.body == body && MayBecome(routes, prefix, uri, after.uri)
    case Embedded(resource, body) =>
      && after.Embedded? && after.body == body && (after.resource.Some? <==> resource.Some?)
      && (resource.Some? ==>
        after.resource.value.body == resource.value.body
          && MayBecome(routes, prefix, resource.value.uri, after.resource.value.uri))
    case ToolResult(items, body) =>
      && after.ToolResult? && after.body == body && (after.items.Nil? <==> items.Nil?)
      && (items.Items? ==> RewrittenAll(routes, prefix, items.values, after.items.values))
    case _ => after == before
  }

  ghost predicate RewrittenAll(routes: Routes, prefix: string, before: seq<Content>, after: seq<Content>)
    decreases before
  {
    |after| == |before| && forall i :: 0 <= i < |before| ==> Rewritten(routes, prefix, before[i], after[i])
  }

  method RewriteContent(routes: Routes, prefix: string, values: seq<Content>) returns (result: seq<Content>)
    ensures RewrittenAll(routes, prefix, values, result)
    decreases values
  {
    result := [];
    for i := 0 to |values|
      invariant |result| == i && forall j :: 0 <= j < i ==> Rewritten(routes, prefix, values[j], result[j])
    {
      var value := RewriteOneContent(routes, prefix, values[i]);
      result := result + [value];
    }
  }

  method RewriteOneContent(routes: Routes, prefix: string, value: Content) returns (result: Content)
    ensures Rewritten(routes, prefix, value, result)
    decreases value
  {
    match value
    case Link(uri, _) =>
      var composite := ToCompositeURI(routes, prefix, uri);
      return value.(uri := composite);
    case Embedded(resource, _) =>
      if resource.None? {
        return value;
      }
      var composite := ToCompositeURI(routes, prefix, resource.value.uri);
      return value.(resource := Some(resource.value.(uri := composite)));
    case ToolResult(items, _) =>
      if items.Nil? {
        return value;
      }
      var rewritten := RewriteContent(routes, prefix, items.values);
      return value.(items := Items(rewritten));
    case _ => return value;
  }

  /** All URIs in a content, from left to right. */
  function Uris(content: Content): seq<string>
    decreases content
  {
    match content
    case Link(uri, _) => [uri]
    case Embedded(Some(resource), _) => [resource.uri]
    case ToolResult(Items(values), _) => UrisOf(values)
    case _ => []
  }

  function UrisOf(contents: seq<Content>): seq<string>
    decreases contents
  {
    if |contents| == 0 then [] else Uris(contents[0]) + UrisOf(contents[1..])
  }

  /** A content with its URIs erased. */
  function Shape(content: Content): Content
    decreases content
  {
    match content
    case Link(_, body) => Link("", body)
    case Embedded(Some(resource), body) => Embedded(Some(resource.(uri := "")), body)
    case ToolResult(Items(values), body) => ToolResult(Items(ShapesOf(values)), body)
    case _ => content
  }

  function ShapesOf(contents: seq<Content>): seq<Content>
    decreases contents
  {
    if |contents| == 0 then [] else [Shape(contents[0])] + ShapesOf(contents[1..])
  }

  /** Rewriting one by one: the i-th URI becomes the i-th URI. */
  ghost predicate Becomes(routes: Routes, prefix: string, before: seq<string>, after: seq<string>) {
    |before| == |after| && forall i :: 0 <= i < |before| ==> MayBecome(routes, prefix, before[i], after[i])
  }

  lemma {:induction false} RewritePreserves(routes: Routes, prefix: string, before: Content, after: Content)
    requires Rewritten(routes, prefix, before, after)
    ensures Shape(after) == Shape(before) && Becomes(routes, prefix, Uris(before), Uris(after))
    decreases before
  {
    if before.ToolResult? && before.items.Items? {
      RewritePreservesAll(routes, prefix, before.items.values, after.items.values);
    }
  }

  lemma {:induction false} RewritePreservesAll(routes: Routes, prefix: string, before: seq<Content>,
                                               after: seq<Content>)
    requires RewrittenAll(routes, prefix, before, after)
    ensures ShapesOf(after) == ShapesOf(before) && Becomes(routes, prefix, UrisOf(before), UrisOf(after))
    decreases before
  {
    if |before| > 0 {
      RewritePreserves(routes, prefix, before[0], after[0]);
      RewritePreservesAll(routes, prefix, before[1..], after[1..]);
    }
  }

  // ---- Routing back ----

  /** An exactly listed URI, once rewritten, routes back to itself under its prefix. */
  lemma RoutesBack(routes: Routes, prefix: string, original: string, uri: string)
    requires ListedUri(routes, prefix, original) && MayBecome(routes, prefix, original, uri)
    ensures RouteResource(routes, uri).Some?
    ensures RouteResource(routes, uri).value.1 == prefix && RouteResource(routes, uri).value.2 == original
  {
  }

  /** Main result. In arbitrarily nested content, whatever the iteration order, rewriting
      keeps the shape, and every URI of an exactly listed resource routes back to the
      URI it was. */
  lemma RewriteThenRoute(routes: Routes, prefix: string, before: Content, after: Content, i: nat)
    requires Rewritten(routes, prefix, before, after)
    ensures Shape(after) == Shape(before) && |Uris(after)| == |Uris(before)|
    ensures i < |Uris(before)| && ListedUri(routes, prefix, Uris(before)[i]) ==>
      var target := RouteResource(routes, Uris(after)[i]);
      target.Some? && target.value.1 == prefix && target.value.2 == Uris(before)[i]
  {
    RewritePreserves(routes, prefix, before, after);
    if i < |Uris(before)| && ListedUri(routes, prefix, Uris(before)[i]) {
      RoutesBack(routes, prefix, Uris(before)[i], Uris(after)[i]);
    }
  }

  /** A URI routes exactly to the resource that is listed under it, and only otherwise to
      what the templates make of it. */
  lemma RoutesExactly(routes: Routes, uri: string, component: Server, prefix: string, original: string)
    ensures RouteResource(routes, uri) == Some((component, prefix, original)) <==>
      if Serves(routes, uri, prefix, original) then routes.resources[uri].component == component
      else uri !in routes.resources && routes.toOriginal(uri) == Some((component, prefix, original))
  {
  }

  /** What is listed nowhere goes through the templates, or is wrapped as a prefixed URI
      would be, so that it still names its component. */
  lemma UnlistedBecomes(routes: Routes, prefix: string, original: string, uri: string)
    requires !ListedUri(routes, prefix, original) && MayBecome(routes, prefix, original, uri)
    ensures routes.toComposite(prefix, original).Some? ==> Some(uri) == routes.toComposite(prefix, original)
    ensures routes.toComposite(prefix, original).None? ==>
      && (prefix == "" ==> uri == original)
      && (prefix != "" ==> uri == "mmmcp+" + prefix + ":" + original)
      && (prefix == "" || Namespace.ValidPart(prefix) ==> Namespace.NamedUri(prefix, original, true) == Ok(uri))
  {
  }

  // ---- In a compiled catalog ----

  ghost predicate DistinctPrefixes(parts: seq<Part>) {
    forall i, j :: 0 <= i < j < |parts| ==> parts[i].prefix != parts[j].prefix
  }

  /** The routes are those of a compiled catalog. */
  ghost predicate RoutesOf(env: Environment, cfg: Config, deferAuthorization: bool, parts: seq<Part>, routes: Routes) {
    && PartsFor(env, cfg, deferAuthorization, parts) && Together(env, cfg, parts)
    && Compile(env, cfg, deferAuthorization).Ok?
    && Compile(env, cfg, deferAuthorization).value.pendingAuthorization == []
    && routes.resources == Compile(env, cfg, deferAuthorization).value.sections.resources.routes
  }

  lemma RouteOwner(env: Environment, cfg: Config, deferAuthorization: bool, parts: seq<Part>, routes: Routes,
                   uri: string) returns (i: nat, k: nat)
    requires RoutesOf(env, cfg, deferAuthorization, parts, routes) && uri in routes.resources
    ensures i < |parts| && Leads(env, Resources, parts[i], k, uri, routes.resources[uri])
  {
    hide Compile, PartsFor, Together, Leads;
    RoutesLead(env, cfg, deferAuthorization, parts, Resources, uri, routes.resources[uri]);
    i :| 0 <= i < |parts| && LeadsFrom(env, Resources, parts[i], uri, routes.resources[uri]);
    k :| Leads(env, Resources, parts[i], k, uri, routes.resources[uri]);
  }

  /** Main result. When no two components share a prefix, a rewritten URI routes back to
      the component it came from, and it does not depend on the iteration order. */
  lemma RewriteDeterministic(env: Environment, cfg: Config, deferAuthorization: bool, parts: seq<Part>, routes: Routes,
                             i: nat, original: string, a: string, b: string)
    requires RoutesOf(env, cfg, deferAuthorization, parts, routes) && DistinctPrefixes(parts)
    requires i < |parts| && ListedUri(routes, parts[i].prefix, original)
    requires MayBecome(routes, parts[i].prefix, original, a) && MayBecome(routes, parts[i].prefix, original, b)
    ensures a == b && RouteResource(routes, a) == Some((parts[i].server, parts[i].prefix, original))
  {
    var j, k := RouteOwner(env, cfg, deferAuthorization, parts, routes, a);
    var j', k' := RouteOwner(env, cfg, deferAuthorization, parts, routes, b);
    hide RoutesOf, ListedUri, JobOf, Inventory;
    SamePart(parts, i, j);
    SamePart(parts, i, j');
  }

  lemma SamePart(parts: seq<Part>, i: nat, j: nat)
    requires DistinctPrefixes(parts) && i < |parts| && j < |parts| && parts[i].prefix == parts[j].prefix
    ensures i == j
  {
  }

  /** The component lists the URI under that prefix, and it is exposed as `uri`. */
  ghost predicate ExposesAs(env: Environment, part: Part, prefix: string, original: string, uri: string) {
    part.prefix == prefix
    && exists k: nat, route: Route :: Leads(env, Resources, part, k, uri, route) && route.original.key == original
  }

  ghost predicate ExposesUri(env: Environment, part: Part, prefix: string, original: string) {
    exists uri :: ExposesAs(env, part, prefix, original, uri)
  }

  /** Main result. What an original becomes does not depend on the iteration order exactly
      if at most one component with that prefix exposes it. */
  lemma RewriteExactly(env: Environment, cfg: Config, deferAuthorization: bool, parts: seq<Part>, routes: Routes,
                       prefix: string, original: string)
    requires RoutesOf(env, cfg, deferAuthorization, parts, routes)
    ensures (forall a, b :: MayBecome(routes, prefix, original, a) && MayBecome(routes, prefix, original, b) ==> a == b)
      <==> (forall i, j :: 0 <= i < j < |parts| && ExposesUri(env, parts[i], prefix, original) ==>
              !ExposesUri(env, parts[j], prefix, original))
  {
    hide RoutesOf, ExposesAs, Serves;
    forall uri ensures Serves(routes, uri, prefix, original) <==>
      exists i :: 0 <= i < |parts| && ExposesAs(env, parts[i], prefix, original, uri)
    {
      ServesExactly(env, cfg, deferAuthorization, parts, routes, prefix, original, uri);
    }
    forall i, j, a, b | 0 <= i <= j < |parts|
        && ExposesAs(env, parts[i], prefix, original, a) && ExposesAs(env, parts[j], prefix, original, b)
      ensures i < j <==> a != b
    {
      NamesDiffer(env, cfg, deferAuthorization, parts, routes, prefix, original, i, j, a, b);
    }
    if forall i, j :: 0 <= i < j < |parts| && ExposesUri(env, parts[i], prefix, original) ==>
        !ExposesUri(env, parts[j], prefix, original)
    {
      forall a, b | MayBecome(routes, prefix, original, a) && MayBecome(routes, prefix, original, b) ensures a == b {
        if ListedUri(routes, prefix, original) {
          var i :| 0 <= i < |parts| && ExposesAs(env, parts[i], prefix, original, a);
          var j :| 0 <= j < |parts| && ExposesAs(env, parts[j], prefix, original, b);
          assert ExposesUri(env, parts[i], prefix, original) && ExposesUri(env, parts[j], prefix, original);
        }
      }
    } else {
      var i, j :| 0 <= i < j < |parts|
        && ExposesUri(env, parts[i], prefix, original) && ExposesUri(env, parts[j], prefix, original);
      var a :| ExposesAs(env, parts[i], prefix, original, a);
      var b :| ExposesAs(env, parts[j], prefix, original, b);
      assert Serves(routes, a, prefix, original) && Serves(routes, b, prefix, original);
      assert MayBecome(routes, prefix, original, a) && MayBecome(routes, prefix, original, b);
    }
  }

  lemma ServesExactly(env: Environment, cfg: Config, deferAuthorization: bool, parts: seq<Part>, routes: Routes,
                      prefix: string, original: string, uri: string)
    requires RoutesOf(env, cfg, deferAuthorization, parts, routes)
    ensures Serves(routes, uri, prefix, original) <==>
      exists i :: 0 <= i < |parts| && ExposesAs(env, parts[i], prefix, original, uri)
  {
    hide Compile, PartsFor, Together, JobOf, Inventory, Disabled;
    if uri in routes.resources {
      var i, k := RouteOwner(env, cfg, deferAuthorization, parts, routes, uri);
      if Serves(routes, uri, prefix, original) { assert ExposesAs(env, parts[i], prefix, original, uri); }
    }
    if i :| 0 <= i < |parts| && ExposesAs(env, parts[i], prefix, original, uri) {
      var k: nat, route: Route :| Leads(env, Resources, parts[i], k, uri, route) && route.original.key == original;
      assert LeadsFrom(env, Resources, parts[i], uri, route);
      RoutesLead(env, cfg, deferAuthorization, parts, Resources, uri, route);
    }
  }

  /** One component exposes an original under one name, and no two use the same name. */
  lemma NamesDiffer(env: Environment, cfg: Config, deferAuthorization: bool, parts: seq<Part>, routes: Routes,
                    prefix: string, original: string, i: nat, j: nat, a: string, b: string)
    requires RoutesOf(env, cfg, deferAuthorization, parts, routes) && i <= j < |parts|
    requires ExposesAs(env, parts[i], prefix, original, a) && ExposesAs(env, parts[j], prefix, original, b)
    ensures i < j <==> a != b
  {
    hide Compile, PartsFor, OffersOf, JobOf, Inventory, Disabled;
    var k: nat, route: Route :| Leads(env, Resources, parts[i], k, a, route) && route.original.key == original;
    var l: nat, other: Route :| Leads(env, Resources, parts[j], l, b, other) && other.original.key == original;
    assert Coherent(env, parts, Resources);
    if i < j {
      LeadsOffer(env, parts[i], k, a, route);
      LeadsOffer(env, parts[j], l, b, other);
      assert PartsApart(env, Resources, parts[i], parts[j]);
    } else {
      assert OwnCoherent(env, Resources, parts[i]);
      assert k == l;
    }
  }

  lemma LeadsOffer(env: Environment, part: Part, k: nat, name: string, route: Route)
    requires Leads(env, Resources, part, k, name, route)
    ensures exists x :: 0 <= x < |OffersOf(env, Resources, part)| && OffersOf(env, Resources, part)[x].name == name
  {
    assert LeadsFrom(env, Resources, part, name, route);
    OffersLead(env, Resources, part, name, route);
    hide OffersOf, LeadsFrom;
  }
}
