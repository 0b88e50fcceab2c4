/** Scoped selection preserves meaning: a tool call resolves against the components
    that a request needs exactly as against all of them. */
module ScopedSelection {
  import opened Wrappers
  import opened CatalogTypes
  import opened FamilyCompiler
  import opened CatalogCompiler
  import opened CatalogExactness
  import opened ToolCalls
  import opened RequestCatalog
  import Namespace

  // ---- Spelling out a prefix changes nothing ----

  function Blind(offer: Offer): Offer {
    offer.(route := BlindRoute(offer.route))
  }

  /** A route up to its component's configured prefix. */
  function BlindRoute(route: Route): Route {
    route.(component := WithPrefix(route.component, ""))
  }

  function BlindOption(offer: Option<Offer>): Option<Offer> {
    if offer.None? then None else Some(Blind(offer.value))
  }

  ghost predicate Alike(a: seq<Offer>, b: seq<Offer>) {
    |a| == |b| && forall i :: 0 <= i < |a| ==> Blind(a[i]) == Blind(b[i])
  }

  function Prefixed(part: Part): Part {
    part.(server := WithPrefix(part.server, part.prefix))
  }

  lemma {:induction false} OffersAlike(job: Job, discovered: seq<Option<Feature>>, prefix: string)
    ensures Alike(Offers(job.(server := WithPrefix(job.server, prefix)), discovered), Offers(job, discovered))
  {
    if |discovered| > 0 { OffersAlike(job, discovered[..|discovered| - 1], prefix); }
  }

  lemma SameInventory(env: Environment, family: Family, part: Part)
    ensures JobOf(env, family, Prefixed(part)) ==
      JobOf(env, family, part).(server := WithPrefix(part.server, part.prefix))
    ensures Inventory(Prefixed(part), family) == Inventory(part, family)
  {
  }

  lemma PartAlike(env: Environment, family: Family, part: Part)
    ensures Alike(OffersOf(env, family, Prefixed(part)), OffersOf(env, family, part))
    ensures Sound(env, family, Prefixed(part)) <==> Sound(env, family, part)
    ensures OwnCoherent(env, family, Prefixed(part)) <==> OwnCoherent(env, family, part)
  {
    SameInventory(env, family, part);
    OffersAlike(JobOf(env, family, part), Inventory(part, family), part.prefix);
    SoundAlike(env, family, part);
    AlikeDistinct(OffersOf(env, family, Prefixed(part)), OffersOf(env, family, part));
  }

  lemma SoundAlike(env: Environment, family: Family, part: Part)
    ensures Sound(env, family, Prefixed(part)) <==> Sound(env, family, part)
  {
    SameInventory(env, family, part);
    var a, b := JobOf(env, family, Prefixed(part)), JobOf(env, family, part);
    assert forall item :: WellNamed(a, item) <==> WellNamed(b, item);
  }

  lemma AlikeDistinct(a: seq<Offer>, b: seq<Offer>)
    requires Alike(a, b)
    ensures Distinct(a) <==> Distinct(b)
  {
    assert forall i :: 0 <= i < |a| ==> Blind(a[i]).name == a[i].name && Blind(b[i]).name == b[i].name;
  }

  lemma AlikeApart(a: seq<Offer>, b: seq<Offer>, a': seq<Offer>, b': seq<Offer>)
    requires Alike(a, a') && Alike(b, b') && Apart(a, b)
    ensures Apart(a', b')
  {
    assert forall i :: 0 <= i < |a| ==> Blind(a[i]).name == Blind(a'[i]).name;
    assert forall i :: 0 <= i < |b| ==> Blind(b[i]).name == Blind(b'[i]).name;
  }

  lemma {:induction false} AlikeFind(a: seq<Offer>, b: seq<Offer>, name: string)
    requires Alike(a, b)
    ensures BlindOption(FindOffer(a, name)) == BlindOption(FindOffer(b, name))
  {
    if |a| > 0 {
      assert Blind(a[0]) == Blind(b[0]);
      AlikeFind(a[1..], b[1..], name);
    }
  }

  // ---- A selection of components ----

  /** Every part of `some` is one of `all`, with its prefix spelled out. */
  ghost predicate Selection(all: seq<Part>, some: seq<Part>) {
    forall j :: 0 <= j < |some| ==> exists i :: 0 <= i < |all| && some[j] == Prefixed(all[i])
  }

  function ServersOf(parts: seq<Part>): seq<Server> {
    seq(|parts|, i requires 0 <= i < |parts| => parts[i].server)
  }

  /** Discovery does not look at the prefix. */
  ghost predicate PrefixBlind(env: Environment) {
    forall server, prefix :: env.discover(WithPrefix(server, prefix)) == env.discover(server)
  }

  /** A selected component is found as before, under the same prefix. */
  lemma SelectedPart(env: Environment, cfg: Config, all: seq<Part>, i: nat, some: Config, j: nat)
    requires PrefixBlind(env) && PartsFor(env, cfg, false, all) && i < |all|
    requires j < |some.servers| && some.servers[j] == Prefixed(all[i]).server
    requires |cfg.servers| <= 1 ==> |some.servers| <= 1
    ensures PartFor(env, some.servers, j, false, Prefixed(all[i]))
  {
    var part := all[i];
    assert PartFor(env, cfg.servers, i, false, part);
    SelectedPrefix(cfg.servers, i, part.prefix, some.servers, j);
    assert env.discover(WithPrefix(part.server, part.prefix)) == env.discover(part.server);
    StillFits(env, part);
  }

  lemma SelectedPrefix(servers: seq<Server>, i: nat, prefix: string, some: seq<Server>, j: nat)
    requires i < |servers| && j < |some| && PrefixOf(servers, i) == Ok(prefix)
    requires some[j] == WithPrefix(servers[i], prefix)
    requires |servers| <= 1 ==> |some| <= 1
    ensures PrefixOf(some, j) == Ok(prefix)
  {
    if !(|servers| <= 1 && servers[i].prefix == "") {
      Namespace.PrefixValid(servers[i].name, servers[i].prefix);
      Namespace.PrefixFixed(servers[i].name, servers[i].prefix, servers[i].name);
    }
  }

  lemma StillFits(env: Environment, part: Part)
    ensures CompileComponent(env, NO_SECTIONS, Prefixed(part)).Ok? <==> CompileComponent(env, NO_SECTIONS, part).Ok?
  {
    ComponentExactly(env, NO_SECTIONS, part);
    ComponentExactly(env, NO_SECTIONS, Prefixed(part));
    FitsEmpty(env, Tools, part);
    FitsEmpty(env, Prompts, part);
    FitsEmpty(env, Resources, part);
    FitsEmpty(env, Templates, part);
  }

  lemma FitsEmpty(env: Environment, family: Family, part: Part)
    ensures Fits(env, family, Prefixed(part), EMPTY) <==> Fits(env, family, part, EMPTY)
  {
    PartAlike(env, family, part);
  }

  lemma SelectedParts(env: Environment, cfg: Config, all: seq<Part>, some: Config, parts: seq<Part>)
    requires PrefixBlind(env) && PartsFor(env, cfg, false, all) && Selection(all, parts)
    requires some.servers == ServersOf(parts)
    requires |cfg.servers| <= 1 ==> |parts| <= 1
    ensures PartsFor(env, some, false, parts)
  {
    forall j | 0 <= j < |parts| ensures PartFor(env, some.servers, j, false, parts[j]) {
      var i :| 0 <= i < |all| && parts[j] == Prefixed(all[i]);
      SelectedPart(env, cfg, all, i, some, j);
    }
  }

  // ---- Keeping the candidates ----

  predicate Kept(part: Part, name: string) {
    part.prefix == "" || (Namespace.Marker(part.prefix).Ok? && Namespace.Marker(part.prefix).value <= name)
  }

  function Keep(parts: seq<Part>, name: string): seq<Part> {
    if |parts| == 0 then []
    else
      var rest, last := Keep(parts[..|parts| - 1], name), parts[|parts| - 1];
      if Kept(last, name) then rest + [Prefixed(last)] else rest
  }

  lemma {:induction false} KeepSelects(parts: seq<Part>, name: string)
    ensures Selection(parts, Keep(parts, name)) && |Keep(parts, name)| <= |parts|
  {
    if |parts| > 0 {
      var init, last := parts[..|parts| - 1], parts[|parts| - 1];
      KeepSelects(init, name);
      var kept := Keep(parts, name);
      forall j | 0 <= j < |kept| ensures exists i :: 0 <= i < |parts| && kept[j] == Prefixed(parts[i]) {
        if j < |Keep(init, name)| {
          var i :| 0 <= i < |init| && Keep(init, name)[j] == Prefixed(init[i]);
          assert kept[j] == Prefixed(parts[i]);
        } else {
          assert kept[j] == Prefixed(parts[|parts| - 1]);
        }
      }
    }
  }

  lemma {:induction false} KeepCoherent(env: Environment, parts: seq<Part>, name: string, family: Family)
    requires Coherent(env, parts, family)
    ensures Coherent(env, Keep(parts, name), family)
  {
    hide OwnCoherent, PartsApart, Kept, Prefixed;
    if |parts| > 0 {
      var init, last := parts[..|parts| - 1], parts[|parts| - 1];
      assert init + [last] == parts;
      CoherentSplit(env, init, last, family);
      KeepCoherent(env, init, name, family);
      if Kept(last, name) {
        PartAlike(env, family, last);
        KeepApart(env, init, last, name, family);
        CoherentSplit(env, Keep(init, name), Prefixed(last), family);
      }
    }
  }

  lemma KeepApart(env: Environment, init: seq<Part>, last: Part, name: string, family: Family)
    requires forall i :: 0 <= i < |init| ==> PartsApart(env, family, init[i], last)
    ensures forall j :: 0 <= j < |Keep(init, name)| ==> PartsApart(env, family, Keep(init, name)[j], Prefixed(last))
  {
    KeepSelects(init, name);
    forall j | 0 <= j < |Keep(init, name)| ensures PartsApart(env, family, Keep(init, name)[j], Prefixed(last)) {
      var i :| 0 <= i < |init| && Keep(init, name)[j] == Prefixed(init[i]);
      PrefixedApart(env, family, init[i], last);
    }
  }

  lemma PrefixedApart(env: Environment, family: Family, a: Part, b: Part)
    requires PartsApart(env, family, a, b)
    ensures PartsApart(env, family, Prefixed(a), Prefixed(b))
  {
    PartAlike(env, family, a);
    PartAlike(env, family, b);
    AlikeSymmetric(OffersOf(env, family, Prefixed(a)), OffersOf(env, family, a));
    AlikeSymmetric(OffersOf(env, family, Prefixed(b)), OffersOf(env, family, b));
    AlikeApart(OffersOf(env, family, a), OffersOf(env, family, b), OffersOf(env, family, Prefixed(a)),
      OffersOf(env, family, Prefixed(b)));
  }

  lemma AlikeSymmetric(a: seq<Offer>, b: seq<Offer>)
    requires Alike(a, b)
    ensures Alike(b, a)
  {
  }

  /** A component whose marker the name does not pass offers no such tool. */
  lemma UnkeptOffersNothing(env: Environment, part: Part, name: string)
    requires !Kept(part, name)
    ensures FindOffer(OffersOf(env, Tools, part), name) == None
  {
    FindOfferExactly(OffersOf(env, Tools, part), name);
    forall offer | offer in OffersOf(env, Tools, part) ensures offer.name != name {
      OffersExactly(JobOf(env, Tools, part), Inventory(part, Tools), offer);
      var i :| 0 <= i < |Inventory(part, Tools)| && From(JobOf(env, Tools, part), Inventory(part, Tools)[i], offer);
      Namespace.MarkerPasses(part.prefix, LocalKey(JobOf(env, Tools, part).keyed, Inventory(part, Tools)[i].value.key));
    }
  }

  lemma {:induction false} FindAppend(a: seq<Offer>, b: seq<Offer>, name: string)
    ensures FindOffer(a + b, name) == if FindOffer(a, name).Some? then FindOffer(a, name) else FindOffer(b, name)
  {
    if |a| == 0 {
      assert a + b == b;
    } else {
      assert (a + b)[1..] == a[1..] + b;
      FindAppend(a[1..], b, name);
    }
  }

  /** The candidates offer the same tool under the name as all components do. */
  lemma {:induction false} KeepFinds(env: Environment, parts: seq<Part>, name: string)
    ensures BlindOption(FindOffer(AllOffers(env, Tools, Keep(parts, name)), name)) ==
      BlindOption(FindOffer(AllOffers(env, Tools, parts), name))
  {
    if |parts| > 0 {
      var init, last := parts[..|parts| - 1], parts[|parts| - 1];
      KeepFinds(env, init, name);
      FindAppend(AllOffers(env, Tools, init), OffersOf(env, Tools, last), name);
      if Kept(last, name) {
        assert Keep(parts, name)[..|Keep(parts, name)| - 1] == Keep(init, name);
        FindAppend(AllOffers(env, Tools, Keep(init, name)), OffersOf(env, Tools, Prefixed(last)), name);
        PartAlike(env, Tools, last);
        AlikeFind(OffersOf(env, Tools, Prefixed(last)), OffersOf(env, Tools, last), name);
      } else {
        UnkeptOffersNothing(env, last, name);
      }
    }
  }

  /** The candidates of the configuration are the kept parts. */
  lemma {:induction false} CandidatesKept(env: Environment, cfg: Config, parts: seq<Part>, n: nat, name: string)
    requires PartsFor(env, cfg, false, parts) && n <= |parts| == |cfg.servers|
    ensures Candidates(cfg.servers[..n], |cfg.servers| > 1, name) == ServersOf(Keep(parts[..n], name))
  {
    hide PartsFor, Candidate, Kept, Prefixed;
    if n > 0 {
      CandidatesKept(env, cfg, parts, n - 1, name);
      assert cfg.servers[..n][..n - 1] == cfg.servers[..n - 1] && parts[..n][..n - 1] == parts[..n - 1];
      CandidateKept(env, cfg, parts, n - 1, name);
    }
  }

  lemma CandidateKept(env: Environment, cfg: Config, parts: seq<Part>, i: nat, name: string)
    requires PartsFor(env, cfg, false, parts) && i < |parts|
    ensures Candidate(cfg.servers[i], |cfg.servers| > 1, name) ==
      if Kept(parts[i], name) then Some(Prefixed(parts[i]).server) else None
  {
    assert PartFor(env, cfg.servers, i, false, parts[i]);
    var server := cfg.servers[i];
    if |cfg.servers| > 1 || server.prefix != "" {
      Namespace.PrefixValid(server.name, server.prefix);
    }
  }

  // ---- A selection compiles and resolves alike ----

  /** Compiling `cfg` gives a catalog made from `parts`. */
  ghost predicate MadeFrom(env: Environment, cfg: Config, parts: seq<Part>) {
    !cfg.deferAuthorization && PartsFor(env, cfg, false, parts) && AllAccepted(env, parts)
  }

  lemma Resolves(env: Environment, cfg: Config, parts: seq<Part>, name: string)
    requires MadeFrom(env, cfg, parts)
    ensures Compile(env, cfg, false).Ok?
    ensures var catalog := Compile(env, cfg, false).value; var offer := FindOffer(AllOffers(env, Tools, parts), name);
      && catalog.toolSearch == cfg.toolSearch
      && RouteReference(env, catalog, name) == ReferenceOf(env, offer)
      && (!cfg.toolSearch ==> RouteTool(catalog, name) == if offer.Some? then Some(offer.value.route) else None)
  {
    TogetherExactly(env, cfg, parts);
    hide Together, PartsFor, AllAccepted, Accepted, OffersOf;
    PartsCompile(env, cfg, false, parts);
    AllAcceptedIn(env, parts, Tools);
    AcceptedDistinct(env, parts, Tools);
    AllOffersProper(env, Tools, parts);
    SectionsExactly(env, parts, Tools);
    CatalogResolves(env, Compile(env, cfg, false).value, AllOffers(env, Tools, parts), name);
  }

  /** The same result, up to the component's configured prefix in a route. */
  predicate SameOutcome(a: Resolved, b: Resolved) {
    if a.Forward? && b.Forward? then BlindRoute(a.route) == BlindRoute(b.route) && a.arguments == b.arguments
    else a == b
  }

  lemma AlikeReferences(env: Environment, a: Option<Offer>, b: Option<Offer>)
    requires BlindOption(a) == BlindOption(b)
    ensures a.Some? <==> b.Some?
    ensures a.Some? ==>
      && BlindRoute(a.value.route) == BlindRoute(b.value.route)
      && RevisionOf(env, a.value.route, a.value.feature) == RevisionOf(env, b.value.route, b.value.feature)
  {
    if a.Some? {
      assert Blind(a.value).route == Blind(b.value).route && Blind(a.value).feature == Blind(b.value).feature;
      assert BlindRoute(a.value.route).component.name == a.value.route.component.name;
      assert BlindRoute(b.value.route).component.name == b.value.route.component.name;
    }
  }

  /** The name that decides ownership: in search mode, the one in the arguments. */
  function Wanted(env: Environment, cfg: Config, name: string, arguments: string): Option<string> {
    if !cfg.toolSearch then Some(name)
    else if name != CALL_TOOL || env.parse(arguments).None? then None
    else Some(env.parse(arguments).value.name)
  }

  lemma SameResolution(env: Environment, cfg: Config, all: seq<Part>, some: Config, parts: seq<Part>, name: string,
                       arguments: string)
    requires MadeFrom(env, cfg, all) && MadeFrom(env, some, parts) && cfg.toolSearch == some.toolSearch
    requires Wanted(env, cfg, name, arguments).Some?
    requires var wanted := Wanted(env, cfg, name, arguments).value;
      BlindOption(FindOffer(AllOffers(env, Tools, parts), wanted)) ==
        BlindOption(FindOffer(AllOffers(env, Tools, all), wanted))
    ensures Compile(env, cfg, false).Ok? && Compile(env, some, false).Ok?
    ensures SameOutcome(
      ResolveToolCall(env, Compile(env, some, false).value, name, arguments),
      ResolveToolCall(env, Compile(env, cfg, false).value, name, arguments))
  {
    hide Compile, MadeFrom, AllOffers, FindOffer, RouteReference, RouteTool;
    var wanted := Wanted(env, cfg, name, arguments).value;
    Resolves(env, cfg, all, wanted);
    Resolves(env, some, parts, wanted);
    AlikeReferences(env, FindOffer(AllOffers(env, Tools, parts), wanted),
      FindOffer(AllOffers(env, Tools, all), wanted));
  }

  // ---- The candidates ----

  lemma CandidatesMade(env: Environment, cfg: Config, all: seq<Part>, name: string) returns (parts: seq<Part>)
    requires PrefixBlind(env) && MadeFrom(env, cfg, all)
    ensures MadeFrom(env, CandidateConfig(cfg, name), parts)
    ensures BlindOption(FindOffer(AllOffers(env, Tools, parts), name)) ==
      BlindOption(FindOffer(AllOffers(env, Tools, all), name))
    ensures parts == all || Selection(all, parts)
  {
    CandidatesKept(env, cfg, all, |all|, name);
    assert cfg.servers[..|all|] == cfg.servers && all[..|all|] == all;
    if |Keep(all, name)| == 0 {
      parts := all;
      assert CandidateConfig(cfg, name) == cfg;
    } else {
      parts := Keep(all, name);
      KeepSelects(all, name);
      SelectedParts(env, cfg, all, CandidateConfig(cfg, name), parts);
      KeepFinds(env, all, name);
      KeepAccepted(env, all, name);
    }
  }

  lemma KeepAccepted(env: Environment, all: seq<Part>, name: string)
    requires AllAccepted(env, all)
    ensures AllAccepted(env, Keep(all, name))
  {
    KeepAcceptedIn(env, all, name, Tools);
    KeepAcceptedIn(env, all, name, Prompts);
    KeepAcceptedIn(env, all, name, Resources);
    KeepAcceptedIn(env, all, name, Templates);
    AcceptedInAll(env, Keep(all, name));
  }

  lemma KeepAcceptedIn(env: Environment, all: seq<Part>, name: string, family: Family)
    requires AllAccepted(env, all)
    ensures Accepted(env, Keep(all, name), family)
  {
    AllAcceptedIn(env, all, family);
    AcceptedExactly(env, all, family);
    KeepCoherent(env, all, name, family);
    AcceptedExactly(env, Keep(all, name), family);
  }

  // ---- The owner ----

  lemma {:induction false} OwnerPart(env: Environment, parts: seq<Part>, name: string) returns (i: nat)
    requires FindOffer(AllOffers(env, Tools, parts), name).Some?
    ensures i < |parts|
    ensures FindOffer(OffersOf(env, Tools, parts[i]), name) == FindOffer(AllOffers(env, Tools, parts), name)
    ensures var route := FindOffer(AllOffers(env, Tools, parts), name).value.route;
      route.component == parts[i].server && route.prefix == parts[i].prefix
  {
    var init, last := parts[..|parts| - 1], parts[|parts| - 1];
    FindAppend(AllOffers(env, Tools, init), OffersOf(env, Tools, last), name);
    if FindOffer(AllOffers(env, Tools, init), name).Some? {
      i := OwnerPart(env, init, name);
    } else {
      i := |parts| - 1;
      OffersProper(JobOf(env, Tools, last), Inventory(last, Tools));
      FindOfferExactly(OffersOf(env, Tools, last), name);
    }
  }

  /** A component alone, with its prefix spelled out. */
  lemma OwnerMade(env: Environment, cfg: Config, all: seq<Part>, i: nat, name: string)
    requires PrefixBlind(env) && MadeFrom(env, cfg, all) && i < |all|
    ensures MadeFrom(env, cfg.(servers := [Prefixed(all[i]).server]), [Prefixed(all[i])])
    ensures BlindOption(FindOffer(AllOffers(env, Tools, [Prefixed(all[i])]), name)) ==
      BlindOption(FindOffer(OffersOf(env, Tools, all[i]), name))
  {
    hide OffersOf, AllAccepted, PartFor, Alike, FindOffer, BlindOption, PrefixBlind;
    var part := Prefixed(all[i]);
    assert ServersOf([part]) == [part.server];
    SelectedParts(env, cfg, all, cfg.(servers := [part.server]), [part]);
    AloneAccepted(env, all, i);
    AloneOffers(env, part);
    PartAlike(env, Tools, all[i]);
    AlikeFind(OffersOf(env, Tools, part), OffersOf(env, Tools, all[i]), name);
  }

  lemma AloneOffers(env: Environment, part: Part)
    ensures AllOffers(env, Tools, [part]) == OffersOf(env, Tools, part)
  {
    hide OffersOf;
    assert AllOffers(env, Tools, [part][..0]) == [];
  }

  lemma AloneAccepted(env: Environment, all: seq<Part>, i: nat)
    requires AllAccepted(env, all) && i < |all|
    ensures AllAccepted(env, [Prefixed(all[i])])
  {
    AloneAcceptedIn(env, all, i, Tools);
    AloneAcceptedIn(env, all, i, Prompts);
    AloneAcceptedIn(env, all, i, Resources);
    AloneAcceptedIn(env, all, i, Templates);
    AcceptedInAll(env, [Prefixed(all[i])]);
  }

  lemma AloneAcceptedIn(env: Environment, all: seq<Part>, i: nat, family: Family)
    requires AllAccepted(env, all) && i < |all|
    ensures Accepted(env, [Prefixed(all[i])], family)
  {
    AllAcceptedIn(env, all, family);
    AcceptedExactly(env, all, family);
    assert OwnCoherent(env, family, all[i]);
    PartAlike(env, family, all[i]);
    AcceptedExactly(env, [Prefixed(all[i])], family);
  }

  // ---- The main result ----

  /** The registry only returns what compiling that configuration yields. */
  ghost predicate Faithful(env: Environment, cached: Config -> Option<Catalog>) {
    forall cfg :: cached(cfg).Some? ==> Compile(env, cfg, false) == Ok(cached(cfg).value)
  }

  /** What the scoped selection is made of, wherever it came from. */
  lemma SelectionMade(env: Environment, cached: Config -> Option<Catalog>, cfg: Config, all: seq<Part>, name: string)
      returns (parts: seq<Part>)
    requires PrefixBlind(env) && Faithful(env, cached) && MadeFrom(env, cfg, all)
    ensures MadeFrom(env, Select(env, cached, cfg, name), parts)
    ensures BlindOption(FindOffer(AllOffers(env, Tools, parts), name)) ==
      BlindOption(FindOffer(AllOffers(env, Tools, all), name))
  {
    var candidates := CandidateConfig(cfg, name);
    var kept := CandidatesMade(env, cfg, all, name);
    if CachedOwner(env, cached, cfg, name).Some? {
      parts := OwnerSelected(env, cached, cfg, all, name);
    } else if CachedOwner(env, cached, candidates, name).Some? {
      parts := OwnerSelected(env, cached, candidates, kept, name);
    } else {
      parts := kept;
    }
  }

  lemma OwnerSelected(env: Environment, cached: Config -> Option<Catalog>, cfg: Config, all: seq<Part>, name: string)
      returns (parts: seq<Part>)
    requires PrefixBlind(env) && Faithful(env, cached) && MadeFrom(env, cfg, all)
    requires CachedOwner(env, cached, cfg, name).Some?
    ensures MadeFrom(env, cfg.(servers := [CachedOwner(env, cached, cfg, name).value]), parts)
    ensures BlindOption(FindOffer(AllOffers(env, Tools, parts), name)) ==
      BlindOption(FindOffer(AllOffers(env, Tools, all), name))
  {
    Resolves(env, cfg, all, name);
    assert Compile(env, cfg, false) == Ok(cached(cfg).value);
    var i := OwnerPart(env, all, name);
    OwnerMade(env, cfg, all, i, name);
    parts := [Prefixed(all[i])];
  }

  /** Main result. Whenever the full tools catalog compiles, a scoped `tools/call`
      compiles too, and resolves every name exactly as the full catalog does: to the
      same tool under the same prefix with the same protocol version and revision, and
      to the same component up to its configured prefix. */
  lemma ScopedSelectionPreserves(env: Environment, cached: Config -> Option<Catalog>, cfg: Config, name: string,
                                 arguments: string)
    requires PrefixBlind(env) && Faithful(env, cached)
    requires !cfg.deferAuthorization && Compile(env, Limited(cfg, "tools"), false).Ok?
    requires cfg.requestScoped
    ensures var full := Limited(cfg, "tools");
      var scoped := RequestCatalogConfig(env, cached, cfg, CALL_METHOD, name, arguments);
      && Compile(env, scoped, false).Ok?
      && SameOutcome(
           ResolveToolCall(env, Compile(env, scoped, false).value, name, arguments),
           ResolveToolCall(env, Compile(env, full, false).value, name, arguments))
  {
    hide Compile, Select, MadeFrom, ResolveToolCall, RequestCatalogConfig, Limited;
    var full := Limited(cfg, "tools");
    LimitedKeeps(cfg, "tools");
    ScopedIs(env, cached, cfg, name, arguments);
    var all := SomeMade(env, full);
    if Wanted(env, cfg, name, arguments).Some? {
      var wanted := Wanted(env, cfg, name, arguments).value;
      var parts := SelectionMade(env, cached, full, all, wanted);
      SelectKeeps(env, cached, full, wanted);
      SameResolution(env, full, all, Select(env, cached, full, wanted), parts, name, arguments);
    } else if name == CALL_TOOL {
      BadArguments(env, full, all, arguments);
    }
  }

  lemma LimitedKeeps(cfg: Config, family: string)
    ensures Limited(cfg, family).toolSearch == cfg.toolSearch
    ensures Limited(cfg, family).deferAuthorization == cfg.deferAuthorization
  {
  }

  lemma SelectKeeps(env: Environment, cached: Config -> Option<Catalog>, cfg: Config, name: string)
    ensures Select(env, cached, cfg, name).toolSearch == cfg.toolSearch
  {
    hide Candidates, CachedOwner;
  }

  lemma ScopedIs(env: Environment, cached: Config -> Option<Catalog>, cfg: Config, name: string, arguments: string)
    requires cfg.requestScoped && !cfg.deferAuthorization
    ensures RequestCatalogConfig(env, cached, cfg, CALL_METHOD, name, arguments) ==
      if Wanted(env, cfg, name, arguments).Some?
      then Select(env, cached, Limited(cfg, "tools"), Wanted(env, cfg, name, arguments).value)
      else if name == CALL_TOOL then Limited(cfg, "tools").(servers := [])
      else Limited(cfg, "tools")
  {
    hide Select, Limited;
    CallFamily();
  }

  lemma SomeMade(env: Environment, cfg: Config) returns (parts: seq<Part>)
    requires !cfg.deferAuthorization && Compile(env, cfg, false).Ok?
    ensures MadeFrom(env, cfg, parts)
  {
    hide Together, Compile, PartsFor, AllAccepted;
    parts := SomeParts(env, cfg, false);
    TogetherExactly(env, cfg, parts);
  }

  /** Arguments that do not parse are answered the same by no components at all. */
  lemma BadArguments(env: Environment, full: Config, all: seq<Part>, arguments: string)
    requires MadeFrom(env, full, all) && full.toolSearch && env.parse(arguments).None?
    ensures var none := full.(servers := []);
      && Compile(env, full, false).Ok? && Compile(env, none, false).Ok?
      && ResolveToolCall(env, Compile(env, none, false).value, CALL_TOOL, arguments) == InvalidArguments
      && ResolveToolCall(env, Compile(env, full, false).value, CALL_TOOL, arguments) == InvalidArguments
  {
    var none := full.(servers := []);
    Resolves(env, none, [], CALL_TOOL);
    Resolves(env, full, all, CALL_TOOL);
  }

  lemma CallFamily()
    ensures FamilyOf(CALL_METHOD) == "tools"
  {
    assert Cut("/call") == "";
    assert Cut("s/call") == "s";
    assert Cut("ls/call") == "ls";
    assert Cut("ols/call") == "ols";
    assert Cut("ools/call") == "ools";
    assert Cut("tools/call") == "tools";
  }

  // ---- The hypotheses can be met ----

  const TOOL := Feature("t", "", "", 0)

  const FEATURES := NOTHING.(tools := [Some(TOOL)])

  function ServerAt(prefix: string): Server {
    Server(prefix, prefix, "", "tools", false, [], [], [], [], 0)
  }

  function PartAt(prefix: string): Part {
    Part(ServerAt(prefix), prefix, FEATURES)
  }

  const ONE_TOOL := Environment(
    server => Listed(Some(FEATURES)), uri => true, template => true, arguments => None,
    (name, component, original, tool) => "")

  const FULL := Config([ServerAt("a_"), ServerAt("b_")], false, false, true)

  const PARTS := [PartAt("a_"), PartAt("b_")]

  /** Two components report the same tool; the cached full catalog knows whose "a_t" is;
      and only that component is selected. */
  lemma HypothesesHold() returns (cached: Config -> Option<Catalog>)
    ensures PrefixBlind(ONE_TOOL) && Faithful(ONE_TOOL, cached) && Limited(FULL, "tools") == FULL
    ensures Compile(ONE_TOOL, FULL, false).Ok? && cached(FULL).Some?
    ensures ResolveToolCall(ONE_TOOL, Compile(ONE_TOOL, FULL, false).value, "a_t", "").Forward?
    ensures RequestCatalogConfig(ONE_TOOL, cached, FULL, CALL_METHOD, "a_t", "").servers == [ServerAt("a_")]
  {
    hide Compile, AllOffers, FindOffer, RouteReference, MadeFrom, RequestCatalogConfig;
    PartsMade();
    OwnerFound();
    Resolves(ONE_TOOL, FULL, PARTS, "a_t");
    var catalog := Compile(ONE_TOOL, FULL, false).value;
    cached := cfg => if cfg == FULL then Some(catalog) else None;
    OwnerSpares(cached);
  }

  lemma OwnerSpares(cached: Config -> Option<Catalog>)
    requires CachedOwner(ONE_TOOL, cached, FULL, "a_t") == Some(ServerAt("a_"))
    ensures RequestCatalogConfig(ONE_TOOL, cached, FULL, CALL_METHOD, "a_t", "").servers == [ServerAt("a_")]
  {
    hide CachedOwner, CandidateConfig, RequestCatalogConfig;
    ScopedIs(ONE_TOOL, cached, FULL, "a_t", "");
    assert Limited(FULL, "tools") == FULL;
  }

  lemma OwnerFound()
    ensures var offer := FindOffer(AllOffers(ONE_TOOL, Tools, PARTS), "a_t");
      offer.Some? && offer.value.route.component == ServerAt("a_") && offer.value.route.prefix == "a_"
  {
    PartOffers("a_");
    assert PARTS[..1] == [PartAt("a_")];
    AloneOffers(ONE_TOOL, PartAt("a_"));
    hide OffersOf;
    assert AllOffers(ONE_TOOL, Tools, PARTS)[0].name == "a_t";
  }

  lemma PartsMade()
    ensures MadeFrom(ONE_TOOL, FULL, PARTS)
  {
    hide Coherent, PartFor, AllAccepted, InstallParts, OffersOf, ServerAt, PartAt;
    forall family: Family ensures Coherent(ONE_TOOL, PARTS, family) { PartsCoherent(family); }
    TogetherExactly(ONE_TOOL, FULL, PARTS);
    PartFound("a_", 0);
    PartFound("b_", 1);
  }

  lemma PartsCoherent(family: Family)
    ensures Coherent(ONE_TOOL, PARTS, family)
  {
    PartCoherent("a_", family);
    PartCoherent("b_", family);
    hide OffersOf, OwnCoherent;
    var a, b := OffersOf(ONE_TOOL, family, PartAt("a_")), OffersOf(ONE_TOOL, family, PartAt("b_"));
    forall i, j | 0 <= i < |a| && 0 <= j < |b| ensures a[i].name != b[j].name {
      assert a[i] in a && b[j] in b;
      assert a[i].name[0] == 'a' && b[j].name[0] == 'b';
    }
  }

  predicate Short(prefix: string) {
    Namespace.ValidPart(prefix) && |prefix| == 2 && prefix[1] == '_'
  }

  lemma PartCoherent(prefix: string, family: Family)
    requires Short(prefix)
    ensures OwnCoherent(ONE_TOOL, family, PartAt(prefix))
    ensures forall offer :: offer in OffersOf(ONE_TOOL, family, PartAt(prefix)) ==> offer.name == prefix + "t"
  {
    if family.Tools? { PartOffers(prefix); } else { assert Inventory(PartAt(prefix), family) == []; }
  }

  lemma PartOffers(prefix: string)
    requires Short(prefix)
    ensures var job := JobOf(ONE_TOOL, Tools, PartAt(prefix));
      && job == Job(ONE_TOOL, Tools, ServerAt(prefix), prefix, map[], "")
      && OffersOf(ONE_TOOL, Tools, PartAt(prefix)) == [OfferOf(job, prefix + "t", TOOL)]
      && WellListed(job, FEATURES.tools)
  {
    var tools := FEATURES.tools;
    assert tools[..0] == [];
    assert KeyedOverrides([]) == Some(map[]);
    PlainName(prefix);
    var job := JobOf(ONE_TOOL, Tools, PartAt(prefix));
    assert NameOf(job, TOOL) == Ok(prefix + "t") && Offers(job, tools[..0]) == [];
    assert Offers(job, tools) == [OfferOf(job, prefix + "t", TOOL)];
  }

  lemma PartFound(prefix: string, i: nat)
    requires Short(prefix) && i < 2 && FULL.servers[i] == ServerAt(prefix)
    ensures PartFor(ONE_TOOL, FULL.servers, i, false, PartAt(prefix))
  {
    forall family: Family ensures Fits(ONE_TOOL, family, PartAt(prefix), EMPTY) { PartCoherent(prefix, family); }
    ComponentExactly(ONE_TOOL, NO_SECTIONS, PartAt(prefix));
    hide Fits, CompileComponent;
  }

  lemma PlainName(prefix: string)
    requires Short(prefix)
    ensures Namespace.NamedFeature(prefix, "t") == Ok(prefix + "t")
  {
    assert Namespace.ValidPart("t");
  }
}
