/** Compiling one family of one component's features into a section of the catalog,
    and exactly when that succeeds and with what. */
module FamilyCompiler {
  import opened Wrappers
  import opened CatalogTypes
  import Namespace

  datatype Error =
    | InvalidPrefix(component: string)
    | Undiscovered(component: string)
    | Unauthorized
    | DuplicateOverride(component: string, family: Family)
    | NilFeature(component: string, family: Family)
    | DuplicateFeature(component: string, key: string)
    | InvalidName(component: string, error: Namespace.Error)
    | Collision(key: string, first: string, second: string)
    | Reserved

  // ---- Overrides ----

  function KeyedOverrides(overrides: seq<Override>): Option<map<string, Override>> {
    if |overrides| == 0 then Some(map[])
    else
      match KeyedOverrides(overrides[..|overrides| - 1])
      case None => None
      case Some(keyed) =>
        var last := overrides[|overrides| - 1];
        if last.key in keyed then None else Some(keyed[last.key := last])
  }

  method BuildKeyedOverrides(overrides: seq<Override>) returns (result: Option<map<string, Override>>)
    ensures result == KeyedOverrides(overrides)
  {
    var keyed := map[];
    for i := 0 to |overrides|
      invariant KeyedOverrides(overrides[..i]) == Some(keyed)
    {
      assert overrides[..i + 1][..i] == overrides[..i];
      if overrides[i].key in keyed {
        FailureLasts(overrides, i + 1);
        return None;
      }
      keyed := keyed[overrides[i].key := overrides[i]];
    }
    assert overrides[..|overrides|] == overrides;
    return Some(keyed);
  }

  lemma {:induction false} FailureLasts(overrides: seq<Override>, i: nat)
    requires i <= |overrides| && KeyedOverrides(overrides[..i]).None?
    ensures KeyedOverrides(overrides).None?
    decreases |overrides|
  {
    if i == |overrides| {
      assert overrides[..i] == overrides;
    } else {
      var init := overrides[..|overrides| - 1];
      assert init[..i] == overrides[..i];
      FailureLasts(init, i);
    }
  }

  ghost predicate DistinctKeys(overrides: seq<Override>) {
    forall i, j :: 0 <= i < j < |overrides| ==> overrides[i].key != overrides[j].key
  }

  /** The map has each override under its key, and exists when no key repeats. */
  lemma {:induction false} KeyedExactly(overrides: seq<Override>)
    ensures KeyedOverrides(overrides).Some? <==> DistinctKeys(overrides)
    ensures KeyedOverrides(overrides).Some? ==> Holds(KeyedOverrides(overrides).value, overrides)
  {
    if |overrides| > 0 {
      var init, last := overrides[..|overrides| - 1], overrides[|overrides| - 1];
      KeyedExactly(init);
      assert forall i :: 0 <= i < |init| ==> init[i] == overrides[i];
      if KeyedOverrides(init).Some? && last.key in KeyedOverrides(init).value {
        var i :| 0 <= i < |init| && init[i].key == last.key;
        assert overrides[i].key == overrides[|overrides| - 1].key;
      }
    }
  }

  ghost predicate Holds(keyed: map<string, Override>, overrides: seq<Override>) {
    && (forall i :: 0 <= i < |overrides| ==> overrides[i].key in keyed && keyed[overrides[i].key] == overrides[i])
    && (forall key :: key in keyed ==> exists i :: 0 <= i < |overrides| && overrides[i].key == key)
  }

  /** Tool overrides, once there are any, are an allow-list; elsewhere an override can
      only disable. */
  predicate Allowed(family: Family, keyed: map<string, Override>, key: string) {
    if family.Tools? then |keyed| == 0 || (key in keyed && keyed[key].enabled)
    else key in keyed ==> keyed[key].enabled
  }

  function LocalKey(keyed: map<string, Override>, key: string): string {
    if key in keyed && keyed[key].rename != "" then keyed[key].rename else key
  }

  function Named(env: Environment, family: Family, prefix: string, local: string): Result<string, Namespace.Error> {
    match family
    case Tools => Namespace.NamedFeature(prefix, local)
    case Prompts => Namespace.NamedFeature(prefix, local)
    case Resources => Namespace.NamedUri(prefix, local, env.validUri(local))
    case Templates => Namespace.NamedUri(prefix, local, env.validTemplate(local))
  }

  function Expose(family: Family, keyed: map<string, Override>, name: string, feature: Feature): Feature {
    var override := if feature.key in keyed then Some(keyed[feature.key]) else None;
    feature.(
      key := name,
      title := if (family.Resources? || family.Templates?) && override.Some? && override.value.title != ""
               then override.value.title else feature.title,
      description := if override.Some? && override.value.description != ""
                     then override.value.description else feature.description)
  }

  // ---- Adding the discovered features one by one ----

  /** What stays fixed while one component's family is compiled. */
  datatype Job = Job(env: Environment, family: Family, server: Server, prefix: string, keyed: map<string, Override>,
    version: string)

  function Keys(discovered: seq<Option<Feature>>): set<string> {
    set i | 0 <= i < |discovered| && discovered[i].Some? :: discovered[i].value.key
  }

  function NameOf(job: Job, feature: Feature): Result<string, Namespace.Error> {
    Named(job.env, job.family, job.prefix, LocalKey(job.keyed, feature.key))
  }

  function Added(job: Job, section: Section, seen: set<string>, item: Option<Feature>): Result<Section, Error> {
    match item
    case None => Err(NilFeature(job.server.name, job.family))
    case Some(feature) =>
      if feature.key in seen then Err(DuplicateFeature(job.server.name, feature.key))
      else if !Allowed(job.family, job.keyed, feature.key) then Ok(section)
      else
        match NameOf(job, feature)
        case Err(e) => Err(InvalidName(job.server.name, e))
        case Ok(name) =>
          if name in section.routes then Err(Collision(name, section.routes[name].component.name, job.server.name))
          else Ok(Install(section, OfferOf(job, name, feature)))
  }

  function AddAll(job: Job, section: Section, discovered: seq<Option<Feature>>): Result<Section, Error> {
    if |discovered| == 0 then Ok(section)
    else
      var init := discovered[..|discovered| - 1];
      match AddAll(job, section, init)
      case Err(e) => Err(e)
      case Ok(s) => Added(job, s, Keys(init), discovered[|discovered| - 1])
  }

  function CompileFamily(env: Environment, family: Family, server: Server, prefix: string, version: string,
                         section: Section, discovered: seq<Option<Feature>>): Result<Section, Error>
  {
    if family.Tools? && server.disableTools then Ok(section)
    else
      match KeyedOverrides(OverridesOf(server, family))
      case None => Err(DuplicateOverride(server.name, family))
      case Some(keyed) => AddAll(Job(env, family, server, prefix, keyed, version), section, discovered)
  }

  method CompileSection(env: Environment, family: Family, server: Server, prefix: string, version: string,
                        section: Section, discovered: seq<Option<Feature>>) returns (result: Result<Section, Error>)
    ensures result == CompileFamily(env, family, server, prefix, version, section, discovered)
  {
    if family.Tools? && server.disableTools {
      return Ok(section);
    }
    var overrides := BuildKeyedOverrides(OverridesOf(server, family));
    if overrides.None? {
      return Err(DuplicateOverride(server.name, family));
    }
    var keyed := overrides.value;
    var job := Job(env, family, server, prefix, keyed, version);
    var exposed, routes := section.exposed, section.routes;
    var seen := {};
    for i := 0 to |discovered|
      invariant seen == Keys(discovered[..i])
      invariant AddAll(job, section, discovered[..i]) == Ok(Section(exposed, routes))
    {
      AddNext(job, section, discovered, i);
      if discovered[i].None? {
        return Err(NilFeature(server.name, family));
      }
      var feature := discovered[i].value;
      if feature.key in seen {
        return Err(DuplicateFeature(server.name, feature.key));
      }
      seen := seen + {feature.key};
      if !Allowed(family, keyed, feature.key) {
        continue;
      }
      var name := Named(env, family, prefix, LocalKey(keyed, feature.key));
      if name.Err? {
        return Err(InvalidName(server.name, name.error));
      }
      if name.value in routes {
        return Err(Collision(name.value, routes[name.value].component.name, server.name));
      }
      exposed := exposed + [Expose(family, keyed, name.value, feature)];
      routes := routes[name.value := Route(server, prefix, feature, name.value, version)];
    }
    assert discovered[..|discovered|] == discovered;
    return Ok(Section(exposed, routes));
  }

  /** One more feature, and what becomes of a failure. */
  lemma AddNext(job: Job, section: Section, discovered: seq<Option<Feature>>, i: nat)
    requires i < |discovered| && AddAll(job, section, discovered[..i]).Ok?
    ensures var next := Added(job, AddAll(job, section, discovered[..i]).value, Keys(discovered[..i]), discovered[i]);
      && AddAll(job, section, discovered[..i + 1]) == next
      && (next.Err? ==> AddAll(job, section, discovered) == next)
    ensures discovered[i].Some? ==> Keys(discovered[..i + 1]) == Keys(discovered[..i]) + {discovered[i].value.key}
  {
    assert discovered[..i + 1][..i] == discovered[..i];
    if AddAll(job, section, discovered[..i + 1]).Err? { ErrorLasts(job, section, discovered, i + 1); }
    KeysAppend(discovered[..i], discovered[i]);
    assert discovered[..i] + [discovered[i]] == discovered[..i + 1];
  }

  lemma KeysAppend(init: seq<Option<Feature>>, last: Option<Feature>)
    ensures Keys(init + [last]) == Keys(init) + if last.Some? then {last.value.key} else {}
  {
    var all := init + [last];
    assert forall i :: 0 <= i < |init| ==> all[i] == init[i];
    assert all[|init|] == last;
    if last.Some? { assert last.value.key in Keys(all); }
    forall key | key in Keys(init) ensures key in Keys(all) {
      var i :| 0 <= i < |init| && init[i].Some? && init[i].value.key == key;
      assert all[i] == init[i];
    }
  }

  lemma {:induction false} ErrorLasts(job: Job, section: Section, discovered: seq<Option<Feature>>, i: nat)
    requires i <= |discovered| && AddAll(job, section, discovered[..i]).Err?
    ensures AddAll(job, section, discovered) == AddAll(job, section, discovered[..i])
    decreases |discovered|
  {
    if i == |discovered| {
      assert discovered[..i] == discovered;
    } else {
      var init := discovered[..|discovered| - 1];
      assert init[..i] == discovered[..i];
      ErrorLasts(job, section, init, i);
    }
  }

  // ---- What a component offers ----

  /** A name in the catalog, what is listed under it and where it leads. */
  datatype Offer = Offer(name: string, feature: Feature, route: Route)

  function OfferOf(job: Job, name: string, feature: Feature): Offer {
    Offer(name, Expose(job.family, job.keyed, name, feature), Route(job.server, job.prefix, feature, name, job.version))
  }

  function Install(section: Section, offer: Offer): Section {
    Section(section.exposed + [offer.feature], section.routes[offer.name := offer.route])
  }

  function InstallAll(section: Section, offers: seq<Offer>): Section {
    if |offers| == 0 then section
    else Install(InstallAll(section, offers[..|offers| - 1]), offers[|offers| - 1])
  }

  /** The allowed features in the order discovered, each under its exposed name. */
  function Offers(job: Job, discovered: seq<Option<Feature>>): seq<Offer> {
    if |discovered| == 0 then []
    else
      var rest, last := Offers(job, discovered[..|discovered| - 1]), discovered[|discovered| - 1];
      if last.Some? && Allowed(job.family, job.keyed, last.value.key) && NameOf(job, last.value).Ok?
      then rest + [OfferOf(job, NameOf(job, last.value).value, last.value)]
      else rest
  }

  /** Nothing nil, no key twice, and a valid name for everything allowed. */
  ghost predicate WellListed(job: Job, discovered: seq<Option<Feature>>) {
    && (forall i :: 0 <= i < |discovered| ==> WellNamed(job, discovered[i]))
    && (forall i, j :: 0 <= i < j < |discovered| ==>
      discovered[i].Some? && discovered[j].Some? && discovered[i].value.key != discovered[j].value.key)
  }

  predicate WellNamed(job: Job, item: Option<Feature>) {
    item.Some? && (Allowed(job.family, job.keyed, item.value.key) ==> NameOf(job, item.value).Ok?)
  }

  ghost predicate Distinct(offers: seq<Offer>) {
    forall i, j :: 0 <= i < j < |offers| ==> offers[i].name != offers[j].name
  }

  ghost predicate Free(section: Section, offers: seq<Offer>) {
    forall i :: 0 <= i < |offers| ==> offers[i].name !in section.routes
  }

  function FeaturesOf(offers: seq<Offer>): seq<Feature> {
    seq(|offers|, i requires 0 <= i < |offers| => offers[i].feature)
  }

  lemma {:induction false} InstalledFeatures(section: Section, offers: seq<Offer>)
    ensures InstallAll(section, offers).exposed == section.exposed + FeaturesOf(offers)
  {
    if |offers| > 0 {
      InstalledFeatures(section, offers[..|offers| - 1]);
      assert FeaturesOf(offers) == FeaturesOf(offers[..|offers| - 1]) + [offers[|offers| - 1].feature];
    }
  }

  lemma {:induction false} InstalledNames(section: Section, offers: seq<Offer>)
    ensures forall name :: name in InstallAll(section, offers).routes <==>
      name in section.routes || OfferedIn(offers, name)
  {
    if |offers| > 0 {
      var init, last := offers[..|offers| - 1], offers[|offers| - 1];
      InstalledNames(section, init);
      assert forall i :: 0 <= i < |init| ==> init[i] == offers[i];
      assert forall name :: OfferedIn(offers, name) <==> OfferedIn(init, name) || name == last.name;
    }
  }

  ghost predicate Routed(section: Section, offer: Offer) {
    offer.name in section.routes && section.routes[offer.name] == offer.route
  }

  lemma {:induction false} InstalledRoutes(section: Section, offers: seq<Offer>)
    requires Distinct(offers)
    ensures forall i :: 0 <= i < |offers| ==> Routed(InstallAll(section, offers), offers[i])
    ensures forall name :: name in section.routes && !OfferedIn(offers, name) ==>
      name in InstallAll(section, offers).routes && InstallAll(section, offers).routes[name] == section.routes[name]
  {
    if |offers| > 0 {
      var init, last := offers[..|offers| - 1], offers[|offers| - 1];
      InstalledRoutes(section, init);
      forall i | 0 <= i < |init| ensures Routed(InstallAll(section, offers), offers[i]) {
        assert Routed(InstallAll(section, init), init[i]) && init[i] == offers[i];
      }
      forall name | name in section.routes && !OfferedIn(offers, name)
        ensures name in InstallAll(section, offers).routes
        ensures InstallAll(section, offers).routes[name] == section.routes[name]
      {
        assert offers[|offers| - 1].name != name;
        assert forall i :: 0 <= i < |init| ==> init[i] == offers[i];
      }
    }
  }

  ghost predicate OfferedIn(offers: seq<Offer>, name: string) {
    exists i :: 0 <= i < |offers| && offers[i].name == name
  }

  /** Compiling succeeds exactly when the list is sound and no name is taken, and then
      installs exactly the offers. */
  lemma {:induction false} AddAllExactly(job: Job, section: Section, discovered: seq<Option<Feature>>)
    ensures var offers := Offers(job, discovered);
      && (AddAll(job, section, discovered).Ok? <==>
        WellListed(job, discovered) && Distinct(offers) && Free(section, offers))
      && (AddAll(job, section, discovered).Ok? ==>
        AddAll(job, section, discovered).value == InstallAll(section, offers))
  {
    if |discovered| > 0 {
      var init, last := discovered[..|discovered| - 1], discovered[|discovered| - 1];
      AddAllExactly(job, section, init);
      WellListedAppend(job, init, last);
      assert init + [last] == discovered;
      InstalledNames(section, Offers(job, init));
      OffersAppend(job, section, init, last);
    }
  }

  /** The fault of the first feature that cannot be added to what the earlier ones made. */
  ghost predicate FaultAt(job: Job, section: Section, discovered: seq<Option<Feature>>, i: nat, error: Error)
    requires i < |discovered|
  {
    AddAll(job, section, discovered[..i]).Ok? &&
    var made, item := AddAll(job, section, discovered[..i]).value, discovered[i];
    match error
    case NilFeature(component, family) => component == job.server.name && family == job.family && item.None?
    case DuplicateFeature(component, key) =>
      && component == job.server.name && item.Some? && item.value.key == key
      && exists j :: 0 <= j < i && discovered[j].Some? && discovered[j].value.key == key
    case InvalidName(component, e) =>
      component == job.server.name && item.Some? && NameOf(job, item.value) == Err(e)
    case Collision(name, first, second) =>
      && item.Some? && NameOf(job, item.value) == Ok(name) && second == job.server.name
      && name in made.routes && made.routes[name].component.name == first
    case _ => false
  }

  /** A failure reports that fault, and names the components it is between. */
  lemma {:induction false} FaultExactly(job: Job, section: Section, discovered: seq<Option<Feature>>)
    ensures AddAll(job, section, discovered).Err? ==>
      exists i :: 0 <= i < |discovered| && FaultAt(job, section, discovered, i, AddAll(job, section, discovered).error)
  {
    if AddAll(job, section, discovered).Err? {
      var n := |discovered| - 1;
      var init, error := discovered[..n], AddAll(job, section, discovered).error;
      FaultExactly(job, section, init);
      if AddAll(job, section, init).Err? {
        var i :| 0 <= i < n && FaultAt(job, section, init, i, error);
        assert init[..i] == discovered[..i] && forall j :: 0 <= j <= i ==> init[j] == discovered[j];
        assert FaultAt(job, section, discovered, i, error);
      } else {
        assert forall j :: 0 <= j < n ==> init[j] == discovered[j];
        assert FaultAt(job, section, discovered, n, error);
      }
    }
  }

  lemma WellListedAppend(job: Job, init: seq<Option<Feature>>, last: Option<Feature>)
    ensures WellListed(job, init + [last]) <==>
      WellListed(job, init) && WellNamed(job, last) && last.value.key !in Keys(init)
  {
    var all := init + [last];
    assert forall i :: 0 <= i < |init| ==> all[i] == init[i];
    assert all[|init|] == last;
    if WellListed(job, init) && WellNamed(job, last) && last.value.key !in Keys(init) {
      forall i | 0 <= i < |init| ensures init[i].Some? && init[i].value.key != last.value.key {
        assert WellNamed(job, init[i]);
        assert init[i].value.key in Keys(init);
      }
    }
  }

  lemma OffersAppend(job: Job, section: Section, init: seq<Option<Feature>>, last: Option<Feature>)
    ensures var offers, all := Offers(job, init), Offers(job, init + [last]);
      all == if last.Some? && Allowed(job.family, job.keyed, last.value.key) && NameOf(job, last.value).Ok?
             then offers + [OfferOf(job, NameOf(job, last.value).value, last.value)] else offers
    ensures var offers, all := Offers(job, init), Offers(job, init + [last]);
      |all| > |offers| ==>
        && (Distinct(all) <==> Distinct(offers) && !OfferedIn(offers, all[|offers|].name))
        && (Free(section, all) <==> Free(section, offers) && all[|offers|].name !in section.routes)
        && InstallAll(section, all) == Install(InstallAll(section, offers), all[|offers|])
  {
    assert (init + [last])[..|init|] == init;
    var offers, all := Offers(job, init), Offers(job, init + [last]);
    if |all| > |offers| {
      assert forall i :: 0 <= i < |offers| ==> all[i] == offers[i];
      assert all[..|all| - 1] == offers;
    }
  }

  /** `offer` is what compiling makes of `item`. */
  predicate From(job: Job, item: Option<Feature>, offer: Offer) {
    && item.Some? && Allowed(job.family, job.keyed, item.value.key)
    && NameOf(job, item.value).Ok? && offer == OfferOf(job, NameOf(job, item.value).value, item.value)
  }

  /** The offers are exactly the allowed features: none is missing and none is extra,
      and each keeps the feature it came from. */
  lemma {:induction false} OffersExactly(job: Job, discovered: seq<Option<Feature>>, offer: Offer)
    ensures offer in Offers(job, discovered) <==> exists i :: 0 <= i < |discovered| && From(job, discovered[i], offer)
  {
    if |discovered| > 0 {
      var init, last := discovered[..|discovered| - 1], discovered[|discovered| - 1];
      OffersExactly(job, init, offer);
      assert forall i :: 0 <= i < |init| ==> init[i] == discovered[i];
      if offer in Offers(job, init) {
        var i :| 0 <= i < |init| && From(job, init[i], offer);
        assert From(job, discovered[i], offer);
      } else if offer in Offers(job, discovered) {
        assert From(job, discovered[|discovered| - 1], offer);
      }
    }
  }
}
