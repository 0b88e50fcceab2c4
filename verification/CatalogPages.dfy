/** Paging through what a compiled catalog exposes. */
module CatalogPages {
  import opened Wrappers
  import opened Ordering
  import opened CatalogTypes
  import opened FamilyCompiler
  import opened CatalogCompiler
  import opened CatalogExactness
  import opened CatalogRoutes
  import opened Pagination
  import Namespace

  /** What is exposed has a name. */
  lemma NamesNonEmpty(env: Environment, family: Family, prefix: string, local: string)
    requires !env.validUri("") && !env.validTemplate("")
    requires Named(env, family, prefix, local).Ok?
    ensures Named(env, family, prefix, local).value != ""
  {
    if family.Tools? || family.Prompts? { Namespace.NamesInjective(prefix, local, local); }
  }

  lemma ExposedNonEmpty(env: Environment, cfg: Config, deferAuthorization: bool, parts: seq<Part>, family: Family)
    requires !env.validUri("") && !env.validTemplate("")
    requires PartsFor(env, cfg, deferAuthorization, parts) && Together(env, cfg, parts)
    requires Compile(env, cfg, deferAuthorization).Ok?
    requires Compile(env, cfg, deferAuthorization).value.pendingAuthorization == []
    ensures "" !in KeysOf(Get(Compile(env, cfg, deferAuthorization).value.sections, family).exposed)
  {
    hide Compile, PartsFor, Together, KeysOf;
    var section := Get(Compile(env, cfg, deferAuthorization).value.sections, family);
    ExposedExactly(env, cfg, deferAuthorization, parts, family);
    if "" in section.routes {
      RoutesLead(env, cfg, deferAuthorization, parts, family, "", section.routes[""]);
      var i :| 0 <= i < |parts| && LeadsFrom(env, family, parts[i], "", section.routes[""]);
      var k: nat :| Leads(env, family, parts[i], k, "", section.routes[""]);
      NamesNonEmpty(env, family, parts[i].prefix,
        LocalKey(JobOf(env, family, parts[i]).keyed, Inventory(parts[i], family)[k].value.key));
    }
  }

  /** What the pages of a family list: the tools are those that the catalog's mode
      shows. */
  function Paged(catalog: Catalog, family: Family): seq<Feature> {
    if family.Tools? then catalog.visibleTools else Get(catalog.sections, family).exposed
  }

  /** A pending catalog pages one tool and nothing else, a search catalog the two
      tools that find and call the others, and all else is paged as it is routed. */
  lemma PagedExactly(env: Environment, cfg: Config, deferAuthorization: bool, family: Family)
    requires Compile(env, cfg, deferAuthorization).Ok?
    ensures var catalog := Compile(env, cfg, deferAuthorization).value;
      var names := KeysOf(Paged(catalog, family));
      if catalog.pendingAuthorization != [] then names == if family.Tools? then [AUTHORIZATION_TOOL] else []
      else if family.Tools? && cfg.toolSearch then names == [CALL_TOOL, SEARCH_TOOL]
      else StrictlySorted(names) && forall name :: name in names <==> name in Get(catalog.sections, family).routes
  {
    var parts := SomeParts(env, cfg, deferAuthorization);
    PartsCompile(env, cfg, deferAuthorization, parts);
    DefinitionsSorted();
    hide Compile, PartsFor, Together, SortFeatures, InstallParts;
    if Compile(env, cfg, deferAuthorization).value.pendingAuthorization == [] {
      ExposedExactly(env, cfg, deferAuthorization, parts, family);
    }
  }

  lemma DefinitionsSorted()
    ensures KeysOf(SortFeatures(DEFINITIONS)) == [CALL_TOOL, SEARCH_TOOL]
  {
    assert SortFeatures(DEFINITIONS[..1]) == [DEFINITIONS[0]];
    assert SortFeatures(DEFINITIONS) == [DEFINITIONS[1], DEFINITIONS[0]];
  }

  lemma PagedNonEmpty(env: Environment, cfg: Config, deferAuthorization: bool, family: Family)
    requires !env.validUri("") && !env.validTemplate("") && Compile(env, cfg, deferAuthorization).Ok?
    ensures var names := KeysOf(Paged(Compile(env, cfg, deferAuthorization).value, family));
      StrictlySorted(names) && "" !in names
  {
    PagedExactly(env, cfg, deferAuthorization, family);
    var parts := SomeParts(env, cfg, deferAuthorization);
    hide Compile, PartsFor, Together, KeysOf, Paged;
    if Compile(env, cfg, deferAuthorization).value.pendingAuthorization == [] {
      ExposedNonEmpty(env, cfg, deferAuthorization, parts, family);
      ExposedExactly(env, cfg, deferAuthorization, parts, family);
    }
  }

  /** Main result. Following cursors through any family of a compiled catalog lists
      every name that it shows there exactly once, in order, whatever the page sizes. */
  lemma CatalogWalk(env: Environment, cfg: Config, deferAuthorization: bool, family: Family,
                    codec: Codec, id: string, sizes: nat -> int)
    requires Lawful(codec) && !env.validUri("") && !env.validTemplate("") && Compile(env, cfg, deferAuthorization).Ok?
    ensures var names := KeysOf(Paged(Compile(env, cfg, deferAuthorization).value, family));
      StrictlySorted(names) && "" !in names && Walk(codec, id, family, names, "", sizes, 0) == names
  {
    hide Compile, KeysOf, Paged;
    PagedNonEmpty(env, cfg, deferAuthorization, family);
    WalkComplete(codec, id, family, KeysOf(Paged(Compile(env, cfg, deferAuthorization).value, family)), sizes);
  }
}
