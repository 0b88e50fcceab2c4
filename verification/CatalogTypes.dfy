/** Configurations, what components report, and compiled catalogs.

    Tools, prompts, resources and resource templates follow one scheme and differ in
    what identifies them: a name, a URI or a URI template, here `key`. */
module CatalogTypes {
  import opened Wrappers

  datatype Family = Tools | Prompts | Resources | Templates

  /** An empty `rename`, `title` or `description` overrides nothing. */
  datatype Override = Override(key: string, rename: string, title: string, description: string, enabled: bool)

  datatype Server = Server(
    name: string,
    prefix: string,
    url: string,
    discoveryMethod: string,
    disableTools: bool,
    tools: seq<Override>,
    prompts: seq<Override>,
    resources: seq<Override>,
    templates: seq<Override>,
    connection: nat)                      // headers, command, environment and so on

  datatype Config = Config(servers: seq<Server>, toolSearch: bool, deferAuthorization: bool, requestScoped: bool)

  datatype Feature = Feature(key: string, title: string, description: string, body: nat)

  datatype Implementation = Implementation(name: string, version: string)

  /** A nil entry in a list is `None`. */
  datatype Features = Features(
    protocolVersion: string,
    serverInfo: Option<Implementation>,
    tools: seq<Option<Feature>>,
    prompts: seq<Option<Feature>>,
    resources: seq<Option<Feature>>,
    templates: seq<Option<Feature>>)

  const NOTHING := Features("", None, [], [], [], [])

  datatype Discovered = Listed(features: Option<Features>) | Challenged | Failed

  datatype CallArguments = CallArguments(name: string, revision: string, arguments: string)

  /** What lies outside: components, the URI and template parsers, the parser of the
      generic call tool's arguments, and the digest of an exposed name, its component,
      its original name and its exposed definition. */
  datatype Environment = Environment(
    discover: Server -> Discovered,
    validUri: string -> bool,
    validTemplate: string -> bool,
    parse: string -> Option<CallArguments>,
    revision: (string, string, string, Feature) -> string)

  datatype Route = Route(component: Server, prefix: string, original: Feature, exposed: string, protocolVersion: string)

  datatype Section = Section(exposed: seq<Feature>, routes: map<string, Route>)

  const EMPTY := Section([], map[])

  datatype Sections = Sections(tools: Section, prompts: Section, resources: Section, templates: Section)

  const NO_SECTIONS := Sections(EMPTY, EMPTY, EMPTY, EMPTY)

  datatype Catalog = Catalog(
    pendingAuthorization: seq<string>,
    serverInfo: Option<Implementation>,
    toolSearch: bool,
    visibleTools: seq<Feature>,
    sections: Sections)

  function Get(s: Sections, family: Family): Section {
    match family
    case Tools => s.tools
    case Prompts => s.prompts
    case Resources => s.resources
    case Templates => s.templates
  }

  function Put(s: Sections, family: Family, section: Section): Sections {
    match family
    case Tools => s.(tools := section)
    case Prompts => s.(prompts := section)
    case Resources => s.(resources := section)
    case Templates => s.(templates := section)
  }

  function OverridesOf(server: Server, family: Family): seq<Override> {
    match family
    case Tools => server.tools
    case Prompts => server.prompts
    case Resources => server.resources
    case Templates => server.templates
  }

  function WithPrefix(server: Server, prefix: string): Server {
    server.(prefix := prefix)
  }

  function KeysOf(features: seq<Feature>): seq<string> {
    seq(|features|, i requires 0 <= i < |features| => features[i].key)
  }
}
