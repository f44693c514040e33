/** scripts/routes-loader.js: loads the route table (from storage, or from the
    bundled CSV when storage is empty), keeps the routes of the current
    domain and turns each into a search node. */
module RoutesLoader {
  import opened Text
  import opened Sorting
  import opened Csv
  import Ranking
  import ManageRoutesOld

  /** `parseCSV`: no routes unless there is a line after the header; every
      data row needs eight fields. */
  function ParseCsv(text: string): seq<Route> {
    var lines := Lines(text, "\n");
    if |lines| <= 1 then [] else Rows(lines[1..], 8, BuildRoute)
  }

  /** The loop of `parseCSV`. */
  method LoadCsv(text: string) returns (routes: seq<Route>)
    ensures routes == ParseCsv(text)
  {
    var lines := Lines(text, "\n");
    if |lines| <= 1 {
      return [];
    }
    routes := ParseRows(lines[1..], 8, BuildRoute);
  }

  /** Every loaded route comes from a data line with at least eight fields,
      and has a domain, an id, a title and a status. */
  lemma ParseCsvSound(text: string)
    ensures forall k :: 0 <= k < |ParseCsv(text)| ==>
      BuiltFrom(Lines(text, "\n")[1..], 8, BuildRoute, ParseCsv(text)[k]) && Complete(ParseCsv(text)[k])
  {
    var lines := Lines(text, "\n");
    if |lines| > 1 {
      RowsSound(lines[1..], 8, BuildRoute);
      RouteRowsComplete(lines[1..], 8);
    }
  }

  /** A table exported by the route administration page loads back as the
      same routes. */
  lemma LoadsExport(routes: seq<Route>)
    requires forall k :: 0 <= k < |routes| ==> ManageRoutesOld.Exportable(routes[k])
    ensures ParseCsv(ManageRoutesOld.RoutesToCsv(routes)) == routes
  {
    ManageRoutesOld.ParseCsvOfRoutesToCsv(routes);
    ManageRoutesOld.RoutesToCsvLines(routes);
    ManageRoutesOld.HeaderSplit();
  }

  /** The `tag` of a stored route: the importers store a list, older entries
      a `|`-separated string ("" when the field is missing). */
  datatype TagField = TagList(items: seq<string>) | TagText(text: string)

  /** A route as it is kept in storage. */
  datatype StoredRoute = StoredRoute(domain: string, id: string, moduleName: string, title: string,
                                     url: string, tag: TagField, description: string, status: string)

  /** `s.replace(/\|/g, repl)`. */
  function ReplacePipes(s: string, repl: string): string {
    Join(Split(s, "|"), repl)
  }

  function NodeTags(tag: TagField): seq<string> {
    match tag
    case TagList(items) => items
    case TagText(text) => if text != "" then NotBlank(Split(text, "|")) else []
  }

  function NodeDepth(tag: TagField): int {
    match tag
    case TagList(items) => |items| - 1
    case TagText(text) => if text != "" then |Split(text, "|")| - 1 else 0
  }

  function NodeTagText(tag: TagField): string {
    match tag
    case TagList(items) => Join(items, " ")
    case TagText(text) => ReplacePipes(text, " ")
  }

  function NodePathLabel(tag: TagField): string {
    match tag
    case TagList(items) => Join(items, " · ")
    case TagText(text) => ReplacePipes(text, " · ")
  }

  /** A route's link: kept when it starts with "http", otherwise resolved
      against the page's protocol and the domain. */
  function NodeUrl(url: string, protocol: string, domain: string): (r: string)
    ensures |r| >= |url| && r[|r| - |url|..] == url
    ensures StartsWith(url, "http") ==> r == url
    ensures !StartsWith(url, "http") ==> StartsWith(r, protocol + "//" + domain)
  {
    if StartsWith(url, "http") then url else protocol + "//" + domain + url
  }

  /** The node built from one stored route. */
  function ToNode(route: StoredRoute, domain: string, usage: map<string, int>, protocol: string): Ranking.Node {
    Ranking.Node(
      id := route.id,
      title := route.title,
      titleLower := RemoveAccents(LowerStr(route.title)),
      tag := NodeTags(route.tag),
      tagLower := RemoveAccents(LowerStr(NodeTagText(route.tag))),
      description := route.description,
      moduleName := route.moduleName,
      status := OrElse(route.status, "active"),
      url := NodeUrl(route.url, protocol, domain),
      action := "navigate",
      source := "static",
      usage := if route.id in usage && usage[route.id] != 0 then usage[route.id] else 0,
      depth := NodeDepth(route.tag),
      pathLabel := NodePathLabel(route.tag))
  }

  /** `loadRoutesForDomain`: the stored table, or the bundled one when
      storage holds none, narrowed to the routes whose domain is exactly
      `domain`, each turned into a node. */
  function LoadRoutesForDomain(stored: seq<StoredRoute>, bundled: seq<StoredRoute>, domain: string,
                               usage: map<string, int>, protocol: string): seq<Ranking.Node> {
    var routes := if |stored| == 0 then bundled else stored;
    Map(Keep(routes, (r: StoredRoute) => r.domain == domain), (r: StoredRoute) => ToNode(r, domain, usage, protocol))
  }

  /** A tag list gives one less than its length as depth, so an empty list
      gives -1; a tag string gives one less than its number of pieces, and
      never less than 0. */
  lemma DepthOfTags(tag: TagField)
    ensures tag.TagList? ==> NodeDepth(tag) == |tag.items| - 1
    ensures tag.TagText? ==> NodeDepth(tag) >= 0
    ensures tag.TagText? && tag.text != "" ==> NodeDepth(tag) == |Split(tag.text, "|")| - 1
    ensures NodeDepth(TagList([])) == -1 && NodeDepth(TagText("")) == 0
  {
  }

  /** The same non-blank, pipe-free tags stored as a list or as a
      `|`-joined string give the same node tags, tag text, path label and
      depth. */
  lemma TagShapesAgree(tags: seq<string>)
    requires |tags| > 0
    requires forall k :: 0 <= k < |tags| ==> PlainTag(tags[k])
    ensures NodeTags(TagText(Join(tags, "|"))) == NodeTags(TagList(tags)) == tags
    ensures NodeDepth(TagText(Join(tags, "|"))) == NodeDepth(TagList(tags)) == |tags| - 1
    ensures NodeTagText(TagText(Join(tags, "|"))) == NodeTagText(TagList(tags))
    ensures NodePathLabel(TagText(Join(tags, "|"))) == NodePathLabel(TagList(tags))
  {
    PlainTagsNonEmpty(tags);
    JoinEnds(tags, "|");
    SplitJoin(tags, '|');
    NotBlankAll(tags);
  }

  /** The node keeps the route's identity and text, is static and
      navigable, and has a status. */
  lemma ToNodeFields(route: StoredRoute, domain: string, usage: map<string, int>, protocol: string)
    ensures var n := ToNode(route, domain, usage, protocol);
      && n.id == route.id && n.title == route.title && n.moduleName == route.moduleName
      && n.source == "static" && n.action == "navigate"
      && n.status != "" && (route.status != "" ==> n.status == route.status)
      && (route.id !in usage ==> n.usage == 0)
      && (route.id in usage ==> n.usage == usage[route.id])
  {
  }

  /** The loaded nodes are exactly the nodes of the routes whose domain is
      `domain`, one per route, taken from storage unless storage is empty. */
  lemma LoadKeepsDomain(stored: seq<StoredRoute>, bundled: seq<StoredRoute>, domain: string,
                        usage: map<string, int>, protocol: string)
    ensures var routes := if |stored| == 0 then bundled else stored;
      var nodes := LoadRoutesForDomain(stored, bundled, domain, usage, protocol);
      && |nodes| <= |routes|
      && (forall r :: r in routes && r.domain == domain ==> ToNode(r, domain, usage, protocol) in nodes)
      && (forall n :: n in nodes ==> exists r :: r in routes && r.domain == domain && n == ToNode(r, domain, usage, protocol))
  {
    var routes := if |stored| == 0 then bundled else stored;
    MapKeepMembers(routes, (r: StoredRoute) => r.domain == domain, (r: StoredRoute) => ToNode(r, domain, usage, protocol));
  }
}
