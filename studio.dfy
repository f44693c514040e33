/** scripts/manage.js, the "Navigator Studio" page: a search box over the
    stored routes, deletion by domain or by id, a form that adds or
    updates one route, and a quick CSV import that upserts line by line. */
module Studio {
  import opened Text
  import opened Sorting
  import opened ManageCsv
  import Manage

  // ------------------------------------------------------------- search

  /** The `render` filter: the lower-cased term occurs in the lower-cased
      title, domain or module. */
  predicate SearchMatches(r: ManagedRoute, searchTerm: string) {
    var term := LowerStr(searchTerm);
    || Contains(LowerStr(r.title), term)
    || Contains(LowerStr(r.domain), term)
    || Contains(LowerStr(r.moduleName), term)
  }

  function Searcher(searchTerm: string): ManagedRoute -> bool {
    (r: ManagedRoute) => SearchMatches(r, searchTerm)
  }

  /** The routes `render` lists. */
  function Visible(routes: seq<ManagedRoute>, searchTerm: string): seq<ManagedRoute> {
    Keep(routes, Searcher(searchTerm))
  }

  /** The list shows exactly the routes whose title, domain or module
      contains the term, ignoring case, in stored order. */
  lemma VisibleMembers(routes: seq<ManagedRoute>, searchTerm: string)
    ensures forall r :: r in Visible(routes, searchTerm) <==>
      r in routes && (|| Contains(LowerStr(r.title), LowerStr(searchTerm))
                      || Contains(LowerStr(r.domain), LowerStr(searchTerm))
                      || Contains(LowerStr(r.moduleName), LowerStr(searchTerm)))
  {
    KeepMembers(routes, Searcher(searchTerm));
  }

  /** Typing the term in another case lists the same routes. */
  lemma SearchIgnoresCase(routes: seq<ManagedRoute>, searchTerm: string)
    ensures Visible(routes, LowerStr(searchTerm)) == Visible(routes, searchTerm)
  {
    LowerIdempotent(searchTerm);
    KeepAgree(routes, Searcher(LowerStr(searchTerm)), Searcher(searchTerm));
  }

  lemma {:induction false} KeepAgree(s: seq<ManagedRoute>, p: ManagedRoute -> bool, q: ManagedRoute -> bool)
    requires forall k :: 0 <= k < |s| ==> p(s[k]) == q(s[k])
    ensures Keep(s, p) == Keep(s, q)
    decreases |s|
  {
    if |s| > 0 {
      KeepAgree(s[..|s| - 1], p, q);
    }
  }

  // ----------------------------------------------------------- deletion

  function NotDomain(domain: string): ManagedRoute -> bool {
    (r: ManagedRoute) => r.domain != domain
  }

  /** `deleteDomain`'s filter. */
  function WithoutDomain(routes: seq<ManagedRoute>, domain: string): seq<ManagedRoute> {
    Keep(routes, NotDomain(domain))
  }

  /** Deleting a domain removes exactly its routes; the others stay, and a
      domain with no route changes nothing. */
  lemma WithoutDomainSpec(routes: seq<ManagedRoute>, domain: string)
    ensures forall r :: r in WithoutDomain(routes, domain) <==> r in routes && r.domain != domain
    ensures domain !in Manage.Domains(routes) ==> WithoutDomain(routes, domain) == routes
    ensures |WithoutDomain(routes, domain)| + |Drop(routes, NotDomain(domain))| == |routes|
  {
    KeepMembers(routes, NotDomain(domain));
    KeepDropLength(routes, NotDomain(domain));
    if domain !in Manage.Domains(routes) {
      forall k | 0 <= k < |routes| ensures NotDomain(domain)(routes[k]) {
        assert routes[k] in routes;
      }
      KeepEvery(routes, NotDomain(domain));
    }
  }

  // --------------------------------------------------------- the form

  /** The form fields as typed. */
  datatype RouteForm = RouteForm(id: string, domain: string, title: string, moduleName: string,
                                 url: string, status: string, tags: string, description: string)

  /** Comma-separated tags as stored: trimmed, empty ones dropped, joined
      with "|". */
  function Tags(tagsInput: string): string {
    if tagsInput == "" then "" else Join(Pieces(tagsInput, ','), "|")
  }

  /** The route the form submits; `now` stands for `Date.now()`. */
  function NewRoute(form: RouteForm, now: nat): ManagedRoute {
    var moduleName := Trim(form.moduleName);
    ManagedRoute(
      Trim(form.domain),
      if form.id != "" then form.id else "route:" + NatToString(now),
      if moduleName == "" then "General" else moduleName,
      Trim(form.title), Trim(form.url), Tags(Trim(form.tags)), Trim(form.description), form.status)
  }

  /** The stored module is never empty, an empty one becoming "General";
      a form without an id gets a fresh "route:" id. */
  lemma NewRouteSpec(form: RouteForm, now: nat)
    ensures var r := NewRoute(form, now);
      && r.moduleName != ""
      && r.moduleName == (if Trim(form.moduleName) == "" then "General" else Trim(form.moduleName))
      && (form.id != "" ==> r.id == form.id)
      && (form.id == "" ==> StartsWith(r.id, "route:"))
  {
    var r := NewRoute(form, now);
    if form.id == "" {
      var n := NatToString(now);
      assert r.id == "route:" + n;
      assert ("route:" + n)[..6] == "route:";
    }
  }

  /** A stored tag list reads back, split on "|", as the typed tags. */
  lemma TagsReadBack(tagsInput: string)
    requires '|' !in tagsInput
    ensures Pieces(Tags(tagsInput), '|') == Pieces(tagsInput, ',')
  {
    var ps := Pieces(tagsInput, ',');
    PiecesShape(tagsInput, ',');
    PiecesAvoid(tagsInput, ',', '|');
    PiecesOfJoin(ps, '|');
    if tagsInput == "" {
      assert Split("", ",") == [""];
      assert TrimAll([""]) == [""];
      PiecesOfEmpty('|');
    }
  }

  // ---------------------------------------------------------- upserting

  /** Replace the route with the same id, or append it. */
  function Upsert(routes: seq<ManagedRoute>, route: ManagedRoute): seq<ManagedRoute> {
    var i := Manage.FindIndex(routes, route.id);
    if i >= 0 then routes[i := route] else routes + [route]
  }

  /** Upserting adds the route's id and nothing else, stores the route,
      grows the list only for a new id, and keeps ids distinct. */
  lemma UpsertSpec(routes: seq<ManagedRoute>, route: ManagedRoute)
    ensures var r := Upsert(routes, route);
      && route in r
      && Manage.Ids(r) == Manage.Ids(routes) + {route.id}
      && |r| == |routes| + (if route.id in Manage.Ids(routes) then 0 else 1)
      && (Manage.DistinctIds(routes) ==> Manage.DistinctIds(r))
  {
    var i := Manage.FindIndex(routes, route.id);
    var r := Upsert(routes, route);
    if i >= 0 {
      assert r[i] == route;
      forall k | k in Manage.Ids(r) ensures k in Manage.Ids(routes) {
        var x :| x in r && x.id == k;
        var j :| 0 <= j < |r| && r[j] == x;
        if j != i {
          assert routes[j] == x;
        } else {
          assert routes[i].id == k;
        }
      }
      forall k | k in Manage.Ids(routes) ensures k in Manage.Ids(r) {
        var x :| x in routes && x.id == k;
        var j :| 0 <= j < |routes| && routes[j] == x;
        if j != i {
          assert r[j] == x;
        } else {
          assert r[i].id == k;
        }
      }
    } else {
      Manage.AddSpec(routes, route);
    }
  }

  // --------------------------------------------------------- CSV import

  /** A line the import skips: nothing but white space. */
  predicate BlankLine(line: string) {
    Trim(line) == ""
  }

  function ContentLine(line: string): bool {
    !BlankLine(line)
  }

  /** `parts[k]`, with a missing piece read as "". */
  function Piece(parts: seq<string>, k: nat): string {
    if k < |parts| then parts[k] else ""
  }

  /** The destructuring of `line.split(',')`: untrimmed, in column order. */
  function LineRoute(line: string): ManagedRoute {
    var parts := Split(line, ",");
    ManagedRoute(Piece(parts, 0), Piece(parts, 1), Piece(parts, 2), Piece(parts, 3),
                 Piece(parts, 4), Piece(parts, 5), Piece(parts, 6), Piece(parts, 7))
  }

  /** The route list after the import loop has read `lines`. */
  function ImportLines(routes: seq<ManagedRoute>, lines: seq<string>): seq<ManagedRoute>
    decreases |lines|
  {
    if |lines| == 0 then routes
    else
      var before := ImportLines(routes, lines[..|lines| - 1]);
      var line := lines[|lines| - 1];
      if BlankLine(line) then before else Upsert(before, LineRoute(line))
  }

  /** The ids of the routes the non-blank lines carry. */
  function LineIds(lines: seq<string>): set<string> {
    Image(lines, LineId, ContentLine)
  }

  function LineId(line: string): string {
    LineRoute(line).id
  }

  /** One more line adds its route's id unless it is blank. */
  lemma LineIdsSnoc(lines: seq<string>)
    requires |lines| > 0
    ensures var line := lines[|lines| - 1];
      LineIds(lines) == LineIds(lines[..|lines| - 1]) + (if BlankLine(line) then {} else {LineRoute(line).id})
  {
    ImageSnoc(lines, LineId, ContentLine);
  }

  /** After the import the stored ids are the old ones plus those of the
      imported lines. */
  lemma {:induction false} ImportLinesIds(routes: seq<ManagedRoute>, lines: seq<string>)
    ensures Manage.Ids(ImportLines(routes, lines)) == Manage.Ids(routes) + LineIds(lines)
    decreases |lines|
  {
    if |lines| > 0 {
      ImportLinesIds(routes, lines[..|lines| - 1]);
      ImportIdsStep(routes, lines);
    }
  }

  lemma ImportIdsStep(routes: seq<ManagedRoute>, lines: seq<string>)
    requires |lines| > 0
    requires Manage.Ids(ImportLines(routes, lines[..|lines| - 1])) == Manage.Ids(routes) + LineIds(lines[..|lines| - 1])
    ensures Manage.Ids(ImportLines(routes, lines)) == Manage.Ids(routes) + LineIds(lines)
  {
    var init := lines[..|lines| - 1];
    var line := lines[|lines| - 1];
    var before := ImportLines(routes, init);
    LineIdsSnoc(lines);
    if BlankLine(line) {
      assert ImportLines(routes, lines) == before;
    } else {
      var r := LineRoute(line);
      assert ImportLines(routes, lines) == Upsert(before, r);
      UpsertSpec(before, r);
      assert Manage.Ids(Upsert(before, r)) == Manage.Ids(before) + {r.id};
    }
  }

  /** The import never stores two routes with one id when the old ids
      were distinct. */
  lemma {:induction false} ImportLinesDistinct(routes: seq<ManagedRoute>, lines: seq<string>)
    requires Manage.DistinctIds(routes)
    ensures Manage.DistinctIds(ImportLines(routes, lines))
    decreases |lines|
  {
    if |lines| > 0 {
      var init := lines[..|lines| - 1];
      var line := lines[|lines| - 1];
      ImportLinesDistinct(routes, init);
      if !BlankLine(line) {
        UpsertSpec(ImportLines(routes, init), LineRoute(line));
      }
    }
  }

  /** The list grows by at most the reported count. */
  lemma {:induction false} ImportLinesLength(routes: seq<ManagedRoute>, lines: seq<string>)
    ensures |routes| <= |ImportLines(routes, lines)| <= |routes| + |Keep(lines, ContentLine)|
    decreases |lines|
  {
    if |lines| > 0 {
      var init := lines[..|lines| - 1];
      var line := lines[|lines| - 1];
      ImportLinesLength(routes, init);
      if !BlankLine(line) {
        UpsertSpec(ImportLines(routes, init), LineRoute(line));
      }
    }
  }

  // ---------------------------------------------------------- the page

  /** The page's module-level state: the stored routes and the search
      term. Storage writes and the dialogs' answers are left to the caller. */
  class Navigator {
    var allRoutes: seq<ManagedRoute>
    var searchTerm: string

    constructor (stored: seq<ManagedRoute>)
      ensures allRoutes == stored && searchTerm == ""
    {
      allRoutes := stored;
      searchTerm := "";
    }

    /** What the list shows. */
    function Shown(): seq<ManagedRoute>
      reads this
    {
      Visible(allRoutes, searchTerm)
    }

    method Search(term: string)
      modifies this`searchTerm
      ensures searchTerm == term
    {
      searchTerm := term;
    }

    /** `deleteDomain` after the confirmation dialog. */
    method DeleteDomain(domain: string, confirmed: bool)
      modifies this`allRoutes
      ensures allRoutes == if confirmed then WithoutDomain(old(allRoutes), domain) else old(allRoutes)
    {
      if !confirmed {
        return;
      }
      allRoutes := WithoutDomain(allRoutes, domain);
    }

    /** `deleteRoute` after the confirmation dialog. */
    method DeleteRoute(id: string, confirmed: bool)
      modifies this`allRoutes
      ensures allRoutes == if confirmed then Manage.WithoutId(old(allRoutes), id) else old(allRoutes)
    {
      if !confirmed {
        return;
      }
      allRoutes := Manage.WithoutId(allRoutes, id);
    }

    /** The form's submit: with an id, the route at that id's index is
        replaced (nothing happens when it is gone); without one, exactly
        one route is appended. */
    method Submit(form: RouteForm, now: nat)
      modifies this`allRoutes
      ensures form.id != "" ==> allRoutes == Manage.Replace(old(allRoutes), Some(form.id), NewRoute(form, now))
      ensures form.id == "" ==> allRoutes == old(allRoutes) + [NewRoute(form, now)]
    {
      var route := NewRoute(form, now);
      if form.id != "" {
        var index := Manage.FindIndex(allRoutes, form.id);
        if index != -1 {
          allRoutes := allRoutes[index := route];
        }
      } else {
        allRoutes := allRoutes + [route];
      }
    }

    /** The import loop over the lines after the header. */
    method ImportLinesLoop(lines: seq<string>) returns (count: nat)
      modifies this`allRoutes
      ensures allRoutes == ImportLines(old(allRoutes), lines)
      ensures count == |Keep(lines, ContentLine)|
    {
      count := 0;
      for i := 0 to |lines|
        invariant allRoutes == ImportLines(old(allRoutes), lines[..i])
        invariant count == |Keep(lines[..i], ContentLine)|
      {
        assert lines[..i + 1][..i] == lines[..i];
        if BlankLine(lines[i]) {
          continue;
        }
        var route := LineRoute(lines[i]);
        var existingIndex := Manage.FindIndex(allRoutes, route.id);
        if existingIndex >= 0 {
          allRoutes := allRoutes[existingIndex := route];
        } else {
          allRoutes := allRoutes + [route];
        }
        count := count + 1;
      }
      assert lines[..|lines|] == lines;
    }

    /** The CSV import: every line after the first is read, the count of
        non-blank ones is reported. */
    method ImportCsv(text: string) returns (count: nat)
      modifies this`allRoutes
      ensures allRoutes == ImportLines(old(allRoutes), Split(text, "\n")[1..])
      ensures count == |Keep(Split(text, "\n")[1..], ContentLine)|
    {
      count := ImportLinesLoop(Split(text, "\n")[1..]);
    }
  }
}
