/** manage.js, route side: the administration page keeps every route in
    `allRoutes`, shows the ones that pass the search and the two filters,
    adds, edits and deletes routes, and imports a CSV file in one of four
    modes after showing a preview of what will change. */
module Manage {
  import opened Text
  import opened Sorting
  import Keyed
  import opened ManageCsv

  // --------------------------------------------------------- route sets

  /** The ids of a list of routes. */
  function Ids(routes: seq<ManagedRoute>): set<string> {
    set r | r in routes :: r.id
  }

  /** The domains of a list of routes. */
  function Domains(routes: seq<ManagedRoute>): set<string> {
    set r | r in routes :: r.domain
  }

  /** No two routes share an id. */
  predicate DistinctIds(routes: seq<ManagedRoute>) {
    forall i, j :: 0 <= i < j < |routes| ==> routes[i].id != routes[j].id
  }

  /** No later route has the id of `routes[i]`. */
  predicate LastOfId(routes: seq<ManagedRoute>, i: int)
    requires 0 <= i < |routes|
  {
    forall j :: i < j < |routes| ==> routes[j].id != routes[i].id
  }

  lemma IdsAppend(a: seq<ManagedRoute>, b: seq<ManagedRoute>)
    ensures Ids(a + b) == Ids(a) + Ids(b)
  {
    forall k | k in Ids(a + b) ensures k in Ids(a) + Ids(b) {
      var r :| r in a + b && r.id == k;
      assert r in a || r in b;
    }
  }

  /** The ids of the routes a filter keeps. */
  lemma KeepIds(s: seq<ManagedRoute>, p: ManagedRoute -> bool)
    ensures forall k :: k in Ids(Keep(s, p)) <==> exists r :: r in s && p(r) && r.id == k
  {
    KeepMembers(s, p);
  }

  // -------------------------------------------------------- import modes

  /** The value of the import-mode radio buttons. */
  datatype ImportMode = ReplaceAll | Merge | AddOnly | ReplaceDomain

  /** The three lists of the import preview: new routes, routes that
      overwrite an existing one, and routes that will be removed. */
  datatype Changes = Changes(added: seq<ManagedRoute>, updated: seq<ManagedRoute>, deleted: seq<ManagedRoute>)

  /** A route whose id is among `ids` (`existingById.has(route.id)`). */
  function Known(ids: set<string>): ManagedRoute -> bool {
    (r: ManagedRoute) => r.id in ids
  }

  function Unknown(ids: set<string>): ManagedRoute -> bool {
    (r: ManagedRoute) => r.id !in ids
  }

  /** An existing route that REPLACE_DOMAIN removes: its domain is in the
      file and its id is not. */
  function Replaced(domains: set<string>, ids: set<string>): ManagedRoute -> bool {
    (r: ManagedRoute) => r.domain in domains && r.id !in ids
  }

  /** An existing route of a domain the file does not mention. */
  function OtherDomain(domains: set<string>): ManagedRoute -> bool {
    (r: ManagedRoute) => r.domain !in domains
  }

  /** `calculateImportChanges`: what the preview lists for each mode. */
  function ImportChanges(mode: ImportMode, existing: seq<ManagedRoute>, incoming: seq<ManagedRoute>): Changes {
    var known := Ids(existing);
    match mode
    case ReplaceAll => Changes(incoming, [], existing)
    case Merge => Changes(Keep(incoming, Unknown(known)), Keep(incoming, Known(known)), [])
    case AddOnly => Changes(Keep(incoming, Unknown(known)), [], [])
    case ReplaceDomain =>
      Changes(Keep(incoming, Unknown(known)), Keep(incoming, Known(known)),
              Keep(existing, Replaced(Domains(incoming), Ids(incoming))))
  }

  function RouteId(r: ManagedRoute): string {
    r.id
  }

  function Same(r: ManagedRoute): ManagedRoute {
    r
  }

  /** MERGE: a `Map` from id to route filled with the existing routes and
      then the file's, read back in insertion order. */
  function MergeById(existing: seq<ManagedRoute>, incoming: seq<ManagedRoute>): seq<ManagedRoute> {
    Keyed.FoldWellFormed(existing + incoming, Same, RouteId);
    Keyed.Values(Keyed.FoldBy(existing + incoming, Same, RouteId))
  }

  /** `confirmImport`: the new route list for each mode. */
  function FinalRoutes(mode: ImportMode, existing: seq<ManagedRoute>, incoming: seq<ManagedRoute>): seq<ManagedRoute> {
    match mode
    case ReplaceAll => incoming
    case Merge => MergeById(existing, incoming)
    case AddOnly => existing + Keep(incoming, Unknown(Ids(existing)))
    case ReplaceDomain => Keep(existing, OtherDomain(Domains(incoming))) + incoming
  }

  /** The body of `confirmImport` that builds the new route list. */
  method ImportedRoutes(mode: ImportMode, existing: seq<ManagedRoute>, incoming: seq<ManagedRoute>)
    returns (finalRoutes: seq<ManagedRoute>)
    ensures finalRoutes == FinalRoutes(mode, existing, incoming)
  {
    match mode {
      case ReplaceAll =>
        finalRoutes := incoming;
      case Merge =>
        var table := FillById(existing + incoming);
        Keyed.FoldWellFormed(existing + incoming, Same, RouteId);
        finalRoutes := Keyed.Values(table);
      case AddOnly =>
        var onlyNew := Select(incoming, Unknown(Ids(existing)));
        finalRoutes := existing + onlyNew;
      case ReplaceDomain =>
        finalRoutes := Select(existing, OtherDomain(Domains(incoming)));
        finalRoutes := finalRoutes + incoming;
    }
  }

  /** A `forEach` that pushes the items satisfying `p`. */
  method Select(items: seq<ManagedRoute>, p: ManagedRoute -> bool) returns (kept: seq<ManagedRoute>)
    ensures kept == Keep(items, p)
  {
    kept := [];
    for i := 0 to |items|
      invariant kept == Keep(items[..i], p)
    {
      assert items[..i + 1][..i] == items[..i];
      if p(items[i]) {
        kept := kept + [items[i]];
      }
    }
    assert items[..|items|] == items;
  }

  /** The `forEach` of MERGE and REPLACE_DOMAIN: each file route goes to
      `updated` when its id exists, otherwise to `new`. */
  method Classify(incoming: seq<ManagedRoute>, known: set<string>)
    returns (added: seq<ManagedRoute>, updated: seq<ManagedRoute>)
    ensures added == Keep(incoming, Unknown(known))
    ensures updated == Keep(incoming, Known(known))
  {
    added, updated := [], [];
    for i := 0 to |incoming|
      invariant added == Keep(incoming[..i], Unknown(known))
      invariant updated == Keep(incoming[..i], Known(known))
    {
      assert incoming[..i + 1][..i] == incoming[..i];
      if incoming[i].id in known {
        updated := updated + [incoming[i]];
      } else {
        added := added + [incoming[i]];
      }
    }
    assert incoming[..|incoming|] == incoming;
  }

  /** `calculateImportChanges`. */
  method CalculateImportChanges(mode: ImportMode, existing: seq<ManagedRoute>, incoming: seq<ManagedRoute>)
    returns (changes: Changes)
    ensures changes == ImportChanges(mode, existing, incoming)
  {
    var existingIds := Ids(existing);
    var newIds := Ids(incoming);
    match mode
    case ReplaceAll =>
      changes := Changes(incoming, [], existing);
    case Merge =>
      var added, updated := Classify(incoming, existingIds);
      changes := Changes(added, updated, []);
    case AddOnly =>
      var added := Select(incoming, Unknown(existingIds));
      changes := Changes(added, [], []);
    case ReplaceDomain =>
      var added, updated := Classify(incoming, existingIds);
      var deleted := Select(existing, Replaced(Domains(incoming), newIds));
      changes := Changes(added, updated, deleted);
  }

  /** The `Map` of MERGE after every `set`. */
  method FillById(items: seq<ManagedRoute>) returns (table: Keyed.Table<ManagedRoute>)
    ensures table == Keyed.FoldBy(items, Same, RouteId)
  {
    table := Keyed.Table([], map[]);
    for i := 0 to |items|
      invariant table == Keyed.FoldBy(items[..i], Same, RouteId)
    {
      assert items[..i + 1][..i] == items[..i];
      table := Keyed.Put(table, items[i].id, items[i]);
    }
    assert items[..|items|] == items;
  }

  // ------------------------------------------------- preview properties

  lemma {:induction false} ClassifyLength(s: seq<ManagedRoute>, known: set<string>)
    ensures |Keep(s, Unknown(known))| + |Keep(s, Known(known))| == |s|
    decreases |s|
  {
    if |s| > 0 {
      ClassifyLength(s[..|s| - 1], known);
    }
  }

  /** In MERGE and REPLACE_DOMAIN every file route is listed once, as
      updated exactly when its id already exists and as new otherwise;
      ADD_ONLY lists the same new routes and updates nothing. */
  lemma PreviewClassifies(mode: ImportMode, existing: seq<ManagedRoute>, incoming: seq<ManagedRoute>)
    requires mode == Merge || mode == ReplaceDomain
    ensures var c := ImportChanges(mode, existing, incoming);
      && (forall r :: r in c.updated <==> r in incoming && r.id in Ids(existing))
      && (forall r :: r in c.added <==> r in incoming && r.id !in Ids(existing))
      && |c.added| + |c.updated| == |incoming|
      && ImportChanges(AddOnly, existing, incoming) == Changes(c.added, [], [])
  {
    KeepMembers(incoming, Known(Ids(existing)));
    KeepMembers(incoming, Unknown(Ids(existing)));
    ClassifyLength(incoming, Ids(existing));
  }

  /** MERGE and ADD_ONLY never delete; REPLACE_ALL deletes every existing
      route; REPLACE_DOMAIN deletes exactly the existing routes of the
      file's domains whose id the file does not carry. */
  lemma PreviewDeletions(existing: seq<ManagedRoute>, incoming: seq<ManagedRoute>)
    ensures ImportChanges(Merge, existing, incoming).deleted == []
    ensures ImportChanges(AddOnly, existing, incoming).deleted == []
    ensures ImportChanges(ReplaceAll, existing, incoming) == Changes(incoming, [], existing)
    ensures forall r :: r in ImportChanges(ReplaceDomain, existing, incoming).deleted <==>
      r in existing && r.domain in Domains(incoming) && r.id !in Ids(incoming)
  {
    KeepMembers(existing, Replaced(Domains(incoming), Ids(incoming)));
  }

  // ---------------------------------------------------- import results

  /** ADD_ONLY keeps the existing routes unchanged and in order, and
      appends exactly the file routes whose id is new. */
  lemma AddOnlyImport(existing: seq<ManagedRoute>, incoming: seq<ManagedRoute>)
    ensures var final := FinalRoutes(AddOnly, existing, incoming);
      && final[..|existing|] == existing
      && forall r :: r in final[|existing|..] <==> r in incoming && r.id !in Ids(existing)
  {
    var final := FinalRoutes(AddOnly, existing, incoming);
    var added := Keep(incoming, Unknown(Ids(existing)));
    assert final[|existing|..] == added;
    KeepMembers(incoming, Unknown(Ids(existing)));
  }

  /** REPLACE_DOMAIN keeps exactly the existing routes whose domain the
      file does not mention, in order, followed by every file route. */
  lemma ReplaceDomainImport(existing: seq<ManagedRoute>, incoming: seq<ManagedRoute>)
    ensures var final := FinalRoutes(ReplaceDomain, existing, incoming);
      && |final| >= |incoming|
      && final[|final| - |incoming|..] == incoming
      && forall r :: r in final[..|final| - |incoming|] <==> r in existing && r.domain !in Domains(incoming)
  {
    var kept := Keep(existing, OtherDomain(Domains(incoming)));
    var final := kept + incoming;
    assert final[|kept|..] == incoming && final[..|kept|] == kept;
    KeepMembers(existing, OtherDomain(Domains(incoming)));
  }

  /** A file route with no later file route of the same id is in the
      result of MERGE. */
  lemma MergeKeepsFileRoutes(existing: seq<ManagedRoute>, incoming: seq<ManagedRoute>)
    ensures forall i :: 0 <= i < |incoming| && LastOfId(incoming, i) ==> incoming[i] in MergeById(existing, incoming)
  {
    var items := existing + incoming;
    Keyed.FoldValues(items, Same, RouteId);
    forall i | 0 <= i < |incoming| && LastOfId(incoming, i)
      ensures incoming[i] in MergeById(existing, incoming)
    {
      var at := |existing| + i;
      assert items[at] == incoming[i];
      forall j | at < j < |items| ensures RouteId(Same(items[j])) != RouteId(Same(items[at])) {
        assert items[j] == incoming[j - |existing|];
      }
      assert Keyed.LastOf(items, Same, RouteId, at);
    }
  }

  /** An existing route whose id the file does not carry (the last one of
      its id) is in the result of MERGE, unchanged. */
  lemma MergeKeepsOthers(existing: seq<ManagedRoute>, incoming: seq<ManagedRoute>)
    ensures forall i :: 0 <= i < |existing| && LastOfId(existing, i) && existing[i].id !in Ids(incoming) ==>
      existing[i] in MergeById(existing, incoming)
  {
    var items := existing + incoming;
    Keyed.FoldValues(items, Same, RouteId);
    forall i | 0 <= i < |existing| && LastOfId(existing, i) && existing[i].id !in Ids(incoming)
      ensures existing[i] in MergeById(existing, incoming)
    {
      assert items[i] == existing[i];
      forall j | i < j < |items| ensures RouteId(Same(items[j])) != RouteId(Same(items[i])) {
        if j >= |existing| {
          assert items[j] == incoming[j - |existing|];
          assert items[j] in incoming;
        } else {
          assert items[j] == existing[j];
        }
      }
      assert Keyed.LastOf(items, Same, RouteId, i);
    }
  }

  /** Every route MERGE produces is the last file route of its id, or an
      existing route (the last of its id) whose id the file does not
      carry. */
  lemma MergeSound(existing: seq<ManagedRoute>, incoming: seq<ManagedRoute>)
    ensures forall x :: x in MergeById(existing, incoming) ==>
      (exists i :: 0 <= i < |incoming| && LastOfId(incoming, i) && x == incoming[i])
      || (exists i :: 0 <= i < |existing| && LastOfId(existing, i) && x.id !in Ids(incoming) && x == existing[i])
  {
    var items := existing + incoming;
    Keyed.FoldValues(items, Same, RouteId);
    forall x | x in MergeById(existing, incoming)
      ensures (exists i :: 0 <= i < |incoming| && LastOfId(incoming, i) && x == incoming[i])
        || (exists i :: 0 <= i < |existing| && LastOfId(existing, i) && x.id !in Ids(incoming) && x == existing[i])
    {
      var at :| 0 <= at < |items| && Keyed.LastOf(items, Same, RouteId, at) && x == Same(items[at]);
      if at >= |existing| {
        var i := at - |existing|;
        assert items[at] == incoming[i];
        forall j | i < j < |incoming| ensures incoming[j].id != incoming[i].id {
          assert items[|existing| + j] == incoming[j];
        }
        assert LastOfId(incoming, i);
      } else {
        assert items[at] == existing[at];
        forall j | at < j < |existing| ensures existing[j].id != existing[at].id {
          assert items[j] == existing[j];
        }
        assert LastOfId(existing, at);
        forall r | r in incoming ensures r.id != x.id {
          var j :| 0 <= j < |incoming| && incoming[j] == r;
          assert items[|existing| + j] == r;
        }
      }
    }
  }

  /** MERGE never produces two routes with the same id. */
  lemma MergeDistinct(existing: seq<ManagedRoute>, incoming: seq<ManagedRoute>)
    ensures DistinctIds(MergeById(existing, incoming))
  {
    var items := existing + incoming;
    Keyed.FoldWellFormed(items, Same, RouteId);
    Keyed.ValuesKeysDistinct(Keyed.FoldBy(items, Same, RouteId), RouteId);
  }

  /** MERGE produces exactly the ids of the existing routes and of the
      file. */
  lemma MergeIds(existing: seq<ManagedRoute>, incoming: seq<ManagedRoute>)
    ensures Ids(MergeById(existing, incoming)) == Ids(existing) + Ids(incoming)
  {
    var items := existing + incoming;
    var t := Keyed.FoldBy(items, Same, RouteId);
    Keyed.FoldWellFormed(items, Same, RouteId);
    Keyed.FoldKeys(items, Same, RouteId);
    var vs := Keyed.Values(t);
    IdsAppend(existing, incoming);
    forall k | k in Ids(items) ensures k in Ids(vs) {
      var r :| r in items && r.id == k;
      var i :| 0 <= i < |items| && items[i] == r;
      assert RouteId(Same(items[i])) == k;
      assert k in t.entries && k in t.order;
      var p :| 0 <= p < |t.order| && t.order[p] == k;
      assert vs[p].id == k;
    }
    forall k | k in Ids(vs) ensures k in Ids(items) {
      var r :| r in vs && r.id == k;
      var p :| 0 <= p < |vs| && vs[p] == r;
      assert t.order[p] in t.entries;
      var i :| 0 <= i < |items| && RouteId(Same(items[i])) == t.order[p];
      assert items[i].id == k;
    }
  }

  /** The preview agrees with the import: the ids after the import are the
      existing ids less the deleted ones, plus the new and the updated ones.
      For REPLACE_DOMAIN this needs the existing ids to be distinct. */
  lemma PreviewMatchesImport(mode: ImportMode, existing: seq<ManagedRoute>, incoming: seq<ManagedRoute>)
    requires mode == ReplaceDomain ==> DistinctIds(existing)
    ensures var c := ImportChanges(mode, existing, incoming);
      Ids(FinalRoutes(mode, existing, incoming)) == (Ids(existing) - Ids(c.deleted)) + Ids(c.added) + Ids(c.updated)
  {
    var none: seq<ManagedRoute> := [];
    assert Ids(none) == {};
    match mode
    case ReplaceAll =>
    case Merge =>
      MergePreview(existing, incoming);
    case AddOnly =>
      IdsAppend(existing, Keep(incoming, Unknown(Ids(existing))));
    case ReplaceDomain =>
      FileIds(incoming, Ids(existing));
      ReplaceDomainIds(existing, incoming);
      IdsAppend(Keep(existing, OtherDomain(Domains(incoming))), incoming);
  }

  lemma MergePreview(existing: seq<ManagedRoute>, incoming: seq<ManagedRoute>)
    ensures Ids(MergeById(existing, incoming))
      == Ids(existing) + Ids(Keep(incoming, Unknown(Ids(existing)))) + Ids(Keep(incoming, Known(Ids(existing))))
  {
    MergeIds(existing, incoming);
    FileIds(incoming, Ids(existing));
  }

  /** The new and the updated routes together carry the file's ids. */
  lemma FileIds(incoming: seq<ManagedRoute>, known: set<string>)
    ensures Ids(Keep(incoming, Unknown(known))) + Ids(Keep(incoming, Known(known))) == Ids(incoming)
  {
    KeepIds(incoming, Unknown(known));
    KeepIds(incoming, Known(known));
  }

  lemma ReplaceDomainIds(existing: seq<ManagedRoute>, incoming: seq<ManagedRoute>)
    requires DistinctIds(existing)
    ensures Ids(Keep(existing, OtherDomain(Domains(incoming)))) + Ids(incoming)
      == (Ids(existing) - Ids(Keep(existing, Replaced(Domains(incoming), Ids(incoming))))) + Ids(incoming)
  {
    var d := Domains(incoming);
    var kept := Keep(existing, OtherDomain(d));
    var gone := Keep(existing, Replaced(d, Ids(incoming)));
    KeepIds(existing, OtherDomain(d));
    KeepIds(existing, Replaced(d, Ids(incoming)));
    KeepMembers(existing, Replaced(d, Ids(incoming)));
    forall k | k in Ids(kept) ensures k !in Ids(gone) {
      var a :| a in existing && a.domain !in d && a.id == k;
      forall b | b in gone ensures b.id != k {
        DomainsApart(existing, a, b);
      }
    }
    forall k | k in Ids(existing) && k !in Ids(gone) && k !in Ids(incoming) ensures k in Ids(kept) {
      var a :| a in existing && a.id == k;
      assert a.domain !in d by {
        assert a.id !in Ids(incoming) && a.id !in Ids(gone);
        assert Replaced(d, Ids(incoming))(a) ==> a in gone;
      }
    }
  }

  /** With distinct ids, routes of different domains have different ids. */
  lemma DomainsApart(routes: seq<ManagedRoute>, a: ManagedRoute, b: ManagedRoute)
    requires DistinctIds(routes)
    requires a in routes && b in routes && a.domain != b.domain
    ensures a.id != b.id
  {
    var i :| 0 <= i < |routes| && routes[i] == a;
    var j :| 0 <= j < |routes| && routes[j] == b;
    if i < j {
      assert routes[i].id != routes[j].id;
    } else {
      assert routes[j].id != routes[i].id;
    }
  }

  // ------------------------------------------------------------ filters

  /** The search box: the lower-cased term occurs in the lower-cased
      title, domain or module, or in a non-empty description. */
  predicate MatchesSearch(r: ManagedRoute, term: string) {
    || Contains(LowerStr(r.title), term)
    || Contains(LowerStr(r.domain), term)
    || Contains(LowerStr(r.moduleName), term)
    || (r.description != "" && Contains(LowerStr(r.description), term))
  }

  /** The `applyFilters` predicate; an empty domain or status filter lets
      every route through. */
  predicate MatchesFilters(r: ManagedRoute, term: string, domain: string, status: string) {
    && MatchesSearch(r, term)
    && (domain == "" || r.domain == domain)
    && (status == "" || r.status == status)
  }

  function Matcher(term: string, domain: string, status: string): ManagedRoute -> bool {
    (r: ManagedRoute) => MatchesFilters(r, term, domain, status)
  }

  /** `filteredRoutes` for the current inputs. */
  function Filtered(routes: seq<ManagedRoute>, term: string, domain: string, status: string): seq<ManagedRoute> {
    Keep(routes, Matcher(term, domain, status))
  }

  /** The filter keeps exactly the routes that match, and only those. */
  lemma FilteredMembers(routes: seq<ManagedRoute>, term: string, domain: string, status: string)
    ensures forall r :: r in Filtered(routes, term, domain, status) <==> r in routes && MatchesFilters(r, term, domain, status)
  {
    KeepMembers(routes, Matcher(term, domain, status));
  }

  /** With an empty search box and no filter selected every route is
      listed, in stored order. */
  lemma NoFiltersKeepAll(routes: seq<ManagedRoute>)
    ensures Filtered(routes, LowerStr(""), "", "") == routes
  {
    forall k | 0 <= k < |routes| ensures Matcher(LowerStr(""), "", "")(routes[k]) {
      assert StartsWith(LowerStr(routes[k].title), "");
    }
    KeepEvery(routes, Matcher(LowerStr(""), "", ""));
  }

  // --------------------------------------------------------- pagination

  const RowsPerPage := 50

  /** `Math.ceil(filteredRoutes.length / rowsPerPage)`: the fewest pages
      of `rowsPerPage` rows that hold the list (none for an empty list). */
  function PageCount(n: nat): (pages: nat)
    ensures n <= pages * RowsPerPage && (pages == 0 || (pages - 1) * RowsPerPage < n)
  {
    (n + RowsPerPage - 1) / RowsPerPage
  }

  /** `filteredRoutes.slice(start, end)` for a page number. */
  function PageRoutes(routes: seq<ManagedRoute>, page: int): (shown: seq<ManagedRoute>)
    requires page >= 1
    ensures |shown| <= RowsPerPage
  {
    var start := (page - 1) * RowsPerPage;
    if start >= |routes| then []
    else if start + RowsPerPage >= |routes| then routes[start..]
    else routes[start..start + RowsPerPage]
  }

  /** Every listed route is shown on exactly one page, and that page is
      one the pager can reach. */
  lemma PagesCover(routes: seq<ManagedRoute>, k: int)
    requires 0 <= k < |routes|
    ensures var page := k / RowsPerPage + 1;
      && page <= PageCount(|routes|)
      && routes[k] == PageRoutes(routes, page)[k % RowsPerPage]
  {
    var page := k / RowsPerPage + 1;
    assert (page - 1) * RowsPerPage + k % RowsPerPage == k;
  }

  // ------------------------------------------------------ list updates

  /** `allRoutes.findIndex(r => r.id === id)`. */
  function FindIndex(routes: seq<ManagedRoute>, id: string): (i: int)
    ensures i == -1 <==> id !in Ids(routes)
    ensures i != -1 ==> 0 <= i < |routes| && routes[i].id == id && forall k :: 0 <= k < i ==> routes[k].id != id
    decreases |routes|
  {
    if |routes| == 0 then -1
    else if routes[0].id == id then 0
    else
      var j := FindIndex(routes[1..], id);
      assert Ids(routes) == {routes[0].id} + Ids(routes[1..]) by {
        assert routes == [routes[0]] + routes[1..];
        IdsAppend([routes[0]], routes[1..]);
      }
      if j == -1 then -1 else j + 1
  }

  /** The index edit mode writes to: none when no route is being edited. */
  function EditIndex(routes: seq<ManagedRoute>, editing: Option<string>): int {
    match editing
    case None => -1
    case Some(id) => FindIndex(routes, id)
  }

  /** Edit mode: the route at the edited id's index is replaced; nothing
      happens when the id is gone. */
  function Replace(routes: seq<ManagedRoute>, editing: Option<string>, route: ManagedRoute): seq<ManagedRoute> {
    var i := EditIndex(routes, editing);
    if i == -1 then routes else routes[i := route]
  }

  /** Add mode: rejected (`None`) when the id exists, otherwise appended. */
  function Add(routes: seq<ManagedRoute>, route: ManagedRoute): Option<seq<ManagedRoute>> {
    if route.id in Ids(routes) then None else Some(routes + [route])
  }

  function NotId(id: string): ManagedRoute -> bool {
    (r: ManagedRoute) => r.id != id
  }

  function NotSelected(selected: set<string>): ManagedRoute -> bool {
    (r: ManagedRoute) => r.id !in selected
  }

  /** `deleteRoute`'s filter. */
  function WithoutId(routes: seq<ManagedRoute>, id: string): seq<ManagedRoute> {
    Keep(routes, NotId(id))
  }

  /** `bulkDelete`'s filter. */
  function WithoutIds(routes: seq<ManagedRoute>, selected: set<string>): seq<ManagedRoute> {
    Keep(routes, NotSelected(selected))
  }

  /** The submitted form: every field trimmed except the status. */
  function FormRoute(form: ManagedRoute): (r: ManagedRoute)
    ensures IsTrimmed(r.domain) && IsTrimmed(r.id) && IsTrimmed(r.moduleName) && IsTrimmed(r.title)
    ensures IsTrimmed(r.url) && IsTrimmed(r.tags) && IsTrimmed(r.description)
    ensures r.status == form.status
  {
    ManagedRoute(Trim(form.domain), Trim(form.id), Trim(form.moduleName), Trim(form.title),
                 Trim(form.url), Trim(form.tags), Trim(form.description), form.status)
  }

  /** Editing replaces one route in place: the length and every other
      position stay, and an id that is gone changes nothing. */
  lemma ReplaceInPlace(routes: seq<ManagedRoute>, editing: Option<string>, route: ManagedRoute)
    ensures var r := Replace(routes, editing, route);
      && |r| == |routes|
      && (editing.None? || editing.value !in Ids(routes) ==> r == routes)
      && (editing.Some? && editing.value in Ids(routes) ==>
            var i := FindIndex(routes, editing.value);
            r[i] == route && forall k :: 0 <= k < |r| && k != i ==> r[k] == routes[k])
  {
  }

  /** Adding rejects exactly a taken id, appends exactly one route, and
      keeps the ids distinct. */
  lemma AddSpec(routes: seq<ManagedRoute>, route: ManagedRoute)
    ensures Add(routes, route).None? <==> route.id in Ids(routes)
    ensures Add(routes, route).Some? ==>
      && Add(routes, route).value[..|routes|] == routes
      && |Add(routes, route).value| == |routes| + 1
      && Ids(Add(routes, route).value) == Ids(routes) + {route.id}
      && (DistinctIds(routes) ==> DistinctIds(Add(routes, route).value))
  {
    if route.id !in Ids(routes) {
      var r := routes + [route];
      IdsAppend(routes, [route]);
      assert Ids([route]) == {route.id};
      if DistinctIds(routes) {
        forall i, j | 0 <= i < j < |r| ensures r[i].id != r[j].id {
          if j == |routes| {
            assert r[i] in routes;
          } else {
            assert r[i] == routes[i] && r[j] == routes[j];
          }
        }
      }
    }
  }

  /** Deleting by id removes exactly the routes with that id and keeps the
      others in order. */
  lemma WithoutIdSpec(routes: seq<ManagedRoute>, id: string)
    ensures forall r :: r in WithoutId(routes, id) <==> r in routes && r.id != id
    ensures Ids(WithoutId(routes, id)) == Ids(routes) - {id}
    ensures DistinctIds(routes) ==> DistinctIds(WithoutId(routes, id))
  {
    KeepMembers(routes, NotId(id));
    if DistinctIds(routes) {
      Keyed.KeepKeysDistinct(routes, NotId(id), RouteId);
    }
  }

  /** Bulk deletion removes exactly the selected ids. */
  lemma WithoutIdsSpec(routes: seq<ManagedRoute>, selected: set<string>)
    ensures forall r :: r in WithoutIds(routes, selected) <==> r in routes && r.id !in selected
    ensures Ids(WithoutIds(routes, selected)) == Ids(routes) - selected
    ensures DistinctIds(routes) ==> DistinctIds(WithoutIds(routes, selected))
  {
    KeepMembers(routes, NotSelected(selected));
    if DistinctIds(routes) {
      Keyed.KeepKeysDistinct(routes, NotSelected(selected), RouteId);
    }
  }

  /** `file.name.endsWith(suffix)`. */
  predicate EndsWith(s: string, suffix: string) {
    |suffix| <= |s| && s[|s| - |suffix|..] == suffix
  }

  // ------------------------------------------------------- the page state

  /** The module-level state of the administration page. Storage writes,
      alerts, rendering and the confirmation dialogs are left to the
      caller: a dialog's answer is a parameter. */
  class RouteManager {
    var allRoutes: seq<ManagedRoute>
    var filteredRoutes: seq<ManagedRoute>
    var selectedRoutes: set<string>
    var currentPage: int
    var isEditMode: bool
    var editingRouteId: Option<string>
    var pendingImportRoutes: seq<ManagedRoute>
    var importMode: ImportMode
    var searchInput: string
    var domainFilter: string
    var statusFilter: string

    /** The listed routes are the filtered ones and the page is one the
        pager can show: page 1, or a later page that holds routes. */
    predicate Valid()
      reads this
    {
      && filteredRoutes == Filtered(allRoutes, LowerStr(searchInput), domainFilter, statusFilter)
      && 1 <= currentPage && (currentPage == 1 || currentPage <= PageCount(|filteredRoutes|))
    }

    /** `loadRoutes` with the stored list (empty when nothing is stored). */
    constructor (stored: seq<ManagedRoute>)
      ensures Valid()
      ensures allRoutes == stored && filteredRoutes == stored
      ensures selectedRoutes == {} && currentPage == 1 && !isEditMode && editingRouteId == None
      ensures pendingImportRoutes == [] && importMode == ReplaceAll
    {
      allRoutes := stored;
      selectedRoutes := {};
      currentPage := 1;
      isEditMode := false;
      editingRouteId := None;
      pendingImportRoutes := [];
      importMode := ReplaceAll;
      searchInput, domainFilter, statusFilter := "", "", "";
      NoFiltersKeepAll(stored);
      filteredRoutes := Filtered(stored, LowerStr(""), "", "");
    }

    /** `applyFilters`. */
    method ApplyFilters()
      modifies this`filteredRoutes, this`currentPage
      ensures Valid() && currentPage == 1
    {
      filteredRoutes := Filtered(allRoutes, LowerStr(searchInput), domainFilter, statusFilter);
      currentPage := 1;
    }

    /** Typing in the search box or picking a filter value. */
    method SetFilters(search: string, domain: string, status: string)
      modifies this`searchInput, this`domainFilter, this`statusFilter, this`filteredRoutes, this`currentPage
      ensures Valid() && currentPage == 1
      ensures searchInput == search && domainFilter == domain && statusFilter == status
      ensures allRoutes == old(allRoutes) && selectedRoutes == old(selectedRoutes)
      ensures forall r :: r in filteredRoutes <==> r in allRoutes && MatchesFilters(r, LowerStr(search), domain, status)
    {
      searchInput, domainFilter, statusFilter := search, domain, status;
      ApplyFilters();
      FilteredMembers(allRoutes, LowerStr(search), domain, status);
    }

    method PrevPage()
      modifies this`currentPage
      requires Valid()
      ensures Valid()
      ensures currentPage == if old(currentPage) > 1 then old(currentPage) - 1 else old(currentPage)
    {
      if currentPage > 1 {
        currentPage := currentPage - 1;
      }
    }

    method NextPage()
      modifies this`currentPage
      requires Valid()
      ensures Valid()
      ensures currentPage == if old(currentPage) < PageCount(|filteredRoutes|) then old(currentPage) + 1 else old(currentPage)
    {
      if currentPage < PageCount(|filteredRoutes|) {
        currentPage := currentPage + 1;
      }
    }

    /** A row checkbox. */
    method ToggleSelection(routeId: string, checked: bool)
      modifies this`selectedRoutes
      ensures selectedRoutes == if checked then old(selectedRoutes) + {routeId} else old(selectedRoutes) - {routeId}
    {
      if checked {
        selectedRoutes := selectedRoutes + {routeId};
      } else {
        selectedRoutes := selectedRoutes - {routeId};
      }
    }

    /** The header checkbox: (un)selects every route of the current page. */
    method SelectPage(checked: bool)
      modifies this`selectedRoutes
      requires currentPage >= 1
      ensures var shown := Ids(PageRoutes(filteredRoutes, currentPage));
        selectedRoutes == if checked then old(selectedRoutes) + shown else old(selectedRoutes) - shown
    {
      var page := PageRoutes(filteredRoutes, currentPage);
      ghost var start := selectedRoutes;
      for i := 0 to |page|
        invariant selectedRoutes == if checked then start + Ids(page[..i]) else start - Ids(page[..i])
      {
        assert page[..i + 1] == page[..i] + [page[i]];
        IdsAppend(page[..i], [page[i]]);
        assert Ids([page[i]]) == {page[i].id};
        if checked {
          selectedRoutes := selectedRoutes + {page[i].id};
        } else {
          selectedRoutes := selectedRoutes - {page[i].id};
        }
      }
      assert page[..|page|] == page;
    }

    method DeselectAll()
      modifies this`selectedRoutes
      ensures selectedRoutes == {}
    {
      selectedRoutes := {};
    }

    method OpenAddModal()
      modifies this`isEditMode, this`editingRouteId
      ensures !isEditMode && editingRouteId == None
    {
      isEditMode := false;
      editingRouteId := None;
    }

    /** Opening the editor for an id that is not stored does nothing. */
    method OpenEditModal(routeId: string)
      modifies this`isEditMode, this`editingRouteId
      ensures routeId in Ids(allRoutes) ==> isEditMode && editingRouteId == Some(routeId)
      ensures routeId !in Ids(allRoutes) ==> isEditMode == old(isEditMode) && editingRouteId == old(editingRouteId)
    {
      if FindIndex(allRoutes, routeId) == -1 {
        return;
      }
      isEditMode := true;
      editingRouteId := Some(routeId);
    }

    /** `saveRoute`: edit mode replaces the edited route where it is found;
        add mode rejects a taken id and otherwise appends. */
    method SaveRoute(form: ManagedRoute) returns (saved: bool)
      modifies this`allRoutes, this`filteredRoutes, this`currentPage
      requires Valid()
      ensures Valid()
      ensures old(isEditMode) ==> saved && allRoutes == Replace(old(allRoutes), old(editingRouteId), FormRoute(form))
      ensures !old(isEditMode) ==> (saved <==> Add(old(allRoutes), FormRoute(form)).Some?)
      ensures !old(isEditMode) && saved ==> allRoutes == Add(old(allRoutes), FormRoute(form)).value
      ensures saved ==> currentPage == 1
      ensures !saved ==> allRoutes == old(allRoutes) && filteredRoutes == old(filteredRoutes) && currentPage == old(currentPage)
      ensures selectedRoutes == old(selectedRoutes) && pendingImportRoutes == old(pendingImportRoutes)
    {
      var route := FormRoute(form);
      if isEditMode {
        var index := EditIndex(allRoutes, editingRouteId);
        if index != -1 {
          allRoutes := allRoutes[index := route];
        }
      } else {
        if FindIndex(allRoutes, route.id) != -1 {
          return false;
        }
        allRoutes := allRoutes + [route];
      }
      ApplyFilters();
      saved := true;
    }

    /** `deleteRoute` after the confirmation dialog. */
    method DeleteRoute(routeId: string, confirmed: bool)
      modifies this`allRoutes, this`selectedRoutes, this`filteredRoutes, this`currentPage
      requires Valid()
      ensures Valid()
      ensures confirmed ==> allRoutes == WithoutId(old(allRoutes), routeId) && selectedRoutes == old(selectedRoutes) - {routeId}
      ensures confirmed ==> currentPage == 1
      ensures !confirmed ==> allRoutes == old(allRoutes) && selectedRoutes == old(selectedRoutes)
      ensures !confirmed ==> filteredRoutes == old(filteredRoutes) && currentPage == old(currentPage)
    {
      if !confirmed {
        return;
      }
      allRoutes := WithoutId(allRoutes, routeId);
      selectedRoutes := selectedRoutes - {routeId};
      ApplyFilters();
    }

    /** `bulkDelete`: nothing without a selection or a confirmation. */
    method BulkDelete(confirmed: bool)
      modifies this`allRoutes, this`selectedRoutes, this`filteredRoutes, this`currentPage
      requires Valid()
      ensures Valid()
      ensures old(selectedRoutes) != {} && confirmed ==> allRoutes == WithoutIds(old(allRoutes), old(selectedRoutes)) && selectedRoutes == {}
      ensures old(selectedRoutes) != {} && confirmed ==> currentPage == 1
      ensures old(selectedRoutes) == {} || !confirmed ==> allRoutes == old(allRoutes) && selectedRoutes == old(selectedRoutes)
      ensures old(selectedRoutes) == {} || !confirmed ==> filteredRoutes == old(filteredRoutes) && currentPage == old(currentPage)
    {
      if |selectedRoutes| == 0 || !confirmed {
        return;
      }
      allRoutes := WithoutIds(allRoutes, selectedRoutes);
      selectedRoutes := {};
      ApplyFilters();
    }

    /** `clearAll`: two confirmations, then nothing is left. */
    method ClearAll(first: bool, second: bool)
      modifies this`allRoutes, this`selectedRoutes, this`filteredRoutes, this`currentPage
      requires Valid()
      ensures Valid()
      ensures first && second ==> allRoutes == [] && selectedRoutes == {} && filteredRoutes == [] && currentPage == 1
      ensures !(first && second) ==> allRoutes == old(allRoutes) && selectedRoutes == old(selectedRoutes)
      ensures !(first && second) ==> filteredRoutes == old(filteredRoutes) && currentPage == old(currentPage)
    {
      if !first || !second {
        return;
      }
      allRoutes := [];
      selectedRoutes := {};
      ApplyFilters();
    }

    /** An import-mode radio button. */
    method SetImportMode(mode: ImportMode)
      modifies this`importMode
      ensures importMode == mode
    {
      importMode := mode;
    }

    /** `handleFileUpload` with the file's name and text: a name without
        the `.csv` suffix or a file with no route is refused; otherwise
        the routes wait for confirmation and the preview is returned. */
    method HandleFileUpload(fileName: string, text: string) returns (accepted: bool, preview: Changes)
      modifies this`pendingImportRoutes
      ensures accepted <==> EndsWith(fileName, ".csv") && ParseCsv(text) != []
      ensures accepted ==> pendingImportRoutes == ParseCsv(text)
      ensures accepted ==> preview == ImportChanges(importMode, allRoutes, pendingImportRoutes)
      ensures !accepted ==> pendingImportRoutes == old(pendingImportRoutes)
    {
      preview := Changes([], [], []);
      if !EndsWith(fileName, ".csv") {
        return false, preview;
      }
      var routes := LoadCsv(text);
      if |routes| == 0 {
        return false, preview;
      }
      pendingImportRoutes := routes;
      preview := CalculateImportChanges(importMode, allRoutes, routes);
      accepted := true;
    }

    method ClosePreviewModal()
      modifies this`pendingImportRoutes
      ensures pendingImportRoutes == []
    {
      pendingImportRoutes := [];
    }

    /** `confirmImport`: the route list becomes the selected mode's result,
        the selection and the pending routes are cleared, and the number of
        file routes is reported. */
    method ConfirmImport() returns (processed: nat)
      modifies this`allRoutes, this`selectedRoutes, this`filteredRoutes, this`currentPage, this`pendingImportRoutes
      requires Valid()
      ensures Valid() && currentPage == 1
      ensures allRoutes == FinalRoutes(old(importMode), old(allRoutes), old(pendingImportRoutes))
      ensures processed == |old(pendingImportRoutes)|
      ensures selectedRoutes == {} && pendingImportRoutes == [] && importMode == old(importMode)
    {
      var incoming := pendingImportRoutes;
      var finalRoutes := ImportedRoutes(importMode, allRoutes, incoming);
      allRoutes := finalRoutes;
      selectedRoutes := {};
      ApplyFilters();
      pendingImportRoutes := [];
      processed := |incoming|;
    }
  }
}
