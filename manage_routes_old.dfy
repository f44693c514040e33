/** manage-routes-old.js: the older route administration page. It keeps the
    route table in `currentRoutes`, imports and exports it as CSV, and shows
    the totals and the number of routes per domain. */
module ManageRoutesOld {
  import opened Text
  import opened Sorting
  import opened Csv

  const HeaderNames: seq<string> := ["domain", "id", "module", "title", "url", "tags", "description", "status"]

  /** The header line that `routesToCSV` writes. */
  const Header: string := Join(HeaderNames, ",")

  /** `parseCSV`: the header line fixes how many fields a data row needs. */
  function ParseCsv(text: string): seq<Route> {
    var lines := Lines(text, "\n");
    Rows(lines[1..], |Split(lines[0], ",")|, BuildRoute)
  }

  /** Every imported route has a domain, an id, a title and a status, and
      none of its tags is blank. */
  lemma ParseCsvSound(text: string)
    ensures forall k :: 0 <= k < |ParseCsv(text)| ==> Complete(ParseCsv(text)[k])
  {
    var lines := Lines(text, "\n");
    RouteRowsComplete(lines[1..], |Split(lines[0], ",")|);
  }

  /** The quoted `tags` cell of a row. */
  function TagCell(r: Route): string {
    ['"'] + Join(r.tag, "|") + ['"']
  }

  /** The cells of a row; a missing status is written as "active". */
  function RowCells(r: Route): seq<string> {
    [r.domain, r.id, r.moduleName, r.title, r.url, TagCell(r), r.description, OrElse(r.status, "active")]
  }

  function RouteRow(r: Route): string {
    Join(RowCells(r), ",")
  }

  /** `routesToCSV`: the header, then one row per route. */
  function RoutesToCsv(routes: seq<Route>): string {
    Join([Header] + Map(routes, RouteRow), "\n")
  }

  /** A cell the importer reads back unchanged. */
  predicate Plain(s: string) {
    ',' !in s && '"' !in s && '\n' !in s && IsTrimmed(s)
  }

  /** A route that survives export and import: its cells are plain, domain,
      id, title and status are present, and its tags are non-blank, trimmed and
      free of `|`, commas, quotes and newlines. */
  predicate Exportable(r: Route) {
    && Plain(r.domain) && Plain(r.id) && Plain(r.moduleName) && Plain(r.title)
    && Plain(r.url) && Plain(r.description) && Plain(r.status)
    && r.domain != "" && r.id != "" && r.title != "" && r.status != ""
    && forall t :: 0 <= t < |r.tag| ==> PlainTag(r.tag[t]) && Plain(r.tag[t])
  }

  lemma PlainReads(s: string)
    requires Plain(s)
    ensures ReadsAs(s, s)
  {
    DropQuotesPlain(s);
    TrimKeepsTrimmed(s);
  }

  lemma {:induction false} QuoteCountAppend(a: string, b: string)
    ensures QuoteCount(a + b) == QuoteCount(a) + QuoteCount(b)
    ensures DropQuotes(a + b) == DropQuotes(a) + DropQuotes(b)
    decreases |b|
  {
    if |b| == 0 {
      assert a + b == a;
    } else {
      QuoteCountAppend(a, b[..|b| - 1]);
      assert (a + b)[..|a + b| - 1] == a + b[..|b| - 1];
    }
  }

  /** A quote-free text between two quotes holds two quotes, and dropping
      them gives the text back. */
  lemma QuotedText(t: string)
    requires '"' !in t
    ensures QuoteCount(['"'] + t + ['"']) == 2 && DropQuotes(['"'] + t + ['"']) == t
  {
    var q: string := ['"'];
    OneQuote();
    DropQuotesPlain(t);
    assert QuoteCount(t) == 0;
    var qt := q + t;
    QuoteCountAppend(q, t);
    assert QuoteCount(qt) == 1 && DropQuotes(qt) == t;
    QuoteCountAppend(qt, q);
    assert ['"'] + t + ['"'] == qt + q;
  }

  /** A lone quote counts once and is dropped. */
  lemma OneQuote()
    ensures QuoteCount(['"']) == 1 && DropQuotes(['"']) == ""
  {
    var q: string := ['"'];
    assert q[..0] == "";
  }

  /** The joined tags of an exportable route form a trimmed text without
      commas, quotes or newlines. */
  lemma TagTextPlain(r: Route)
    requires Exportable(r)
    ensures Plain(Join(r.tag, "|"))
  {
    JoinFree(r.tag, "|", ',');
    JoinFree(r.tag, "|", '"');
    JoinFree(r.tag, "|", '\n');
    if |r.tag| > 0 {
      PlainTagsNonEmpty(r.tag);
      JoinEnds(r.tag, "|");
    }
  }

  /** A plain text between two quotes reads back as the text, and the quotes
      bring in no newline. */
  lemma QuotedReads(t: string)
    requires Plain(t)
    ensures ReadsAs(['"'] + t + ['"'], t)
    ensures '\n' !in ['"'] + t + ['"']
  {
    var q := ['"'] + t + ['"'];
    QuotedText(t);
    TrimKeepsTrimmed(t);
    forall i | 0 <= i < |q| ensures q[i] != ',' && q[i] != '\n' {
      if 0 < i < |q| - 1 {
        assert q[i] == t[i - 1];
      }
    }
  }

  lemma TagCellReads(r: Route)
    requires Exportable(r)
    ensures ReadsAs(TagCell(r), Join(r.tag, "|"))
    ensures '\n' !in TagCell(r)
  {
    TagTextPlain(r);
    QuotedReads(Join(r.tag, "|"));
  }

  /** The fields the importer reads from a row. */
  function ReadBack(r: Route): seq<string> {
    [r.domain, r.id, r.moduleName, r.title, r.url, Join(r.tag, "|"), r.description, r.status]
  }

  /** Eight cells that each read back as their value, placed in order. */
  lemma EightRead(c0: string, c1: string, c2: string, c3: string, c4: string, c5: string, c6: string, c7: string,
                  v0: string, v1: string, v2: string, v3: string, v4: string, v5: string, v6: string, v7: string)
    requires ReadsAs(c0, v0) && ReadsAs(c1, v1) && ReadsAs(c2, v2) && ReadsAs(c3, v3)
    requires ReadsAs(c4, v4) && ReadsAs(c5, v5) && ReadsAs(c6, v6) && ReadsAs(c7, v7)
    ensures var c := [c0, c1, c2, c3, c4, c5, c6, c7];
            var v := [v0, v1, v2, v3, v4, v5, v6, v7];
            forall k :: 0 <= k < 8 ==> ReadsAs(c[k], v[k])
  {
    var c := [c0, c1, c2, c3, c4, c5, c6, c7];
    var v := [v0, v1, v2, v3, v4, v5, v6, v7];
    forall k | 0 <= k < 8 ensures ReadsAs(c[k], v[k]) {
      if k == 0 { assert c[k] == c0 && v[k] == v0; }
      else if k == 1 { assert c[k] == c1 && v[k] == v1; }
      else if k == 2 { assert c[k] == c2 && v[k] == v2; }
      else if k == 3 { assert c[k] == c3 && v[k] == v3; }
      else if k == 4 { assert c[k] == c4 && v[k] == v4; }
      else if k == 5 { assert c[k] == c5 && v[k] == v5; }
      else if k == 6 { assert c[k] == c6 && v[k] == v6; }
      else { assert c[k] == c7 && v[k] == v7; }
    }
  }
  lemma CellsRead(r: Route)
    requires Exportable(r)
    ensures forall k :: 0 <= k < 8 ==> ReadsAs(RowCells(r)[k], ReadBack(r)[k])
  {
    PlainReads(r.domain);
    PlainReads(r.id);
    PlainReads(r.moduleName);
    PlainReads(r.title);
    PlainReads(r.url);
    TagCellReads(r);
    PlainReads(r.description);
    PlainReads(r.status);
    EightRead(r.domain, r.id, r.moduleName, r.title, r.url, TagCell(r), r.description, r.status,
              r.domain, r.id, r.moduleName, r.title, r.url, Join(r.tag, "|"), r.description, r.status);
  }

  /** An exportable route's row parses back into its own fields. */
  lemma RowFields(r: Route)
    requires Exportable(r)
    ensures Fields(RouteRow(r)) == ReadBack(r)
  {
    CellsRead(r);
    FieldsOfJoinAs(RowCells(r), ReadBack(r));
  }

  /** The importer builds the route back from those fields. */
  lemma ReadBackBuilds(r: Route)
    requires Exportable(r)
    ensures BuildRoute(ReadBack(r)) == Some(r)
  {
    TagColumnOfJoin(r.tag);
  }

  /** An exportable route's row is kept by the importer and builds the route. */
  lemma RowBuilds(r: Route)
    requires Exportable(r)
    ensures Builds(RouteRow(r), 8, BuildRoute, r)
  {
    RowFields(r);
    ReadBackBuilds(r);
    RowEnds(r);
    TrimNotEmpty(RouteRow(r));
  }

  /** A row starts with the domain and ends with the status. */
  lemma RowEnds(r: Route)
    requires Exportable(r)
    ensures RouteRow(r) != "" && !IsWhite(RouteRow(r)[0]) && !IsWhite(RouteRow(r)[|RouteRow(r)| - 1])
  {
    JoinEnds(RowCells(r), ",");
  }

  /** Eight cells without `ch`, placed in order. */
  lemma EightFree(c0: string, c1: string, c2: string, c3: string, c4: string, c5: string, c6: string, c7: string,
                  ch: char)
    requires ch !in c0 && ch !in c1 && ch !in c2 && ch !in c3
    requires ch !in c4 && ch !in c5 && ch !in c6 && ch !in c7
    ensures var c := [c0, c1, c2, c3, c4, c5, c6, c7];
            forall k :: 0 <= k < 8 ==> ch !in c[k]
  {
    var c := [c0, c1, c2, c3, c4, c5, c6, c7];
    forall k | 0 <= k < 8 ensures ch !in c[k] {
      if k == 0 { assert c[k] == c0; }
      else if k == 1 { assert c[k] == c1; }
      else if k == 2 { assert c[k] == c2; }
      else if k == 3 { assert c[k] == c3; }
      else if k == 4 { assert c[k] == c4; }
      else if k == 5 { assert c[k] == c5; }
      else if k == 6 { assert c[k] == c6; }
      else { assert c[k] == c7; }
    }
  }

  lemma RowNoNewline(r: Route)
    requires Exportable(r)
    ensures '\n' !in RouteRow(r)
  {
    TagCellReads(r);
    EightFree(r.domain, r.id, r.moduleName, r.title, r.url, TagCell(r), r.description, r.status, '\n');
    assert RowCells(r) == [r.domain, r.id, r.moduleName, r.title, r.url, TagCell(r), r.description, r.status];
    JoinFree(RowCells(r), ",", '\n');
  }

  lemma HeaderNamesPlain()
    ensures forall k :: 0 <= k < |HeaderNames| ==> '\n' !in HeaderNames[k] && ',' !in HeaderNames[k]
  {
  }

  /** The header names eight fields. */
  lemma HeaderSplit()
    ensures |Split(Header, ",")| == 8
  {
    HeaderNamesPlain();
    SplitJoin(HeaderNames, ',');
  }

  lemma HeaderEnds()
    ensures Header != "" && !IsWhite(Header[0]) && !IsWhite(Header[|Header| - 1])
  {
    JoinEnds(HeaderNames, ",");
  }

  lemma HeaderNoNewline()
    ensures '\n' !in Header
  {
    HeaderNamesPlain();
    JoinFree(HeaderNames, ",", '\n');
  }

  /** The export text is trimmed: it starts with the header and ends with the
      last route's status. */
  lemma ExportTrimmed(routes: seq<Route>)
    requires forall k :: 0 <= k < |routes| ==> Exportable(routes[k])
    ensures Trim(RoutesToCsv(routes)) == RoutesToCsv(routes)
  {
    var parts := [Header] + Map(routes, RouteRow);
    HeaderEnds();
    if |routes| > 0 {
      RowEnds(routes[|routes| - 1]);
    }
    JoinEnds(parts, "\n");
    TrimKeepsTrimmed(RoutesToCsv(routes));
  }

  /** The export text splits into the header and one row per route. */
  lemma RoutesToCsvLines(routes: seq<Route>)
    requires forall k :: 0 <= k < |routes| ==> Exportable(routes[k])
    ensures Lines(RoutesToCsv(routes), "\n") == [Header] + Map(routes, RouteRow)
  {
    var parts := [Header] + Map(routes, RouteRow);
    HeaderNoNewline();
    forall k | 0 <= k < |parts| ensures '\n' !in parts[k] {
      if k > 0 {
        RowNoNewline(routes[k - 1]);
      }
    }
    SplitJoin(parts, '\n');
    ExportTrimmed(routes);
  }

  /** Exporting and importing again gives the same routes. */
  lemma ParseCsvOfRoutesToCsv(routes: seq<Route>)
    requires forall k :: 0 <= k < |routes| ==> Exportable(routes[k])
    ensures ParseCsv(RoutesToCsv(routes)) == routes
  {
    RoutesToCsvLines(routes);
    HeaderSplit();
    var lines := Lines(RoutesToCsv(routes), "\n");
    var rows := Map(routes, RouteRow);
    assert lines[1..] == rows;
    forall k | 0 <= k < |rows| ensures Builds(rows[k], 8, BuildRoute, routes[k]) {
      RowBuilds(routes[k]);
    }
    RowsAll(rows, 8, BuildRoute, routes);
  }

  /** The totals shown on the page. */
  datatype Stats = Stats(total: nat, domains: nat, active: nat)

  /** The distinct domains of the routes. */
  function DomainSet(routes: seq<Route>): set<string>
    decreases |routes|
  {
    if |routes| == 0 then {}
    else DomainSet(routes[..|routes| - 1]) + {routes[|routes| - 1].domain}
  }

  lemma {:induction false} DomainSetMembers(routes: seq<Route>)
    ensures forall d :: d in DomainSet(routes) <==> exists k :: 0 <= k < |routes| && routes[k].domain == d
    ensures |DomainSet(routes)| <= |routes|
    decreases |routes|
  {
    if |routes| > 0 {
      var init := routes[..|routes| - 1];
      DomainSetMembers(init);
      forall d | d in DomainSet(routes)
        ensures exists k :: 0 <= k < |routes| && routes[k].domain == d
      {
        if d in DomainSet(init) {
          var k :| 0 <= k < |init| && init[k].domain == d;
          assert routes[k].domain == d;
        } else {
          assert routes[|routes| - 1].domain == d;
        }
      }
      forall d | exists k :: 0 <= k < |routes| && routes[k].domain == d
        ensures d in DomainSet(routes)
      {
        var k :| 0 <= k < |routes| && routes[k].domain == d;
        if k < |routes| - 1 {
          assert init[k].domain == d;
        }
      }
    }
  }

  /** Number of routes whose status is not "legacy". */
  function ActiveCount(routes: seq<Route>): (n: nat)
    ensures n <= |routes|
    decreases |routes|
  {
    if |routes| == 0 then 0
    else ActiveCount(routes[..|routes| - 1]) + (if routes[|routes| - 1].status != "legacy" then 1 else 0)
  }

  function ComputeStats(routes: seq<Route>): Stats {
    Stats(|routes|, |DomainSet(routes)|, ActiveCount(routes))
  }

  /** The counts never exceed the total, and there are domains exactly when
      there are routes. */
  lemma StatsBounds(routes: seq<Route>)
    ensures var s := ComputeStats(routes);
      s.active <= s.total && s.domains <= s.total && (s.domains == 0 <==> s.total == 0)
  {
    DomainSetMembers(routes);
    if |routes| > 0 {
      assert routes[0].domain in DomainSet(routes);
    }
  }

  /** Number of routes of domain `d`. */
  function CountDomain(routes: seq<Route>, d: string): (n: nat)
    ensures n <= |routes|
    decreases |routes|
  {
    if |routes| == 0 then 0
    else CountDomain(routes[..|routes| - 1], d) + (if routes[|routes| - 1].domain == d then 1 else 0)
  }

  /** The `domainGroups` object after the `forEach`: one counter per domain. */
  function Groups(routes: seq<Route>): map<string, nat>
    decreases |routes|
  {
    if |routes| == 0 then map[]
    else
      var g := Groups(routes[..|routes| - 1]);
      var d := routes[|routes| - 1].domain;
      g[d := (if d in g then g[d] else 0) + 1]
  }

  /** The keys of `domainGroups` in insertion order. */
  function FirstSeen(routes: seq<Route>): seq<string>
    decreases |routes|
  {
    if |routes| == 0 then []
    else
      var f := FirstSeen(routes[..|routes| - 1]);
      var d := routes[|routes| - 1].domain;
      if d in f then f else f + [d]
  }

  /** The counters are keyed by exactly the domains of the routes. */
  lemma {:induction false} GroupsKeys(routes: seq<Route>)
    ensures forall d :: d in Groups(routes) <==> d in DomainSet(routes)
    decreases |routes|
  {
    if |routes| > 0 {
      GroupsKeys(routes[..|routes| - 1]);
    }
  }

  /** Each counter counts the routes of its domain; a domain without a
      counter has no route. */
  lemma {:induction false} GroupsCount(routes: seq<Route>)
    ensures GroupsAgree(routes)
    ensures forall d :: d !in Groups(routes) ==> CountDomain(routes, d) == 0
    decreases |routes|
  {
    if |routes| > 0 {
      var init := routes[..|routes| - 1];
      GroupsCount(init);
      var g := Groups(init);
      var last := routes[|routes| - 1].domain;
      assert Groups(routes) == g[last := (if last in g then g[last] else 0) + 1];
      forall d | d in Groups(routes) ensures Groups(routes)[d] == CountDomain(routes, d) {
        assert CountDomain(routes, d) == CountDomain(init, d) + (if last == d then 1 else 0);
      }
      forall d | d !in Groups(routes) ensures CountDomain(routes, d) == 0 {
        assert CountDomain(routes, d) == CountDomain(init, d) + (if last == d then 1 else 0);
      }
    }
  }

  /** The keys in insertion order are exactly the domains. */
  lemma {:induction false} FirstSeenMembers(routes: seq<Route>)
    ensures forall d :: d in FirstSeen(routes) <==> d in DomainSet(routes)
    decreases |routes|
  {
    if |routes| > 0 {
      FirstSeenMembers(routes[..|routes| - 1]);
    }
  }

  /** Each domain is inserted once. */
  lemma {:induction false} FirstSeenDistinct(routes: seq<Route>)
    ensures Distinct(FirstSeen(routes))
    decreases |routes|
  {
    if |routes| > 0 {
      var f := FirstSeen(routes[..|routes| - 1]);
      FirstSeenDistinct(routes[..|routes| - 1]);
      var d := routes[|routes| - 1].domain;
      if d !in f {
        forall i, j | 0 <= i < j < |f + [d]| ensures (f + [d])[i] != (f + [d])[j] {
          if j == |f| {
            assert (f + [d])[i] == f[i];
          } else {
            assert (f + [d])[i] == f[i] && (f + [d])[j] == f[j];
          }
        }
      }
    }
  }

  /** `sort()` on strings: by UTF-16 code unit. */
  function ByCode(a: string, b: string): real {
    CompareStrings(a, b) as real
  }

  lemma ByCodeStrict()
    ensures StrictOrder(ByCode)
  {
    forall a, b, c | ByCode(a, b) < 0.0 && ByCode(b, c) < 0.0 ensures ByCode(a, c) < 0.0 {
      CompareStringsTransitive(a, b, c);
    }
  }

  /** One line of the domain list: the domain and its number of routes. */
  datatype DomainEntry = DomainEntry(domain: string, count: nat)

  /** The domains, sorted by code unit. */
  function SortedDomains(routes: seq<Route>): seq<string> {
    SortBy(FirstSeen(routes), ByCode)
  }

  /** `updateDomainList`: the domains in sorted order with their counts. */
  function DomainListing(routes: seq<Route>): seq<DomainEntry> {
    var g := Groups(routes);
    Map(SortedDomains(routes), d => DomainEntry(d, if d in g then g[d] else 0))
  }

  /** The sorted domains are exactly the domains of the routes, once each. */
  lemma SortedDomainsMembers(routes: seq<Route>)
    ensures forall d :: d in SortedDomains(routes) <==> d in DomainSet(routes)
    ensures Distinct(SortedDomains(routes))
    ensures |SortedDomains(routes)| == |DomainSet(routes)|
  {
    var first := FirstSeen(routes);
    var ds := SortedDomains(routes);
    FirstSeenMembers(routes);
    FirstSeenDistinct(routes);
    PermutationDistinct(ds, first);
    forall d ensures d in ds <==> d in DomainSet(routes) {
      assert d in ds <==> d in multiset(ds);
      assert d in first <==> d in multiset(first);
    }
    DistinctCard(first, DomainSet(routes));
  }

  /** The sorted domains are in strictly increasing order. */
  lemma SortedDomainsOrdered(routes: seq<Route>)
    ensures forall i, j :: 0 <= i < j < |SortedDomains(routes)| ==>
      CompareStrings(SortedDomains(routes)[i], SortedDomains(routes)[j]) < 0
  {
    var ds := SortedDomains(routes);
    SortedDomainsMembers(routes);
    ByCodeStrict();
    SortBySorted(FirstSeen(routes), ByCode);
    forall i, j | 0 <= i < j < |ds| ensures CompareStrings(ds[i], ds[j]) < 0 {
      assert ByCode(ds[j], ds[i]) >= 0.0;
      assert ds[i] != ds[j];
      CompareStringsFlip(ds[i], ds[j]);
    }
  }

  function SumCounts(entries: seq<DomainEntry>): nat
    decreases |entries|
  {
    if |entries| == 0 then 0 else entries[0].count + SumCounts(entries[1..])
  }

  /** The routes counted over a list of distinct domains. */
  function CountOver(ds: seq<string>, routes: seq<Route>): nat
    decreases |ds|
  {
    if |ds| == 0 then 0 else CountDomain(routes, ds[0]) + CountOver(ds[1..], routes)
  }

  lemma {:induction false} CountOverStep(ds: seq<string>, routes: seq<Route>)
    requires |routes| > 0 && Distinct(ds)
    ensures CountOver(ds, routes)
      == CountOver(ds, routes[..|routes| - 1]) + (if routes[|routes| - 1].domain in ds then 1 else 0)
    decreases |ds|
  {
    if |ds| > 0 {
      assert Distinct(ds[1..]);
      CountOverStep(ds[1..], routes);
      assert routes[|routes| - 1].domain in ds <==>
        routes[|routes| - 1].domain == ds[0] || routes[|routes| - 1].domain in ds[1..];
      if routes[|routes| - 1].domain == ds[0] {
        assert ds[0] !in ds[1..];
      }
    }
  }

  /** Counting over distinct domains that cover every route counts every
      route once. */
  lemma {:induction false} CountOverAll(ds: seq<string>, routes: seq<Route>)
    requires Distinct(ds)
    requires forall k :: 0 <= k < |routes| ==> routes[k].domain in ds
    ensures CountOver(ds, routes) == |routes|
    decreases |routes|
  {
    if |routes| == 0 {
      CountOverNone(ds, routes);
    } else {
      CountOverStep(ds, routes);
      CountOverAll(ds, routes[..|routes| - 1]);
    }
  }

  lemma {:induction false} CountOverNone(ds: seq<string>, routes: seq<Route>)
    requires |routes| == 0
    ensures CountOver(ds, routes) == 0
    decreases |ds|
  {
    if |ds| > 0 {
      CountOverNone(ds[1..], routes);
    }
  }

  lemma {:induction false} SumCountsOver(ds: seq<string>, routes: seq<Route>)
    requires forall d :: d in ds ==> d in Groups(routes)
    requires GroupsAgree(routes)
    ensures SumCounts(Map(ds, d => DomainEntry(d, if d in Groups(routes) then Groups(routes)[d] else 0)))
      == CountOver(ds, routes)
    decreases |ds|
  {
    if |ds| > 0 {
      var f := d => DomainEntry(d, if d in Groups(routes) then Groups(routes)[d] else 0);
      assert Map(ds, f)[1..] == Map(ds[1..], f);
      SumCountsOver(ds[1..], routes);
    }
  }

  predicate GroupsAgree(routes: seq<Route>) {
    forall d :: d in Groups(routes) ==> Groups(routes)[d] == CountDomain(routes, d)
  }

  /** The domain list has one line per domain, in sorted order. */
  lemma DomainListingSorted(routes: seq<Route>)
    ensures |DomainListing(routes)| == |DomainSet(routes)|
    ensures forall i, j :: 0 <= i < j < |DomainListing(routes)| ==>
      CompareStrings(DomainListing(routes)[i].domain, DomainListing(routes)[j].domain) < 0
  {
    SortedDomainsMembers(routes);
    SortedDomainsOrdered(routes);
    var ds := SortedDomains(routes);
    var listing := DomainListing(routes);
    assert forall k :: 0 <= k < |listing| ==> listing[k].domain == ds[k];
  }

  /** The domain list follows the sorted domains line by line. */
  lemma ListingDomains(routes: seq<Route>)
    ensures |DomainListing(routes)| == |SortedDomains(routes)|
    ensures forall k :: 0 <= k < |DomainListing(routes)| ==> DomainListing(routes)[k].domain == SortedDomains(routes)[k]
  {
  }

  /** The domain list names exactly the domains of the routes. */
  lemma DomainListingCovers(routes: seq<Route>)
    ensures forall d :: d in DomainSet(routes) <==>
      exists k :: 0 <= k < |DomainListing(routes)| && DomainListing(routes)[k].domain == d
  {
    SortedDomainsMembers(routes);
    ListingDomains(routes);
    ListedDomains(SortedDomains(routes), DomainListing(routes), DomainSet(routes));
  }

  /** Lines that follow a list of domains name exactly the listed domains. */
  lemma ListedDomains(ds: seq<string>, listing: seq<DomainEntry>, domains: set<string>)
    requires |listing| == |ds|
    requires forall k :: 0 <= k < |listing| ==> listing[k].domain == ds[k]
    requires forall d :: d in ds <==> d in domains
    ensures forall d :: d in domains <==> exists k :: 0 <= k < |listing| && listing[k].domain == d
  {
    forall d | d in domains
      ensures exists k :: 0 <= k < |listing| && listing[k].domain == d
    {
      var k :| 0 <= k < |ds| && ds[k] == d;
      assert listing[k].domain == d;
    }
  }

  /** Each line of the domain list counts the routes of its domain. */
  lemma DomainListingCounts(routes: seq<Route>)
    ensures forall k :: 0 <= k < |DomainListing(routes)| ==>
      DomainListing(routes)[k].count == CountDomain(routes, DomainListing(routes)[k].domain)
  {
    GroupsCount(routes);
    GroupsKeys(routes);
    SortedDomainsMembers(routes);
    var ds := SortedDomains(routes);
    var listing := DomainListing(routes);
    forall k | 0 <= k < |listing|
      ensures listing[k].count == CountDomain(routes, listing[k].domain)
    {
      assert listing[k].domain == ds[k];
      assert ds[k] in Groups(routes);
    }
  }

  /** The counts of the domain list add up to the number of routes. */
  lemma DomainListingTotal(routes: seq<Route>)
    ensures SumCounts(DomainListing(routes)) == |routes|
  {
    GroupsCount(routes);
    GroupsKeys(routes);
    DomainSetMembers(routes);
    SortedDomainsMembers(routes);
    var ds := SortedDomains(routes);
    forall k | 0 <= k < |routes| ensures routes[k].domain in ds {
      assert routes[k].domain in DomainSet(routes);
    }
    CountOverAll(ds, routes);
    SumCountsOver(ds, routes);
  }

  /** A list without repeats whose elements are exactly the members of `s`
      has one element per member. */
  lemma {:induction false} DistinctCard(xs: seq<string>, s: set<string>)
    requires Distinct(xs)
    requires forall d :: d in xs <==> d in s
    ensures |xs| == |s|
    decreases |xs|
  {
    if |xs| == 0 {
      assert s == {};
    } else {
      var init := xs[..|xs| - 1];
      var x := xs[|xs| - 1];
      assert x !in init;
      forall d ensures d in init <==> d in s - {x} {
        assert d in xs <==> d in init || d == x;
      }
      DistinctCard(init, s - {x});
    }
  }

  /** The page's state. */
  class RoutesPage {
    var currentRoutes: seq<Route>
    var currentStats: Stats

    constructor ()
      ensures currentRoutes == [] && currentStats == Stats(0, 0, 0)
    {
      currentRoutes := [];
      currentStats := Stats(0, 0, 0);
    }

    /** `updateStats`. */
    method UpdateStats()
      modifies this
      ensures currentRoutes == old(currentRoutes)
      ensures currentStats == ComputeStats(currentRoutes)
    {
      currentStats := ComputeStats(currentRoutes);
    }

    /** `updateDomainList`: counts the routes per domain with one pass over
        the routes, then lists the domains in sorted order. */
    method UpdateDomainList() returns (listing: seq<DomainEntry>)
      ensures listing == DomainListing(currentRoutes)
    {
      var groups: map<string, nat> := map[];
      var keys: seq<string> := [];
      for i := 0 to |currentRoutes|
        invariant groups == Groups(currentRoutes[..i])
        invariant keys == FirstSeen(currentRoutes[..i])
      {
        assert currentRoutes[..i + 1][..i] == currentRoutes[..i];
        var d := currentRoutes[i].domain;
        if d !in groups {
          groups := groups[d := 0];
        }
        if d !in keys {
          keys := keys + [d];
        }
        groups := groups[d := groups[d] + 1];
      }
      assert currentRoutes[..|currentRoutes|] == currentRoutes;
      var g := groups;
      listing := Map(SortBy(keys, ByCode), d => DomainEntry(d, if d in g then g[d] else 0));
    }

    /** `loadDefaultRoutes`: the bundled CSV replaces the table. */
    method LoadDefaultRoutes(csvText: string)
      modifies this
      ensures currentRoutes == ParseCsv(csvText)
      ensures currentStats == ComputeStats(currentRoutes)
    {
      currentRoutes := ParseCsv(csvText);
      UpdateStats();
    }

    /** `handleImport`: a file whose name does not end in ".csv", a file with
        no valid route and an import the user does not confirm change nothing;
        otherwise the imported routes replace the table. Returns the number of
        routes imported. */
    method HandleImport(fileName: string, text: string, confirmed: bool) returns (imported: nat)
      modifies this
      ensures var routes := ParseCsv(text);
        if EndsWith(fileName, ".csv") && |routes| > 0 && confirmed then
          imported == |routes| && currentRoutes == routes && currentStats == ComputeStats(routes)
        else
          imported == 0 && currentRoutes == old(currentRoutes) && currentStats == old(currentStats)
    {
      if !EndsWith(fileName, ".csv") {
        return 0;
      }
      var routes := ParseCsv(text);
      if |routes| == 0 || !confirmed {
        return 0;
      }
      currentRoutes := routes;
      UpdateStats();
      imported := |routes|;
    }

    /** `clearAllRoutes`: two confirmations empty the table. */
    method ClearAllRoutes(first: bool, second: bool)
      modifies this
      ensures if first && second then currentRoutes == [] && currentStats == Stats(0, 0, 0)
        else currentRoutes == old(currentRoutes) && currentStats == old(currentStats)
    {
      if !first || !second {
        return;
      }
      currentRoutes := [];
      UpdateStats();
    }
  }

  /** `s.endsWith(t)`. */
  predicate EndsWith(s: string, t: string) {
    |t| <= |s| && s[|s| - |t|..] == t
  }
}
