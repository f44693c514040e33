/** The helpers of the navigator's content script (scripts/content-script.js):
    tag lists, the bundled route file, the module colour hash, domain
    normalization, the ranking context, the usage counters with their
    pending batch, the node merge, the result selection and the keyboard
    shortcut. */
module ContentScript {
  import opened Text
  import opened Sorting
  import Csv
  import Ranking
  import Legacy
  import Keyed

  // ------------------------------------------------------------- tag lists

  /** A tag field as a route stores it: absent (or any falsy value), an
      array of strings, or a string. */
  datatype TagValue = Missing | TagArray(items: seq<string>) | TagString(text: string)

  /** The characters `normalizeTagList` reads as a level separator: "|",
      the middle dot, ">" and ",". */
  predicate IsTagSeparator(c: char) {
    c == '|' || c == '·' || c == '>' || c == ','
  }

  /** Every separator replaced by "|". */
  function Unify(s: string): (r: string)
    ensures |r| == |s|
    ensures forall i :: 0 <= i < |s| ==> r[i] == if IsTagSeparator(s[i]) then '|' else s[i]
  {
    seq(|s|, i requires 0 <= i < |s| => if IsTagSeparator(s[i]) then '|' else s[i])
  }

  /** `normalizeTagList`: nothing for a falsy value; an array is trimmed
      element by element; a string loses one leading and one trailing quote
      and is cut at every separator. Empty pieces are dropped. */
  function NormalizeTagList(value: TagValue): seq<string> {
    match value
    case Missing => []
    case TagArray(items) => NonEmpty(TrimAll(items))
    case TagString(text) => if text == "" then [] else Pieces(Unify(Csv.StripQuotes(text)), '|')
  }

  /** Every tag is non-empty and trimmed. */
  lemma TagListShape(value: TagValue)
    ensures forall k :: 0 <= k < |NormalizeTagList(value)| ==>
      NormalizeTagList(value)[k] != "" && IsTrimmed(NormalizeTagList(value)[k])
  {
    match value
    case Missing =>
    case TagArray(items) =>
      NonEmptyFrom(TrimAll(items));
    case TagString(text) =>
      if text != "" {
        PiecesShape(Unify(Csv.StripQuotes(text)), '|');
      }
  }

  /** No tag read from a string holds a separator. */
  lemma TagStringSeparatorFree(text: string)
    ensures forall k, i :: 0 <= k < |NormalizeTagList(TagString(text))| && 0 <= i < |NormalizeTagList(TagString(text))[k]| ==>
      !IsTagSeparator(NormalizeTagList(TagString(text))[k][i])
  {
    if text != "" {
      var u := Unify(Csv.StripQuotes(text));
      PiecesShape(u, '|');
      PiecesAvoid(u, '|', '·');
      PiecesAvoid(u, '|', '>');
      PiecesAvoid(u, '|', ',');
    }
  }

  /** An array of clean tags is its own normal form, so normalizing twice
      changes nothing. */
  lemma TagListIdempotent(value: TagValue)
    ensures NormalizeTagList(TagArray(NormalizeTagList(value))) == NormalizeTagList(value)
  {
    var tags := NormalizeTagList(value);
    TagListShape(value);
    TrimAllTrimmed(tags);
    NonEmptyAll(tags);
  }

  /** Tags joined with any of the four separators read back as the same
      list, so "a > b", "a · b", "a, b" and "a|b" name one path. */
  lemma TagListOfJoin(tags: seq<string>, sep: char)
    requires IsTagSeparator(sep)
    requires forall k :: 0 <= k < |tags| ==> PlainTagText(tags[k])
    ensures NormalizeTagList(TagString(Join(tags, [sep]))) == tags
  {
    if |tags| == 0 {
      assert Join(tags, [sep]) == "";
    } else {
      var joined := Join(tags, [sep]);
      JoinEnds(tags, [sep]);
      JoinFree(tags, [sep], '"');
      Csv.StripQuotesProperties(joined);
      UnifyJoin(tags, sep);
      PiecesOfJoin(tags, '|');
    }
  }

  /** A tag that reads back unchanged: non-empty, trimmed, without quotes
      and without separators. */
  predicate PlainTagText(t: string) {
    t != "" && IsTrimmed(t) && '"' !in t && forall i :: 0 <= i < |t| ==> !IsTagSeparator(t[i])
  }

  lemma {:induction false} UnifyJoin(parts: seq<string>, sep: char)
    requires IsTagSeparator(sep)
    requires forall k :: 0 <= k < |parts| ==> PlainTagText(parts[k])
    ensures Unify(Join(parts, [sep])) == Join(parts, "|")
    decreases |parts|
  {
    if |parts| == 1 {
      UnifyPlain(parts[0]);
    } else if |parts| > 1 {
      UnifyJoin(parts[1..], sep);
      UnifyPlain(parts[0]);
      UnifyAppend(parts[0] + [sep], Join(parts[1..], [sep]));
      UnifyAppend(parts[0], [sep]);
    }
  }

  lemma UnifyPlain(t: string)
    requires forall i :: 0 <= i < |t| ==> !IsTagSeparator(t[i])
    ensures Unify(t) == t
  {
  }

  lemma UnifyAppend(a: string, b: string)
    ensures Unify(a + b) == Unify(a) + Unify(b)
  {
    assert forall i :: 0 <= i < |a + b| ==> Unify(a + b)[i] == (Unify(a) + Unify(b))[i];
  }

  /** The first non-empty list, or none. */
  function FirstNonEmpty(lists: seq<seq<string>>): seq<string>
    decreases |lists|
  {
    if |lists| == 0 then []
    else if |lists[0]| > 0 then lists[0]
    else FirstNonEmpty(lists[1..])
  }

  /** The result is empty exactly when every list is, and otherwise it is
      the list at the first non-empty position. */
  lemma {:induction false} FirstNonEmptyIsFirst(lists: seq<seq<string>>)
    ensures FirstNonEmpty(lists) == [] <==> forall i :: 0 <= i < |lists| ==> lists[i] == []
    ensures FirstNonEmpty(lists) != [] ==>
      exists i :: 0 <= i < |lists| && FirstNonEmpty(lists) == lists[i] && forall j :: 0 <= j < i ==> lists[j] == []
    decreases |lists|
  {
    if |lists| > 0 && |lists[0]| == 0 {
      FirstNonEmptyIsFirst(lists[1..]);
      if FirstNonEmpty(lists) != [] {
        var i :| 0 <= i < |lists[1..]| && FirstNonEmpty(lists[1..]) == lists[1..][i]
          && forall j :: 0 <= j < i ==> lists[1..][j] == [];
        assert forall j :: 0 <= j < i + 1 ==> lists[j] == [] by {
          forall j | 0 <= j < i + 1 ensures lists[j] == [] {
            if j > 0 {
              assert lists[j] == lists[1..][j - 1];
            }
          }
        }
        assert FirstNonEmpty(lists) == lists[i + 1];
      }
      if FirstNonEmpty(lists) == [] {
        forall i | 0 <= i < |lists| ensures lists[i] == [] {
          if i > 0 {
            assert lists[i] == lists[1..][i - 1];
          }
        }
      }
    }
  }

  /** The three places a route may keep its tags. */
  datatype RouteTags = RouteTags(tag: TagValue, tags: TagValue, pathLabel: TagValue)

  /** `extractRouteTags`: the first non-empty normalized list among `tag`,
      `tags` and `pathLabel`; nothing for a missing route. */
  function ExtractRouteTags(route: Option<RouteTags>): seq<string> {
    match route
    case None => []
    case Some(r) =>
      FirstNonEmpty([NormalizeTagList(r.tag), NormalizeTagList(r.tags), NormalizeTagList(r.pathLabel)])
  }

  // ------------------------------------------------------- bundled routes

  /** A route as `parseRoutesCSV` builds it: the tag list and, beside it,
      the same list joined with "|". */
  datatype CsvRoute = CsvRoute(domain: string, id: string, moduleName: string, title: string, url: string,
                               tag: seq<string>, tags: string, description: string, status: string)

  /** Where `extractRouteTags` looks for the tags of a parsed route; a
      parsed route has no `pathLabel`. */
  function TagsOf(r: CsvRoute): RouteTags {
    RouteTags(TagArray(r.tag), TagString(r.tags), Missing)
  }

  /** The record of one row: the tag column goes through
      `normalizeTagList`; `domain`, `id` and `title` must be present; a
      missing status reads as "active". */
  function BuildCsvRoute(values: seq<string>): (r: Option<CsvRoute>)
    ensures r.Some? <==> Csv.At(values, 0) != "" && Csv.At(values, 1) != "" && Csv.At(values, 3) != ""
    ensures r.Some? ==>
      && r.value.domain == Csv.At(values, 0) && r.value.id == Csv.At(values, 1)
      && r.value.title == Csv.At(values, 3) && r.value.status != ""
      && r.value.tag == NormalizeTagList(TagString(Csv.At(values, 5))) && r.value.tags == Join(r.value.tag, "|")
  {
    var tagList := NormalizeTagList(TagString(Csv.At(values, 5)));
    var route := CsvRoute(Csv.At(values, 0), Csv.At(values, 1), Csv.At(values, 2), Csv.At(values, 3),
                          Csv.At(values, 4), tagList, Join(tagList, "|"), Csv.At(values, 6),
                          Csv.OrElse(Csv.At(values, 7), "active"));
    if route.domain != "" && route.id != "" && route.title != "" then Some(route) else None
  }

  /** The separator `parseRoutesCSV` splits the file on: a backslash
      followed by the letter n, two characters, not a line break. */
  const LiteralBackslashN: string := ['\\', 'n']

  /** `parseRoutesCSV` as written: the text is cut at the two-character
      sequence backslash-n, the first piece is the header, and the rows
      with eight fields or more whose record has a domain, an id and a
      title are kept. */
  function ParseRoutesCsv(text: string): seq<CsvRoute> {
    var lines := Csv.Lines(text, LiteralBackslashN);
    if |lines| <= 1 then [] else Csv.Rows(lines[1..], 8, BuildCsvRoute)
  }

  /** The loop of `parseRoutesCSV`. */
  method LoadRoutesCsv(text: string) returns (routes: seq<CsvRoute>)
    ensures routes == ParseRoutesCsv(text)
  {
    var lines := Csv.Lines(text, LiteralBackslashN);
    if |lines| <= 1 {
      return [];
    }
    routes := Csv.ParseRows(lines[1..], 8, BuildCsvRoute);
  }

  /** Every parsed route comes from one data line and has a domain, an id,
      a title and a status; its tags are what `extractRouteTags` finds. */
  lemma ParseRoutesCsvSound(text: string)
    ensures forall r :: r in ParseRoutesCsv(text) ==>
      r.domain != "" && r.id != "" && r.title != "" && r.status != ""
      && ExtractRouteTags(Some(TagsOf(r))) == r.tag
  {
    var lines := Csv.Lines(text, LiteralBackslashN);
    if |lines| > 1 {
      var rows := ParseRoutesCsv(text);
      Csv.RowsSound(lines[1..], 8, BuildCsvRoute);
      forall j | 0 <= j < |rows|
        ensures rows[j].domain != "" && rows[j].id != "" && rows[j].title != "" && rows[j].status != ""
        ensures ExtractRouteTags(Some(TagsOf(rows[j]))) == rows[j].tag
      {
        var k :| 0 <= k < |lines[1..]| && Csv.Builds(lines[1..][k], 8, BuildCsvRoute, rows[j]);
        TagListShape(TagString(Csv.At(Csv.Fields(lines[1..][k]), 5)));
        ParsedTagsRead(rows[j]);
      }
    }
  }

  /** A route whose tag list came out of `normalizeTagList` and whose
      `tags` is that list joined with "|" yields the list again. */
  lemma ParsedTagsRead(r: CsvRoute)
    requires r.tags == Join(r.tag, "|")
    requires forall k :: 0 <= k < |r.tag| ==> r.tag[k] != "" && IsTrimmed(r.tag[k])
    ensures ExtractRouteTags(Some(TagsOf(r))) == r.tag
  {
    TrimAllTrimmed(r.tag);
    NonEmptyAll(r.tag);
    if |r.tag| == 0 {
      assert Join(r.tag, "|") == "";
      var lists := [NormalizeTagList(TagArray(r.tag)), NormalizeTagList(TagString(r.tags)), NormalizeTagList(Missing)];
      assert lists[0] == [] && lists[1] == [] && lists[2] == [];
      FirstNonEmptyIsFirst(lists);
    }
  }

  /** A piece without the separator's first character is never cut. */
  lemma {:induction false} SplitMissing(s: string, sep: string)
    requires |sep| > 0 && sep[0] !in s
    ensures Split(s, sep) == [s]
    decreases |s|
  {
    if |s| >= |sep| {
      assert s[0] != sep[0];
      SplitMissing(s[1..], sep);
      assert [s[0]] + s[1..] == s;
    }
  }

  /** A file without a backslash is a single "line", so `parseRoutesCSV`
      finds no routes in it however many real lines it has. */
  lemma ParseRoutesCsvIgnoresNewlines(text: string)
    requires '\\' !in text
    ensures ParseRoutesCsv(text) == []
  {
    TrimFree(text, '\\');
    SplitMissing(Trim(text), LiteralBackslashN);
    assert Csv.Lines(text, LiteralBackslashN) == [Trim(text)];
  }

  /** The route file read with real line breaks. */
  function ParseRoutesCsvLines(text: string): seq<CsvRoute> {
    var lines := Csv.Lines(text, "\n");
    if |lines| <= 1 then [] else Csv.Rows(lines[1..], 8, BuildCsvRoute)
  }

  /** A header line and one valid data line: read on line breaks, the file
      yields the row's route; read as written, it yields nothing. */
  lemma OneRouteFile(header: string, line: string, r: CsvRoute)
    requires header != "" && !IsWhite(header[0]) && line != "" && !IsWhite(line[0]) && !IsWhite(line[|line| - 1])
    requires '\n' !in header && '\n' !in line && '\\' !in header && '\\' !in line
    requires |Csv.Fields(line)| >= 8 && BuildCsvRoute(Csv.Fields(line)) == Some(r)
    ensures ParseRoutesCsvLines(header + "\n" + line) == [r]
    ensures ParseRoutesCsv(header + "\n" + line) == []
  {
    ReadOnLineBreaks(header, line, r);
    BackslashFree(header, line);
    ParseRoutesCsvIgnoresNewlines(header + "\n" + line);
  }

  lemma ReadOnLineBreaks(header: string, line: string, r: CsvRoute)
    requires header != "" && !IsWhite(header[0]) && line != "" && !IsWhite(line[0]) && !IsWhite(line[|line| - 1])
    requires '\n' !in header && '\n' !in line
    requires |Csv.Fields(line)| >= 8 && BuildCsvRoute(Csv.Fields(line)) == Some(r)
    ensures ParseRoutesCsvLines(header + "\n" + line) == [r]
  {
    TwoLines(header, line);
    OneRow(line, r);
    assert Csv.Lines(header + "\n" + line, "\n")[1..] == [line];
  }

  lemma BackslashFree(header: string, line: string)
    requires '\\' !in header && '\\' !in line
    ensures '\\' !in header + "\n" + line
  {
  }

  lemma TwoLines(header: string, line: string)
    requires header != "" && !IsWhite(header[0]) && line != "" && !IsWhite(line[|line| - 1])
    requires '\n' !in header && '\n' !in line
    ensures Csv.Lines(header + "\n" + line, "\n") == [header, line]
  {
    var text := header + "\n" + line;
    assert text[0] == header[0] && text[|text| - 1] == line[|line| - 1];
    TrimKeepsTrimmed(text);
    SplitAfterPiece(header, '\n', line);
    SplitNoSeparator(line, '\n');
  }

  lemma OneRow(line: string, r: CsvRoute)
    requires line != "" && !IsWhite(line[0])
    requires |Csv.Fields(line)| >= 8 && BuildCsvRoute(Csv.Fields(line)) == Some(r)
    ensures Csv.Rows([line], 8, BuildCsvRoute) == [r]
  {
    var lines := [line];
    TrimNotEmpty(line);
    assert lines[..0] == [];
    assert Csv.RowOf(line, 8, BuildCsvRoute) == Csv.Kept(Some(r));
  }

  // ------------------------------------------------------- module colours

  const TwoTo31: int := 0x8000_0000
  const TwoTo32: int := 0x1_0000_0000

  predicate IsInt32(x: int) {
    -TwoTo31 <= x < TwoTo31
  }

  /** JavaScript's ToInt32: the 32-bit two's-complement integer congruent
      to `x` modulo 2^32. */
  function ToInt32(x: int): (r: int)
    ensures IsInt32(r)
    ensures (x - r) % TwoTo32 == 0
  {
    var m := x % TwoTo32;
    if m >= TwoTo31 then m - TwoTo32 else m
  }

  /** One step of `simpleHash`: `(hash << 5) - hash + code` truncated to 32
      bits by `hash & hash`. The shift already wraps to 32 bits. */
  function HashStep(hash: int, c: char): int {
    ToInt32(ToInt32(hash * 32) - hash + c as int)
  }

  /** The 32-bit hash of a string, one character after the other. */
  function Hash(s: string): (h: int)
    ensures IsInt32(h)
    decreases |s|
  {
    if |s| == 0 then 0 else HashStep(Hash(s[..|s| - 1]), s[|s| - 1])
  }

  /** `Math.abs(hash % 10)`, where `%` keeps the sign of the dividend. */
  function Bucket(hash: int): (b: nat)
    ensures b < 10
  {
    if hash >= 0 then hash % 10 else (-hash) % 10
  }

  /** `simpleHash`: the hash loop, then the colour bucket. */
  method SimpleHash(s: string) returns (bucket: nat)
    ensures bucket == Bucket(Hash(s)) && bucket <= 9
  {
    var hash := 0;
    for i := 0 to |s|
      invariant hash == Hash(s[..i])
    {
      assert s[..i + 1][..i] == s[..i];
      hash := ToInt32(ToInt32(hash * 32) - hash + s[i] as int);
    }
    assert s[..|s|] == s;
    bucket := if hash >= 0 then hash % 10 else (-hash) % 10;
  }

  /** Each hash step is the 31-multiplier string hash step modulo 2^32. */
  lemma HashStepIsPolynomial(hash: int, c: char)
    ensures HashStep(hash, c) == ToInt32(31 * hash + c as int)
  {
    var a := ToInt32(hash * 32);
    assert (hash * 32 - a) % TwoTo32 == 0;
    SameInt32(a - hash + c as int, 31 * hash + c as int);
  }

  /** Numbers congruent modulo 2^32 have the same ToInt32. */
  lemma SameInt32(x: int, y: int)
    requires (x - y) % TwoTo32 == 0
    ensures ToInt32(x) == ToInt32(y)
  {
    var q := (x - y) / TwoTo32;
    assert x == y + q * TwoTo32;
    assert x % TwoTo32 == y % TwoTo32 by {
      ShiftMod(y, q);
    }
  }

  lemma ShiftMod(y: int, q: int)
    ensures (y + q * TwoTo32) % TwoTo32 == y % TwoTo32
  {
  }

  /** `getModuleClass`: "dynamic-0" for a missing module, otherwise the
      bucket of the lower-cased, accent-free name. */
  function ModuleClass(moduleName: string): (cls: string)
    ensures |cls| == 9 && cls[..8] == "dynamic-" && '0' <= cls[8] <= '9'
    ensures moduleName == "" ==> cls == "dynamic-0"
  {
    if moduleName == "" then "dynamic-0"
    else "dynamic-" + NatToString(Bucket(Hash(RemoveAccents(LowerStr(moduleName)))))
  }

  /** The colour ignores letter case: a name and its upper-case spelling
      get the same class. */
  lemma ModuleClassIgnoresCase(moduleName: string)
    ensures ModuleClass(UpperStr(moduleName)) == ModuleClass(moduleName)
  {
    assert LowerStr(UpperStr(moduleName)) == LowerStr(moduleName) by {
      forall i | 0 <= i < |moduleName|
        ensures LowerStr(UpperStr(moduleName))[i] == LowerStr(moduleName)[i]
      {
        LowerOfUpper(moduleName[i]);
      }
    }
  }

  lemma LowerOfUpper(c: char)
    ensures Lower(Upper(c)) == Lower(c)
  {
  }

  /** A small instance: the hash of "a" is 97, in bucket 7. */
  lemma ModuleClassOfA()
    ensures ModuleClass("a") == "dynamic-7"
  {
    assert LowerStr("a") == "a";
    assert RemoveAccents("a") == "a";
    assert Hash("a") == HashStep(Hash(""), 'a');
  }

  // -------------------------------------------------------------- domains

  /** `normalizeDomain`: lower-cased, without one leading "www.". */
  function NormalizeDomain(domain: string): string {
    if domain == "" then ""
    else
      var d := LowerStr(domain);
      if StartsWith(d, "www.") then d[4..] else d
  }

  /** A normalized domain is a lower-case suffix of the lower-cased
      domain, shorter by "www." or not at all. */
  lemma NormalizeDomainShape(domain: string)
    ensures LowerStr(NormalizeDomain(domain)) == NormalizeDomain(domain)
    ensures LowerStr(domain) == NormalizeDomain(domain) || LowerStr(domain) == "www." + NormalizeDomain(domain)
  {
    var d := LowerStr(domain);
    LowerIdempotent(domain);
    if StartsWith(d, "www.") {
      assert d == d[..4] + d[4..];
      assert forall i :: 0 <= i < |d[4..]| ==> LowerStr(d[4..])[i] == LowerStr(d)[i + 4];
    }
  }

  /** A site and its "www." host name are the same domain, whatever the
      letter case. */
  lemma NormalizeDomainWww(domain: string)
    requires !StartsWith(LowerStr(domain), "www.")
    ensures NormalizeDomain("WWW." + domain) == NormalizeDomain("www." + domain) == NormalizeDomain(domain)
  {
    LowerAppend("WWW.", domain);
    LowerAppend("www.", domain);
    assert LowerStr("WWW.") == "www." && LowerStr("www.") == "www.";
    var d := "www." + LowerStr(domain);
    assert d[..4] == "www." && d[4..] == LowerStr(domain);
    if domain == "" {
      assert NormalizeDomain("www." + domain) == "";
    }
  }

  lemma LowerAppend(a: string, b: string)
    ensures LowerStr(a + b) == LowerStr(a) + LowerStr(b)
  {
    assert forall i :: 0 <= i < |a + b| ==> LowerStr(a + b)[i] == (LowerStr(a) + LowerStr(b))[i];
  }

  // ------------------------------------------------------- ranking context

  /** The category the static cache is keyed under by default. */
  const StaticCacheCategory: string := "all"

  /** The sources whose nodes may be cached: only "static". */
  predicate CacheEligibleSource(source: string) {
    source == "static"
  }

  predicate AllStatic(nodes: seq<Ranking.Node>) {
    forall i :: 0 <= i < |nodes| ==> CacheEligibleSource(nodes[i].source)
  }

  /** The empty context `{}`. */
  const NoContext: Ranking.RankingContext := Ranking.RankingContext(false, "", None)

  /** `buildRankingContext`: a cacheable context, keyed by the active
      category (or "all") and the query and versioned by the static
      version, when the query is non-empty and every node is static;
      otherwise no context. */
  function BuildRankingContext(query: string, nodes: seq<Ranking.Node>, activeCategory: string,
                               staticVersion: int): (c: Ranking.RankingContext)
    ensures c.cacheEligible <==> query != "" && |nodes| > 0 && AllStatic(nodes)
    ensures !c.cacheEligible ==> c == NoContext
    ensures c.cacheEligible ==> c.cacheVersion == Some(staticVersion) && |c.cacheKey| >= 3
  {
    if query == "" || |nodes| == 0 then NoContext
    else if !AllStatic(nodes) then NoContext
    else Ranking.RankingContext(true, Ranking.BuildCacheKey(query, Csv.OrElse(activeCategory, StaticCacheCategory)),
                                Some(staticVersion))
  }

  /** Within one active category, two queries share a cached result list
      exactly when they normalize to the same text; no category and the
      category "all" share the cache. */
  lemma ContextKeys(q1: string, q2: string, nodes: seq<Ranking.Node>, category: string, v: int)
    requires ':' !in Ranking.NormalizeKeyCategory(Csv.OrElse(category, StaticCacheCategory))
    requires BuildRankingContext(q1, nodes, category, v).cacheEligible
    requires BuildRankingContext(q2, nodes, category, v).cacheEligible
    ensures BuildRankingContext(q1, nodes, category, v).cacheKey == BuildRankingContext(q2, nodes, category, v).cacheKey
      <==> Ranking.NormalizeQuery(q1) == Ranking.NormalizeQuery(q2)
    ensures BuildRankingContext(q1, nodes, "", v) == BuildRankingContext(q1, nodes, StaticCacheCategory, v)
  {
    var c := Csv.OrElse(category, StaticCacheCategory);
    Ranking.CacheKeyInjective(q1, c, q2, c);
  }

  /** What an open overlay shows again once the nodes change, with the
      engine's cache after it: the default list for a blank search text,
      otherwise `rankResults` of the text under its ranking context. */
  function RenderOutcome(query: string, nodes: seq<Ranking.Node>, activeCategory: string, staticVersion: int,
                         freq: Ranking.Frequency, clock: Ranking.Clock, now: int,
                         store: map<string, Ranking.CacheEntry>, ttl: int, cap: nat): Ranking.Ranked
  {
    if query == "" then Ranking.Ranked(Ranking.DefaultResults(nodes, freq, clock, cap), store)
    else Ranking.RankOutcome(query, nodes, BuildRankingContext(query, nodes, activeCategory, staticVersion),
                             freq, clock, now, store, ttl, cap)
  }

  // ------------------------------------------------------------ shortcuts

  /** A keyboard shortcut: four modifier flags and a lower-case key name. */
  datatype Shortcut = Shortcut(meta: bool, ctrl: bool, shift: bool, alt: bool, key: string)

  /** A stored shortcut preference: the flags as their truthiness, and the
      key when it is a string. */
  datatype ShortcutData = ShortcutData(meta: bool, ctrl: bool, shift: bool, alt: bool, key: Option<string>)

  /** A key press: the key name and the four modifier states. */
  datatype KeyPress = KeyPress(key: string, alt: bool, meta: bool, ctrl: bool, shift: bool)

  /** Ctrl+Shift+K. */
  const DefaultShortcut: Shortcut := Shortcut(false, true, true, false, "k")

  /** `normalizeShortcut`: the default when nothing is stored; otherwise
      the flags, and the key lower-cased or "k" when it is not a string. */
  function NormalizeShortcut(data: Option<ShortcutData>): (s: Shortcut)
    ensures data.None? ==> s == DefaultShortcut
  {
    match data
    case None => DefaultShortcut
    case Some(d) => Shortcut(d.meta, d.ctrl, d.shift, d.alt,
                             match d.key case Some(k) => LowerStr(k) case None => DefaultShortcut.key)
  }

  /** The preference a shortcut is stored as. */
  function AsData(s: Shortcut): ShortcutData {
    ShortcutData(s.meta, s.ctrl, s.shift, s.alt, Some(s.key))
  }

  /** Normalizing a normalized shortcut changes nothing. */
  lemma NormalizeShortcutIdempotent(data: Option<ShortcutData>)
    ensures NormalizeShortcut(Some(AsData(NormalizeShortcut(data)))) == NormalizeShortcut(data)
  {
    match data
    case None =>
      assert LowerStr("k") == "k";
    case Some(d) =>
      match d.key
      case Some(k) => LowerIdempotent(k);
      case None => assert LowerStr("k") == "k";
  }

  /** `normalizeKey` of the content script: "" stays "", one character is
      lower-cased, the four arrow keys get their lower-case names and any
      other name is lower-cased. */
  function NormalizeKey(key: string): string {
    if key == "" then ""
    else if |key| == 1 then LowerStr(key)
    else if key == "ArrowUp" then "arrowup"
    else if key == "ArrowDown" then "arrowdown"
    else if key == "ArrowLeft" then "arrowleft"
    else if key == "ArrowRight" then "arrowright"
    else LowerStr(key)
  }

  /** Every branch of `normalizeKey` is plain lower-casing. */
  lemma NormalizeKeyIsLower(key: string)
    ensures NormalizeKey(key) == LowerStr(key)
  {
    if key == "ArrowUp" {
      assert LowerStr(key) == "arrowup";
    } else if key == "ArrowDown" {
      assert LowerStr(key) == "arrowdown";
    } else if key == "ArrowLeft" {
      assert LowerStr(key) == "arrowleft";
    } else if key == "ArrowRight" {
      assert LowerStr(key) == "arrowright";
    }
  }

  /** `matchesShortcut`: no shortcut matches nothing; otherwise the
      normalized key and all four modifiers must agree. */
  function MatchesShortcut(press: KeyPress, shortcut: Option<Shortcut>): bool {
    match shortcut
    case None => false
    case Some(s) =>
      s.key == NormalizeKey(press.key) && press.alt == s.alt && press.meta == s.meta
      && press.ctrl == s.ctrl && press.shift == s.shift
  }

  /** A stored preference matches a key press exactly when the modifiers
      agree and the keys are equal up to letter case. */
  lemma MatchesStoredShortcut(press: KeyPress, d: ShortcutData, k: string)
    requires d.key == Some(k)
    ensures MatchesShortcut(press, Some(NormalizeShortcut(Some(d)))) <==>
      LowerStr(press.key) == LowerStr(k) && press.alt == d.alt && press.meta == d.meta
      && press.ctrl == d.ctrl && press.shift == d.shift
  {
    NormalizeKeyIsLower(press.key);
  }

  /** The default shortcut fires on Ctrl+Shift+K with either letter case,
      and not without Shift. */
  lemma DefaultShortcutMatches()
    ensures MatchesShortcut(KeyPress("K", false, false, true, true), Some(DefaultShortcut))
    ensures MatchesShortcut(KeyPress("k", false, false, true, true), Some(DefaultShortcut))
    ensures !MatchesShortcut(KeyPress("k", false, false, true, false), Some(DefaultShortcut))
  {
    assert LowerStr("K") == "k" && LowerStr("k") == "k";
  }

  // -------------------------------------------------------- usage counters

  /** The key of a per-hour or per-weekday counter: "<id>:<n>". */
  function SlotKey(id: string, n: nat): string {
    id + ":" + NatToString(n)
  }

  /** The number after the last colon of a slot key is the slot, and what
      precedes it is the id, so two slot keys agree only when both parts
      do. */
  lemma SlotKeyInjective(id1: string, n1: nat, id2: string, n2: nat)
    requires SlotKey(id1, n1) == SlotKey(id2, n2)
    ensures id1 == id2 && NatToString(n1) == NatToString(n2)
  {
    var k := SlotKey(id1, n1);
    LastColon(id1, n1);
    LastColon(id2, n2);
    assert |id1| == |id2|;
    assert id1 == k[..|id1|] && id2 == k[..|id2|];
    assert NatToString(n1) == k[|id1| + 1..] && NatToString(n2) == k[|id2| + 1..];
  }

  /** The colon after the id is the last colon of a slot key. */
  lemma LastColon(id: string, n: nat)
    ensures var k := SlotKey(id, n);
      |id| < |k| && k[|id|] == ':' && forall i :: |id| < i < |k| ==> k[i] != ':'
  {
    var k := SlotKey(id, n);
    var digits := NatToString(n);
    assert forall i :: |id| < i < |k| ==> k[i] == digits[i - |id| - 1];
  }

  /** The frequency record after one use of `id` at `now`, in local hour
      `hour` and weekday `day`, when the use count becomes `count`. */
  function Recorded(freq: Ranking.Frequency, id: string, now: int, hour: nat, day: nat, count: int): Ranking.Frequency {
    var timeKey := SlotKey(id, hour);
    var dayKey := SlotKey(id, day);
    Ranking.Frequency(
      freq.lastAccess[id := now],
      freq.accessCount[id := count],
      freq.timeOfDay[timeKey := Legacy.UsageOf(freq.timeOfDay, timeKey) + 1],
      freq.weekday[dayKey := Legacy.UsageOf(freq.weekday, dayKey) + 1])
  }

  /** One use stamps the access time, sets the access count, adds exactly
      one to the id's counter for that hour and that weekday, and leaves
      every other counter, including other ids' counters for the same hour
      or weekday, as it was. */
  lemma RecordedCounts(freq: Ranking.Frequency, id: string, now: int, hour: nat, day: nat, count: int)
    ensures var f := Recorded(freq, id, now, hour, day, count);
      && f.lastAccess[id] == now && f.accessCount[id] == count
      && Legacy.UsageOf(f.timeOfDay, SlotKey(id, hour)) == Legacy.UsageOf(freq.timeOfDay, SlotKey(id, hour)) + 1
      && Legacy.UsageOf(f.weekday, SlotKey(id, day)) == Legacy.UsageOf(freq.weekday, SlotKey(id, day)) + 1
      && (forall other, h: nat :: other != id ==>
            Legacy.UsageOf(f.timeOfDay, SlotKey(other, h)) == Legacy.UsageOf(freq.timeOfDay, SlotKey(other, h)))
      && (forall other, d: nat :: other != id ==>
            Legacy.UsageOf(f.weekday, SlotKey(other, d)) == Legacy.UsageOf(freq.weekday, SlotKey(other, d)))
      && (forall other :: other != id ==> Legacy.UsageOf(f.accessCount, other) == Legacy.UsageOf(freq.accessCount, other))
  {
    forall other, h: nat | other != id ensures SlotKey(other, h) != SlotKey(id, hour) && SlotKey(other, h) != SlotKey(id, day) {
      if SlotKey(other, h) == SlotKey(id, hour) {
        SlotKeyInjective(other, h, id, hour);
      }
      if SlotKey(other, h) == SlotKey(id, day) {
        SlotKeyInjective(other, h, id, day);
      }
    }
  }

  /** What a use queues for storage: the access time, count, hour and
      weekday of the use. */
  datatype Snapshot = Snapshot(lastAccess: int, count: int, timeOfDay: nat, weekday: nat)

  /** A queued usage update. */
  datatype PendingUsage = PendingUsage(usage: int, frequency: Snapshot)

  /** A value written to storage by the usage flush. */
  datatype Stored = StoredUsage(count: int) | StoredFrequency(snapshot: Snapshot)

  /** The storage key of an id's use count. */
  function UsageKey(id: string): string {
    "usage:" + id
  }

  /** The storage key of an id's frequency snapshot. */
  function FreqKey(id: string): string {
    "freq:" + id
  }

  /** The batch written for the ids `ids` of a pending map: both keys of
      every such id with their values, and no other key. */
  ghost predicate PersistedFor(payload: map<string, Stored>, pending: map<string, PendingUsage>, ids: set<string>)
    requires ids <= pending.Keys
  {
    && (forall id :: id in ids ==> UsageKey(id) in payload && payload[UsageKey(id)] == StoredUsage(pending[id].usage))
    && (forall id :: id in ids ==> FreqKey(id) in payload && payload[FreqKey(id)] == StoredFrequency(pending[id].frequency))
    && (forall k :: k in payload ==> exists id :: id in ids && (k == UsageKey(id) || k == FreqKey(id)))
  }

  /** The batch of a whole pending map. */
  ghost predicate Persisted(payload: map<string, Stored>, pending: map<string, PendingUsage>) {
    PersistedFor(payload, pending, pending.Keys)
  }

  lemma KeysApart(a: string, b: string)
    ensures UsageKey(a) != FreqKey(b)
    ensures UsageKey(a) == UsageKey(b) ==> a == b
    ensures FreqKey(a) == FreqKey(b) ==> a == b
  {
    assert UsageKey(a)[0] == 'u' && FreqKey(b)[0] == 'f';
    if UsageKey(a) == UsageKey(b) {
      assert a == UsageKey(a)[6..] && b == UsageKey(b)[6..];
    }
    if FreqKey(a) == FreqKey(b) {
      assert a == FreqKey(a)[5..] && b == FreqKey(b)[5..];
    }
  }

  /** The payload loop of `flushUsageUpdates`. */
  method BuildPayload(pending: map<string, PendingUsage>) returns (payload: map<string, Stored>)
    ensures Persisted(payload, pending)
  {
    payload := map[];
    var todo := pending.Keys;
    ghost var done: set<string> := {};
    while todo != {}
      invariant todo + done == pending.Keys && todo !! done
      invariant PersistedFor(payload, pending, done)
      decreases |todo|
    {
      var id :| id in todo;
      MoveOne(todo, done, pending.Keys, id);
      payload := PutBoth(payload, pending, id, done);
      todo := todo - {id};
      done := done + {id};
    }
  }

  /** Moving one id from the ids to do to the ids done keeps the two apart
      and together the whole key set. */
  lemma MoveOne(todo: set<string>, done: set<string>, keys: set<string>, id: string)
    requires todo + done == keys && todo !! done && id in todo
    ensures (todo - {id}) + (done + {id}) == keys && (todo - {id}) !! (done + {id})
    ensures |todo - {id}| < |todo| && done + {id} <= keys && id !in done
  {
  }

  /** One pass of the payload loop: the usage and frequency entries of `id`. */
  method PutBoth(payload: map<string, Stored>, pending: map<string, PendingUsage>, id: string, ghost done: set<string>)
    returns (next: map<string, Stored>)
    requires done <= pending.Keys && id in pending && id !in done
    requires PersistedFor(payload, pending, done)
    ensures next == payload[UsageKey(id) := StoredUsage(pending[id].usage)][FreqKey(id) := StoredFrequency(pending[id].frequency)]
    ensures PersistedFor(next, pending, done + {id})
  {
    AddPersisted(payload, pending, done, id);
    next := payload[UsageKey(id) := StoredUsage(pending[id].usage)][FreqKey(id) := StoredFrequency(pending[id].frequency)];
  }

  /** Writing both keys of one more id extends the batch to that id. */
  lemma AddPersisted(payload: map<string, Stored>, pending: map<string, PendingUsage>, done: set<string>, id: string)
    requires done <= pending.Keys && id in pending && id !in done
    requires PersistedFor(payload, pending, done)
    ensures PersistedFor(payload[UsageKey(id) := StoredUsage(pending[id].usage)][FreqKey(id) := StoredFrequency(pending[id].frequency)],
                         pending, done + {id})
  {
    var p := payload[UsageKey(id) := StoredUsage(pending[id].usage)][FreqKey(id) := StoredFrequency(pending[id].frequency)];
    AddKeepsWritten(payload, pending, done, id);
    forall k | k in p ensures exists x :: x in done + {id} && (k == UsageKey(x) || k == FreqKey(x)) {
      if k != UsageKey(id) && k != FreqKey(id) {
        assert k in payload;
      }
    }
  }

  /** The two writes for `id` leave the entries of the other ids alone. */
  lemma AddKeepsWritten(payload: map<string, Stored>, pending: map<string, PendingUsage>, done: set<string>, id: string)
    requires done <= pending.Keys && id in pending
    requires forall x :: x in done ==> UsageKey(x) in payload && payload[UsageKey(x)] == StoredUsage(pending[x].usage)
    requires forall x :: x in done ==> FreqKey(x) in payload && payload[FreqKey(x)] == StoredFrequency(pending[x].frequency)
    ensures var p := payload[UsageKey(id) := StoredUsage(pending[id].usage)][FreqKey(id) := StoredFrequency(pending[id].frequency)];
      && (forall x :: x in done + {id} ==> UsageKey(x) in p && p[UsageKey(x)] == StoredUsage(pending[x].usage))
      && (forall x :: x in done + {id} ==> FreqKey(x) in p && p[FreqKey(x)] == StoredFrequency(pending[x].frequency))
  {
    var p := payload[UsageKey(id) := StoredUsage(pending[id].usage)][FreqKey(id) := StoredFrequency(pending[id].frequency)];
    forall x | x in done + {id}
      ensures UsageKey(x) in p && p[UsageKey(x)] == StoredUsage(pending[x].usage)
      ensures FreqKey(x) in p && p[FreqKey(x)] == StoredFrequency(pending[x].frequency)
    {
      KeysApart(x, id);
      KeysApart(id, x);
    }
  }

  /** The usage entries of a batch read back through the key prefix, as
      `loadUsageCounts` reads them: the rest of the key is a pending id and
      the value its queued count. */
  lemma PayloadReadsBack(payload: map<string, Stored>, pending: map<string, PendingUsage>)
    requires Persisted(payload, pending)
    ensures forall k :: k in payload && StartsWith(k, "usage:") ==>
      k[6..] in pending && payload[k] == StoredUsage(pending[k[6..]].usage)
  {
    forall k | k in payload && StartsWith(k, "usage:")
      ensures k[6..] in pending && payload[k] == StoredUsage(pending[k[6..]].usage)
    {
      var id :| id in pending && (k == UsageKey(id) || k == FreqKey(id));
      UsageKeyOf(k, id);
    }
  }

  /** A key with the usage prefix is the usage key of the id after it. */
  lemma UsageKeyOf(k: string, id: string)
    requires StartsWith(k, "usage:") && (k == UsageKey(id) || k == FreqKey(id))
    ensures k == UsageKey(id) && k[6..] == id
  {
    assert k[0] == 'u';
    assert FreqKey(id)[0] == 'f';
  }

  // ------------------------------------------------------------ node merge

  /** A node with the stored use count of its id (`usage.get(id) || 0`). */
  function WithUsage(n: Ranking.Node, usage: map<string, int>): Ranking.Node {
    n.(usage := Legacy.UsageOf(usage, n.id))
  }

  /** `node.usage = usage.get(node.id) || 0`, as a function of the node. */
  function Stamp(usage: map<string, int>): Ranking.Node -> Ranking.Node {
    (n: Ranking.Node) => WithUsage(n, usage)
  }

  function NodeId(n: Ranking.Node): string {
    n.id
  }

  /** The `byId` map after the loop of `mergeNodes`. */
  function ById(nodes: seq<Ranking.Node>, usage: map<string, int>): Keyed.Table<Ranking.Node> {
    Keyed.FoldBy(nodes, Stamp(usage), NodeId)
  }

  /** The loop of `mergeNodes`. */
  method FoldNodes(nodes: seq<Ranking.Node>, usage: map<string, int>) returns (m: Keyed.Table<Ranking.Node>)
    ensures m == ById(nodes, usage)
  {
    m := Keyed.Table([], map[]);
    for i := 0 to |nodes|
      invariant m == Keyed.FoldBy(nodes[..i], Stamp(usage), NodeId)
    {
      assert nodes[..i + 1][..i] == nodes[..i];
      var node := nodes[i].(usage := Legacy.UsageOf(usage, nodes[i].id));
      m := Keyed.Table(if node.id in m.entries then m.order else m.order + [node.id], m.entries[node.id := node]);
    }
    assert nodes[..|nodes|] == nodes;
  }

  /** Nodes the overlay can open: a url, or a "click" action. */
  predicate Navigable(n: Ranking.Node) {
    n.url != "" || n.action == "click"
  }

  /** The nodes `mergeNodes` works on: the static ones when there are
      any, otherwise the page's. */
  function MergeSource(staticNodes: seq<Ranking.Node>, domNodes: seq<Ranking.Node>): seq<Ranking.Node> {
    if |staticNodes| > 0 then staticNodes else domNodes
  }

  /** The new `state.nodes`. */
  function Merged(staticNodes: seq<Ranking.Node>, domNodes: seq<Ranking.Node>, usage: map<string, int>): seq<Ranking.Node> {
    var m := ById(MergeSource(staticNodes, domNodes), usage);
    Keyed.FoldWellFormed(MergeSource(staticNodes, domNodes), Stamp(usage), NodeId);
    Keep(Keyed.Values(m), Navigable)
  }

  /** Every merged node can be opened. */
  lemma MergedNavigable(staticNodes: seq<Ranking.Node>, domNodes: seq<Ranking.Node>, usage: map<string, int>)
    ensures forall n :: n in Merged(staticNodes, domNodes, usage) ==> Navigable(n)
  {
    var src := MergeSource(staticNodes, domNodes);
    Keyed.FoldWellFormed(src, Stamp(usage), NodeId);
    KeepMembers(Keyed.Values(ById(src, usage)), Navigable);
  }

  /** No two merged nodes share an id. */
  lemma MergedIdsDistinct(staticNodes: seq<Ranking.Node>, domNodes: seq<Ranking.Node>, usage: map<string, int>)
    ensures var r := Merged(staticNodes, domNodes, usage);
      forall i, j :: 0 <= i < j < |r| ==> r[i].id != r[j].id
  {
    var src := MergeSource(staticNodes, domNodes);
    Keyed.FoldWellFormed(src, Stamp(usage), NodeId);
    var m := ById(src, usage);
    Keyed.ValuesKeysDistinct(m, NodeId);
    Keyed.KeepKeysDistinct(Keyed.Values(m), Navigable, NodeId);
  }

  /** No later node has the same id as `nodes[i]`. */
  ghost predicate LastOf(nodes: seq<Ranking.Node>, i: int)
    requires 0 <= i < |nodes|
  {
    forall j :: i < j < |nodes| ==> nodes[j].id != nodes[i].id
  }

  /** The last node of each id in the source that can be opened is
      merged, with its stored use count. */
  lemma MergedComplete(staticNodes: seq<Ranking.Node>, domNodes: seq<Ranking.Node>, usage: map<string, int>)
    ensures var src := MergeSource(staticNodes, domNodes);
      forall i :: 0 <= i < |src| && LastOf(src, i) && Navigable(src[i]) ==>
        WithUsage(src[i], usage) in Merged(staticNodes, domNodes, usage)
  {
    var src := MergeSource(staticNodes, domNodes);
    Keyed.FoldValues(src, Stamp(usage), NodeId);
    var vs := Keyed.Values(ById(src, usage));
    KeepMembers(vs, Navigable);
    forall i | 0 <= i < |src| && LastOf(src, i) && Navigable(src[i])
      ensures WithUsage(src[i], usage) in Keep(vs, Navigable)
    {
      assert Keyed.LastOf(src, Stamp(usage), NodeId, i);
    }
  }

  /** Every merged node is the last node of its id in the source, with
      its stored use count. */
  lemma MergedLastWins(staticNodes: seq<Ranking.Node>, domNodes: seq<Ranking.Node>, usage: map<string, int>)
    ensures var src := MergeSource(staticNodes, domNodes);
      forall n :: n in Merged(staticNodes, domNodes, usage) ==>
        exists i :: 0 <= i < |src| && LastOf(src, i) && n == WithUsage(src[i], usage)
  {
    var src := MergeSource(staticNodes, domNodes);
    Keyed.FoldValues(src, Stamp(usage), NodeId);
    var vs := Keyed.Values(ById(src, usage));
    KeepMembers(vs, Navigable);
    forall n | n in Keep(vs, Navigable)
      ensures exists i :: 0 <= i < |src| && LastOf(src, i) && n == WithUsage(src[i], usage)
    {
      var i :| 0 <= i < |src| && Keyed.LastOf(src, Stamp(usage), NodeId, i) && n == Stamp(usage)(src[i]);
      assert LastOf(src, i);
    }
  }

  /** With static nodes present the page's nodes play no part: every
      merged node is a static node. */
  lemma MergedIgnoresDom(staticNodes: seq<Ranking.Node>, domNodes: seq<Ranking.Node>, usage: map<string, int>)
    requires |staticNodes| > 0
    ensures forall n :: n in Merged(staticNodes, domNodes, usage) ==>
      exists i :: 0 <= i < |staticNodes| && n == WithUsage(staticNodes[i], usage)
  {
    MergedLastWins(staticNodes, domNodes, usage);
  }

  // ---------------------------------------------------------------- state

  /** The content script's `state`: whether the overlay is open, the
      rendered results and the selected one, the merged and the static
      nodes, the use counts, the frequency record and the usage updates
      waiting to be written. */
  class Navigator {
    var open: bool
    var results: seq<Ranking.Result>
    var selectedIndex: int
    var nodes: seq<Ranking.Node>
    var staticNodes: seq<Ranking.Node>
    var usageMap: map<string, int>
    var frequencyData: Ranking.Frequency
    var pendingUsageUpdates: map<string, PendingUsage>

    /** The selection points at a rendered result, or is 0 when nothing is
        rendered. */
    ghost predicate Valid()
      reads this
    {
      0 <= selectedIndex && (selectedIndex < |results| || selectedIndex == 0)
    }

    constructor()
      ensures Valid() && !open && results == [] && selectedIndex == 0
      ensures nodes == [] && staticNodes == [] && usageMap == map[] && pendingUsageUpdates == map[]
      ensures frequencyData == Ranking.Frequency(map[], map[], map[], map[])
    {
      open := false;
      results := [];
      selectedIndex := 0;
      nodes := [];
      staticNodes := [];
      usageMap := map[];
      frequencyData := Ranking.Frequency(map[], map[], map[], map[]);
      pendingUsageUpdates := map[];
    }

    /** `renderResults`: shows a list and selects its first entry. */
    method RenderResults(list: seq<Ranking.Result>)
      modifies this
      ensures Valid() && results == list && selectedIndex == 0
      ensures open == old(open) && nodes == old(nodes) && staticNodes == old(staticNodes)
      ensures usageMap == old(usageMap) && frequencyData == old(frequencyData)
      ensures pendingUsageUpdates == old(pendingUsageUpdates)
    {
      results := list;
      selectedIndex := 0;
    }

    /** `incrementUsage` for the selection's id (`""` when there is no
        selection or it has no id, and then nothing changes), at `now`, in
        local hour `hour` and weekday `day`. */
    method IncrementUsage(id: string, now: int, hour: nat, day: nat)
      modifies this
      ensures id == "" ==>
        usageMap == old(usageMap) && frequencyData == old(frequencyData) && pendingUsageUpdates == old(pendingUsageUpdates)
      ensures id != "" ==>
        var next := Legacy.UsageOf(old(usageMap), id) + 1;
        && usageMap == old(usageMap)[id := next]
        && frequencyData == Recorded(old(frequencyData), id, now, hour, day, next)
        && pendingUsageUpdates == old(pendingUsageUpdates)[id := PendingUsage(next, Snapshot(now, next, hour, day))]
      ensures open == old(open) && results == old(results) && selectedIndex == old(selectedIndex)
      ensures nodes == old(nodes) && staticNodes == old(staticNodes)
    {
      if id == "" {
        return;
      }
      var nextValue := Legacy.UsageOf(usageMap, id) + 1;
      usageMap := usageMap[id := nextValue];
      var freq := frequencyData;
      var timeKey := SlotKey(id, hour);
      var dayKey := SlotKey(id, day);
      frequencyData := Ranking.Frequency(
        freq.lastAccess[id := now],
        freq.accessCount[id := nextValue],
        freq.timeOfDay[timeKey := Legacy.UsageOf(freq.timeOfDay, timeKey) + 1],
        freq.weekday[dayKey := Legacy.UsageOf(freq.weekday, dayKey) + 1]);
      QueueUsagePersistence(id, nextValue, Snapshot(now, nextValue, hour, day));
    }

    /** `queueUsagePersistence`: the latest update of an id replaces any
        earlier one still waiting. */
    method QueueUsagePersistence(id: string, usageValue: int, snapshot: Snapshot)
      modifies this
      ensures pendingUsageUpdates == old(pendingUsageUpdates)[id := PendingUsage(usageValue, snapshot)]
      ensures open == old(open) && results == old(results) && selectedIndex == old(selectedIndex)
      ensures nodes == old(nodes) && staticNodes == old(staticNodes)
      ensures usageMap == old(usageMap) && frequencyData == old(frequencyData)
    {
      pendingUsageUpdates := pendingUsageUpdates[id := PendingUsage(usageValue, snapshot)];
    }

    /** `flushUsageUpdates`: nothing to write when no update waits;
        otherwise the batch of every waiting update, after which none
        waits. */
    method FlushUsageUpdates() returns (payload: Option<map<string, Stored>>)
      modifies this
      ensures pendingUsageUpdates == map[]
      ensures old(pendingUsageUpdates) == map[] <==> payload.None?
      ensures payload.Some? ==> Persisted(payload.value, old(pendingUsageUpdates))
      ensures open == old(open) && results == old(results) && selectedIndex == old(selectedIndex)
      ensures nodes == old(nodes) && staticNodes == old(staticNodes)
      ensures usageMap == old(usageMap) && frequencyData == old(frequencyData)
    {
      if |pendingUsageUpdates| == 0 {
        return None;
      }
      var batch := BuildPayload(pendingUsageUpdates);
      pendingUsageUpdates := map[];
      return Some(batch);
    }

    /** `mergeNodes`: the static nodes, or the page's when there are none,
        folded by id with their stored use counts; the ones that can be
        opened become the overlay's nodes. An open overlay then renders
        again for the text `input` of the search field, through the
        ranking `engine` (active category, static version, clock and
        `Date.now()` given), with its first entry selected. */
    method MergeNodes(domNodes: seq<Ranking.Node>, input: string, engine: Ranking.Engine,
                      activeCategory: string, staticVersion: int, clock: Ranking.Clock, now: int)
      requires engine.Valid()
      modifies this, engine
      ensures engine.Valid()
      ensures nodes == Merged(staticNodes, domNodes, usageMap)
      ensures staticNodes == old(staticNodes) && usageMap == old(usageMap)
      ensures frequencyData == old(frequencyData) && pendingUsageUpdates == old(pendingUsageUpdates)
      ensures open == old(open)
      ensures old(open) ==>
                (selectedIndex == 0 && Ranking.Ranked(results, engine.store)
                   == RenderOutcome(Trim(input), nodes, activeCategory, staticVersion, frequencyData, clock, now,
                                    old(engine.store), engine.ttl, engine.maxResults))
      ensures !old(open) ==> results == old(results) && selectedIndex == old(selectedIndex) && engine.store == old(engine.store)
    {
      var nodesToUse := if |staticNodes| > 0 then staticNodes else domNodes;
      var m := FoldNodes(nodesToUse, usageMap);
      Keyed.FoldWellFormed(nodesToUse, Stamp(usageMap), NodeId);
      nodes := Keep(Keyed.Values(m), Navigable);
      if open {
        var query := Trim(input);
        var list;
        if query == "" {
          list := Ranking.DefaultResults(nodes, frequencyData, clock, engine.maxResults);
        } else {
          var context := BuildRankingContext(query, nodes, activeCategory, staticVersion);
          list := engine.RankResults(query, nodes, context, frequencyData, clock, now);
        }
        RenderResults(list);
      }
    }

    /** `closeOverlay`. */
    method CloseOverlay()
      modifies this
      ensures !open
      ensures results == old(results) && selectedIndex == old(selectedIndex)
      ensures nodes == old(nodes) && staticNodes == old(staticNodes)
      ensures usageMap == old(usageMap) && frequencyData == old(frequencyData)
      ensures pendingUsageUpdates == old(pendingUsageUpdates)
    {
      open := false;
    }

    /** `activateSelected`: counts a use of the selected result and closes
        the overlay; nothing happens when no result is selected. Opening
        the result's address is left to the browser. */
    method ActivateSelected(now: int, hour: nat, day: nat) returns (selection: Option<Ranking.Result>)
      requires Valid()
      modifies this
      ensures Valid()
      ensures old(selectedIndex) < |old(results)| ==>
        var chosen := old(results)[old(selectedIndex)];
        && selection == Some(chosen) && !open
        && (chosen.id != "" ==> usageMap == old(usageMap)[chosen.id := Legacy.UsageOf(old(usageMap), chosen.id) + 1])
        && (chosen.id == "" ==> usageMap == old(usageMap))
      ensures old(selectedIndex) >= |old(results)| ==>
        selection == None && open == old(open) && usageMap == old(usageMap)
      ensures results == old(results) && selectedIndex == old(selectedIndex)
      ensures nodes == old(nodes) && staticNodes == old(staticNodes)
    {
      if selectedIndex >= |results| {
        return None;
      }
      var chosen := results[selectedIndex];
      IncrementUsage(chosen.id, now, hour, day);
      CloseOverlay();
      return Some(chosen);
    }

    /** `handleInputKeys`: with nothing rendered only Escape acts (it
        closes); otherwise the arrows move the selection with wrap-around,
        Enter activates the selection, Escape closes and every other key
        (Tab included) changes nothing. */
    method HandleInputKeys(key: string, now: int, hour: nat, day: nat) returns (selection: Option<Ranking.Result>)
      requires Valid()
      modifies this
      ensures Valid()
      ensures results == old(results) && nodes == old(nodes) && staticNodes == old(staticNodes)
      ensures |results| == 0 ==>
        selection == None && selectedIndex == old(selectedIndex) && usageMap == old(usageMap)
        && open == (old(open) && key != "Escape")
      ensures |results| > 0 && key == "ArrowDown" ==>
        selectedIndex == Legacy.NextIndex(old(selectedIndex), |results|) && selection == None && open == old(open)
      ensures |results| > 0 && key == "ArrowUp" ==>
        selectedIndex == Legacy.PrevIndex(old(selectedIndex), |results|) && selection == None && open == old(open)
      ensures |results| > 0 && key == "Enter" ==>
        selection == Some(results[old(selectedIndex)]) && !open && selectedIndex == old(selectedIndex)
      ensures |results| > 0 && key == "Escape" ==> selection == None && !open && selectedIndex == old(selectedIndex)
      ensures key !in {"ArrowDown", "ArrowUp", "Enter", "Escape"} ==>
        selection == None && open == old(open) && selectedIndex == old(selectedIndex)
      ensures key != "Enter" ==>
        usageMap == old(usageMap) && frequencyData == old(frequencyData) && pendingUsageUpdates == old(pendingUsageUpdates)
    {
      selection := None;
      if |results| == 0 {
        if key == "Escape" {
          CloseOverlay();
        }
        return;
      }
      var maxIndex := |results| - 1;
      if key == "ArrowDown" {
        selectedIndex := if selectedIndex >= maxIndex then 0 else selectedIndex + 1;
      } else if key == "ArrowUp" {
        selectedIndex := if selectedIndex <= 0 then maxIndex else selectedIndex - 1;
      } else if key == "Enter" {
        selection := ActivateSelected(now, hour, day);
      } else if key == "Escape" {
        CloseOverlay();
      }
    }
  }
}
