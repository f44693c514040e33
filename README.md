# idpos-search-extension in Dafny

A Dafny model of the data logic of the idpos-search-extension browser
extension. The extension opens a command palette over a web page. The
palette ranks navigation routes, meaning pages of a site, against the typed
query. A set of administration pages keeps the route list in extension
storage and imports and exports it as CSV. Every file of the model is
verified as a whole.

| module | file | models |
|---|---|---|
| `Text` | text.dfy | the string primitives the code leans on: JavaScript white space, `trim`, `split`, `join`, `includes`, ASCII case mapping, `removeAccents` (dropping U+0300..U+036F), code-unit string order |
| `Subseq` | subseq.dfy | the greedy leftmost subsequence walk shared by both fuzzy matchers |
| `Keyed` | keyed.dfy | a JavaScript `Map` filled by `set` and read back by `values()`, as an insertion-ordered list |
| `Sorting` | sorting.dfy | `filter`, `map`, `slice` and a comparator `sort`, with permutation and ordering lemmas |
| `Csv` | csv.dfy | the quote-toggling, trimming line parser and the row loop that scripts/routes-loader.js, scripts/utils.js, manage-routes-old.js and scripts/content-script.js each carry |
| `Ranking` | ranking.dfy | scripts/ranking.js: tokenizer, nine-tier scorer, fuzzy matcher, split-and-sort pipeline, result cache (class `Engine`) |
| `Legacy` | legacy.dfy | content-script.js: the integer-only ranker, path building, node normalization and merge, the overlay's key handling (class `Overlay`) |
| `ContentScript` | content_script.dfy | scripts/content-script.js: tag lists, the route CSV, the module hash, domain and shortcut normalization, ranking context, usage counters and their batched persistence, node merge (class `Navigator`) |
| `RoutesLoader` | routes_loader.dfy | scripts/routes-loader.js: CSV import and the route-to-node mapping |
| `Utils` | utils.dfy | scripts/utils.js: `removeAccents`, `normalizeText`, CSV import, the multi-value selector (class `SmartSelector`) |
| `ManageRoutesOld` | manage_routes_old.dfy | manage-routes-old.js: CSV import and export, statistics and the domain listing (class `RoutesPage`) |
| `ManageCsv` | manage_csv.dfy | manage.js, CSV side: `escapeCSV`, `routesToCSV`, the doubled-quote line parser, `parseCSV` |
| `Manage` | manage.dfy | manage.js, route side: filters and paging, add, edit and delete, the four import modes (class `RouteManager`) |
| `Studio` | studio.dfy | scripts/manage.js: search, delete, form submission, CSV import (class `Navigator`) |
| `Migrate` | migrate.dfy | scripts/migrate-metadata.js: the usage metadata aggregation and its totals |
| `Options` | options.dfy | options.js: recording, normalizing and formatting the keyboard shortcut (class `OptionsPage`) |

Where the source changes state in place, the model does too. A class holds
the module-level variables. Its methods carry the loops, each proved
against a specification function. Lemmas state the properties of those
functions. Browser storage, the clock, confirmation dialogs and
`navigator.platform` become parameters.

## Model

| member | source | states |
|---|---|---|
| Text.RemoveAccentsLeavesNoMark | scripts/utils.js:4-7 | after `removeAccents` no combining mark (U+0300..U+036F) is left |
| Text.RemoveAccentsKeepsPlain | scripts/utils.js:4-7 | a text without combining marks passes through `removeAccents` unchanged |
| Text.RemoveAccentsIdempotent | scripts/utils.js:4-7 | stripping accents twice is stripping them once |
| Text.LowerIdempotent | scripts/ranking.js:349-351 | lower-casing twice is lower-casing once, so normalizing a category is stable |
| Text.ContainsIff | scripts/ranking.js:215-224 | `includes` holds exactly when some position starts the needle |
| Text.SplitJoin | scripts/routes-loader.js:27 | splitting a list joined by a one-character separator that none of its pieces holds gives the pieces back |
| Text.WordsEmptyIffBlank | scripts/utils.js:12-13 | the white-space words of a text are empty exactly when the text is blank |
| Text.CompareStringsTransitive | manage-routes-old.js:82 | the code-unit order of the default `sort` is transitive |
| Text.CompareStringsFlip | manage-routes-old.js:82 | swapping the operands of the code-unit order flips its sign |
| Subseq.LeftmostSound | scripts/ranking.js:302-322 | the positions the greedy walk matches are strictly increasing and carry the matched needle characters |
| Subseq.LeftmostComplete | scripts/ranking.js:302-322 | whenever the first `j` needle characters embed in the haystack, the greedy walk matches at least `j` of them |
| Subseq.LeftmostFullIffSubsequence | scripts/ranking.js:302-322 | the greedy walk matches the whole needle if and only if the needle is a subsequence |
| Keyed.FoldKeys | scripts/content-script.js:1257-1270 | the keys of a `Map` filled by `set` are exactly the keys of the items set |
| Keyed.FoldOrder | scripts/content-script.js:1257-1270 | the `Map` lists its keys in the order of their first `set`: of two listed keys, the earlier one's first item comes first |
| Keyed.FoldLastWins | scripts/content-script.js:1257-1270 | each key of the filled `Map` holds the value of its last `set` |
| Keyed.FoldValues | scripts/content-script.js:1257-1270 | `values()` holds exactly the last value written under each key, and its entry at each position is the last value written under the key listed at that position |
| Keyed.ValuesKeysDistinct | scripts/content-script.js:1257-1270 | the values read back carry distinct keys |
| Sorting.KeepMembers | scripts/ranking.js:138-144 | `filter` keeps exactly the elements that pass, in order |
| Sorting.KeepDropMultiset | scripts/ranking.js:138-144 | the two halves of the split together are a permutation of the collection |
| Sorting.SortBySorted | scripts/ranking.js:138-144 | sorting with a strict order leaves the list sorted by it |
| Sorting.SortKeepsLateLast | scripts/ranking.js:138-144 | sorting a list whose late elements come last keeps them last |
| Sorting.TakeKeepsLateLast | scripts/ranking.js:90-93 | cutting the ranked list keeps the late elements last |
| Sorting.SortKeepsDescending | content-script.js:557 | sorting by decreasing score leaves the scores in decreasing order |
| Csv.ParseLine | scripts/routes-loader.js:87-107 | the line parser's loop returns the fields of the line, at least one |
| Csv.FieldsShape | scripts/routes-loader.js:95-105 | every field is trimmed and holds no quote, since a quote only flips the mode and is dropped |
| Csv.ScanCounts | scripts/routes-loader.js:92-103 | the parser is inside quotes exactly after an odd number of quotes, and has closed one field per comma outside quotes |
| Csv.FieldCount | scripts/routes-loader.js:87-107 | a line has one field more than it has commas outside quotes |
| Csv.ScanAppend | scripts/routes-loader.js:95-102 | a comma-free stretch only grows the current field by its unquoted characters and flips the mode once per quote |
| Csv.ScanComma | scripts/routes-loader.js:97-99 | a comma outside quotes closes the trimmed current field and starts an empty one |
| Csv.FieldsOfJoin | scripts/routes-loader.js:87-107 | a line joined from comma-free cells with an even number of quotes parses into those cells, trimmed and unquoted |
| Csv.FieldsOfJoinAs | scripts/routes-loader.js:87-107 | a line joined from cells that each read back as a value parses into exactly those values |
| Csv.StripQuotesProperties | scripts/routes-loader.js:74 | the quote-stripping `replace` leaves a quote-free text unchanged and takes exactly the outer quotes off a quoted one |
| Csv.ParseRows | scripts/routes-loader.js:60-84 | the row loop returns, in order, the records of the data lines |
| Csv.ReadRow | scripts/routes-loader.js:62-81 | a blank line, a line with too few fields and a row the builder rejects add nothing; otherwise the built record is added |
| Csv.RowsSound | scripts/routes-loader.js:61-82 | every record comes from a non-blank line with enough fields that the builder accepted |
| Csv.RowsAll | scripts/routes-loader.js:61-82 | when every line is non-blank, long enough and accepted, the rows are exactly the built records |
| Csv.RowsMap | scripts/utils.js:264-285 | two importers whose builders agree up to a mapping read the same lines into records that agree up to it |
| Csv.OrElse | scripts/routes-loader.js:69-76 | `s \|\| fallback` is one of the two, and not empty when the fallback is not |
| Csv.NotBlank | scripts/routes-loader.js:74 | `filter(t => t.trim())` keeps only pieces of the input that are not blank |
| Csv.TagColumn | scripts/routes-loader.js:74 | no tag read from the tag column is blank |
| Csv.TagColumnOfJoin | scripts/routes-loader.js:74 | tags joined with `\|` read back from the tag column as the same tags |
| Csv.JoinedTagsCell | manage-routes-old.js:153 | non-empty quote-free tags join into a non-empty cell the quote stripping leaves alone |
| Csv.BuildRoute | scripts/routes-loader.js:68-81 | a row builds a route exactly when domain, id and title are present; the route keeps them, has a status, and no blank tag |
| Csv.RouteRowsComplete | scripts/routes-loader.js:68-81 | every route read from the lines has a domain, id, title and status and no blank tag |
| RoutesLoader.LoadCsv | scripts/routes-loader.js:56-85 | the loop returns the routes `parseCSV` specifies: none without a line after the header, eight fields per data row |
| RoutesLoader.ParseCsvSound | scripts/routes-loader.js:56-85 | every loaded route comes from a data line with at least eight fields and has a domain, id, title and status |
| RoutesLoader.LoadsExport | scripts/routes-loader.js:56-85 | a table exported by the route administration page loads back as the same routes |
| RoutesLoader.NodeUrl | scripts/routes-loader.js:30 | a link starting with "http" is kept; any other is prefixed with the protocol and the domain and still ends with itself |
| RoutesLoader.DepthOfTags | scripts/routes-loader.js:34 | the depth is one less than the number of tags for a list, the number of `\|` pieces less one for a text, and 0 for no tag text |
| RoutesLoader.TagShapesAgree | scripts/routes-loader.js:27-34 | a tag list and the same tags joined by `\|` give the same tags, depth, search text and path label |
| RoutesLoader.ToNodeFields | scripts/routes-loader.js:21-36 | the node keeps the route's id, title and module, is static and navigable, has a status, and takes its usage from the map or 0 |
| RoutesLoader.LoadKeepsDomain | scripts/routes-loader.js:5-38 | the nodes are exactly those of the routes of the domain, one per route, from storage unless storage is empty |
| ManageRoutesOld.ParseCsvSound | manage-routes-old.js:97-126 | every imported route has a domain, an id, a title and a status, and no blank tag |
| ManageRoutesOld.QuotedReads | manage-routes-old.js:160 | a plain text between two quotes reads back as the text |
| ManageRoutesOld.TagCellReads | manage-routes-old.js:153-160 | the quoted tag cell reads back as the joined tags and holds no newline |
| ManageRoutesOld.RowFields | manage-routes-old.js:152-163 | an exportable route's row parses back into its own eight fields |
| ManageRoutesOld.ReadBackBuilds | manage-routes-old.js:109-122 | those fields build the route back |
| ManageRoutesOld.RowBuilds | manage-routes-old.js:102-123 | an exportable route's row is kept by the importer and builds the route |
| ManageRoutesOld.HeaderSplit | manage-routes-old.js:99 | the header names eight fields, so a data row needs eight |
| ManageRoutesOld.ExportTrimmed | manage-routes-old.js:150-167 | the export text is already trimmed, so the importer's `trim` changes nothing |
| ManageRoutesOld.RoutesToCsvLines | manage-routes-old.js:150-167 | the export text splits into the header and one row per route |
| ManageRoutesOld.ParseCsvOfRoutesToCsv | manage-routes-old.js:97-167 | exporting exportable routes and importing the text again gives the same routes |
| ManageRoutesOld.DomainSetMembers | manage-routes-old.js:57 | the domain set holds exactly the routes' domains and is no larger than the table |
| ManageRoutesOld.ActiveCount | manage-routes-old.js:58 | the active count never exceeds the number of routes |
| ManageRoutesOld.StatsBounds | manage-routes-old.js:56-64 | active and domain counts never exceed the total, and there are domains exactly when there are routes |
| ManageRoutesOld.CountDomain | manage-routes-old.js:75-80 | a domain's count never exceeds the number of routes |
| ManageRoutesOld.GroupsKeys | manage-routes-old.js:73-80 | the counters are keyed by exactly the routes' domains |
| ManageRoutesOld.GroupsCount | manage-routes-old.js:73-80 | each counter counts the routes of its domain; a domain without a counter has none |
| ManageRoutesOld.FirstSeenMembers | manage-routes-old.js:75-82 | the keys in insertion order are exactly the domains |
| ManageRoutesOld.FirstSeenDistinct | manage-routes-old.js:75-82 | each domain is a key once |
| ManageRoutesOld.ByCodeStrict | manage-routes-old.js:82 | the default string `sort` order is a strict order |
| ManageRoutesOld.SortedDomainsMembers | manage-routes-old.js:82 | the sorted domains are exactly the domains, once each |
| ManageRoutesOld.SortedDomainsOrdered | manage-routes-old.js:82 | the sorted domains are in strictly increasing order |
| ManageRoutesOld.DomainListingSorted | manage-routes-old.js:82-94 | the domain list has one line per domain, in sorted order |
| ManageRoutesOld.DomainListingCovers | manage-routes-old.js:71-94 | the domain list names exactly the domains of the routes |
| ManageRoutesOld.DomainListingCounts | manage-routes-old.js:89-94 | each line counts the routes of its domain |
| ManageRoutesOld.DomainListingTotal | manage-routes-old.js:71-94 | the counts of the domain list add up to the number of routes |
| ManageRoutesOld.RoutesPage.constructor | manage-routes-old.js:4-5 | the page starts with no routes and zero counts |
| ManageRoutesOld.RoutesPage.UpdateStats | manage-routes-old.js:56-69 | the counts are recomputed from the routes, which stay as they were |
| ManageRoutesOld.RoutesPage.UpdateDomainList | manage-routes-old.js:71-95 | the one-pass counting loop and the sort give the sorted domain list with counts |
| ManageRoutesOld.RoutesPage.LoadDefaultRoutes | manage-routes-old.js:36-49 | the bundled CSV replaces the table and the counts follow |
| ManageRoutesOld.RoutesPage.HandleImport | manage-routes-old.js:196-233 | a confirmed `.csv` file with at least one route replaces the table; any other outcome leaves the page unchanged |
| ManageRoutesOld.RoutesPage.ClearAllRoutes | manage-routes-old.js:235-252 | two confirmations empty the table and zero the counts; otherwise nothing changes |
| Utils.RemoveAccentsOf | scripts/utils.js:4-7 | a non-string gives ""; a string loses its combining marks and never grows |
| Utils.Capitalize | scripts/utils.js:14 | capitalizing keeps the word's length |
| Utils.CapitalizeIdempotent | scripts/utils.js:14 | capitalizing twice is capitalizing once |
| Utils.SplitWhiteJoin | scripts/utils.js:13 | splitting space-joined words on white space gives the words back |
| Utils.NormalizeTextWords | scripts/utils.js:10-16 | the normalized text is trimmed, and its words are the capitalized words of the trimmed input |
| Utils.NormalizeJoined | scripts/utils.js:10-16 | capitalized words joined by single spaces normalize to themselves |
| Utils.NormalizeTextIdempotent | scripts/utils.js:10-16 | normalizing a normalized text changes nothing, so the blur handler is harmless on normalized input |
| Utils.CurrentValues | scripts/utils.js:141-147 | the current values are non-empty, trimmed and comma-free |
| Utils.SingleSelection | scripts/utils.js:155-158 | the single selection is empty exactly for a blank input, otherwise the trimmed lower-cased input alone |
| Utils.CurrentValuesOfJoin | scripts/utils.js:131-147 | values written back with ", " read back as the same values |
| Utils.ToggledMembers | scripts/utils.js:120-130 | a present value (case-insensitively) is removed with every copy; an absent one is appended |
| Utils.ToggleReadsBack | scripts/utils.js:120-147 | the input a toggle writes reads back as the toggled values |
| Utils.ToggleSelection | scripts/utils.js:120-153 | after a toggle a selected value is deselected and the others stay; an unselected one is added |
| Utils.SmartSelector.constructor | scripts/utils.js:20-37 | a new selector has the given input and mode and an empty selection |
| Utils.SmartSelector.SyncMultipleSelection | scripts/utils.js:149-153 | the selection becomes the lower-cased current values |
| Utils.SmartSelector.SyncSingleSelection | scripts/utils.js:155-159 | the selection becomes the trimmed lower-cased input, or nothing for a blank input |
| Utils.SmartSelector.ToggleMultipleValue | scripts/utils.js:120-133 | the input becomes the toggled values joined by ", " and the selection is resynchronized |
| Utils.SmartSelector.SelectSingleValue | scripts/utils.js:135-139 | the input becomes the value and the selection is resynchronized |
| Utils.SmartSelector.SetValue | scripts/utils.js:244-251 | the input becomes the value and the selection follows the selector's mode |
| Utils.SmartSelector.Destroy | scripts/utils.js:253-256 | the selection is cleared and the input kept |
| Utils.BuildTextRoute | scripts/utils.js:271-283 | a row builds a record exactly when domain, id and title are present; the record keeps them and has a status |
| Utils.LoadCsv | scripts/utils.js:259-288 | the loop returns the records `parseCSV` specifies |
| Utils.ParseCsvAgrees | scripts/utils.js:259-288 | this reader and the route loader's read any text into the same routes once the tag string is split |
| Ranking.Tokenize | scripts/ranking.js:64-65 | every token is non-empty and free of white space |
| Ranking.TokenizeEmptyIffBlank | scripts/ranking.js:64-66 | a query has no tokens exactly when its normalized text is blank, which sends it to the default list |
| Ranking.FuzzyIncludes | scripts/ranking.js:302-322 | the matcher's loop answers the fuzzy test: `includes` for short needles, else a greedy walk with at most half the needle's length in wide gaps |
| Ranking.FuzzyMatchIsBoundedSubsequence | scripts/ranking.js:302-322 | for needles longer than two characters the fuzzy test accepts exactly the subsequences whose greedy walk has few wide gaps |
| Ranking.PointsFollowPriority | scripts/ranking.js:206-232 | an earlier tier is worth at least 50 more points and 0.1 more quality than a later one |
| Ranking.TextScanMissIff | scripts/ranking.js:200-239 | the text scan fails exactly when some non-empty token passes none of the nine tiers |
| Ranking.MissPersists | scripts/ranking.js:233-235 | once a prefix of the tokens misses, the whole scan misses |
| Ranking.TextScanBounds | scripts/ranking.js:200-239 | with non-empty tokens, a hit earns 50 to 1000 points and 0.2 to 1 of quality per token |
| Ranking.Finish | scripts/ranking.js:272-283 | the final score is never negative |
| Ranking.FinishLinear | scripts/ranking.js:272-283 | without the multi-token boost the score is the floor of points plus quality times the usage weight, plus the static bonus minus the depth penalty |
| Ranking.FinishMonotone | scripts/ranking.js:272-283 | more points and at least the quality, under a non-negative weight, never score lower, and score strictly higher unless floored |
| Ranking.Score | scripts/ranking.js:192-284 | `scoreNode` never returns a negative score |
| Ranking.HardAnd | scripts/ranking.js:233-235 | a node on which some non-empty token passes no tier scores 0 |
| Ranking.BetterTierRanksHigher | ranking.test.js:52-63 | for a one-token query and two nodes with the same history, the node reaching the earlier tier scores at least as high, and strictly higher when its score is positive |
| Ranking.ScoreOneToken | scripts/ranking.js:192-284 | a one-token query scores 0 on a miss and otherwise the finish of the token's tier |
| Ranking.SameHistory | scripts/ranking.js:243-270 | nodes with the same id, usage, source and depth get the same bonuses |
| Ranking.TokenTier | scripts/ranking.js:206-235 | the if-chain assigns the first of the nine tiers the token passes, or none |
| Ranking.ScanTokens | scripts/ranking.js:200-239 | the token loop stops at the first token that passes no tier, otherwise sums points and quality |
| Ranking.ScoreNode | scripts/ranking.js:192-284 | the method computes the score `Score` specifies |
| Ranking.CompareByCategoryAndPath | scripts/ranking.js:328-347 | a deprecated entry always sorts after an active one |
| Ranking.SplitAndSort | scripts/ranking.js:138-144 | the result is a permutation of the input with every deprecated entry after every active one |
| Ranking.ScoredNodesMembers | scripts/ranking.js:75-80 | the scoring loop keeps exactly the input nodes with a positive score, with that score |
| Ranking.RankedNodesMembers | scripts/ranking.js:75-88 | a node is ranked exactly when it is an input node and scores above zero |
| Ranking.RankedNodesOrder | scripts/ranking.js:87-88 | the ranked list is no longer than the input and keeps deprecated nodes after active ones |
| Ranking.MissingTokenExcludes | scripts/ranking.js:75-80 | a node that some non-empty token cannot match is never ranked |
| Ranking.Annotate | scripts/ranking.js:100-103 | every node is annotated, in input order |
| Ranking.DefaultRankingProperties | ranking.test.js:92-102 | the default list is a permutation of the nodes with deprecated nodes after active ones |
| Ranking.MapNodeToResult | scripts/ranking.js:286-300 | the result keeps the node's id, title, description, link, action, tags, module and usage; the path label falls back to the joined tags, then the title |
| Ranking.NormalizeKeyCategory | scripts/ranking.js:134 | the category part of a cache key is never empty, defaulting to "all" |
| Ranking.BuildCacheKey | scripts/ranking.js:132-136 | a cache key holds at least the "::" separator and a category |
| Ranking.CacheKeyInjective | scripts/ranking.js:132-136 | for colon-free categories, two keys are equal exactly when both normalized parts agree |
| Ranking.LookupOutcome | scripts/ranking.js:38-51 | a hit leaves the store alone, a miss leaves no entry under the key, and other keys are untouched |
| Ranking.LookupAfterStore | scripts/ranking.js:38-59 | a stored list is returned within the time-to-live for its version or no version, missed after it, and missed for another version |
| Ranking.DefaultResults | scripts/ranking.js:97-107 | the default answer is the default order cut to the cap, presented |
| Ranking.FreshResultsNodes | scripts/ranking.js:75-88 | a fresh answer presents at most `cap` input nodes, each with a positive score, deprecated ones last |
| Ranking.DefaultResultsNodes | scripts/ranking.js:97-107 | the default answer presents a sub-multiset of the nodes with deprecated ones last |
| Ranking.RankOutcomeBounded | scripts/ranking.js:63-95 | every answer, and every list left in the store, respects the result cap |
| Ranking.QueryOutcomeBounded | scripts/ranking.js:69-94 | the same bound for the part after the early returns |
| Ranking.LookupCapped | scripts/ranking.js:38-51 | a cache hit returns a capped list and the lookup leaves a capped store |
| Ranking.FreshResultsCapped | scripts/ranking.js:88 | a fresh answer holds at most `cap` results |
| Ranking.Engine.constructor | scripts/ranking.js:4-17 | undefined options take 40 results and a two-minute time-to-live; the cache starts empty |
| Ranking.Engine.GetCachedResults | scripts/ranking.js:38-51 | the lookup answers `Lookup` and deletes a stale or mismatched entry |
| Ranking.Engine.SetCachedResults | scripts/ranking.js:53-61 | a non-empty key stores the results stamped with the time and version; an empty key changes nothing; only a capped list that keeps deprecated results last is stored, as the engine's own two stores are |
| Ranking.Engine.InvalidateCache | scripts/ranking.js:109-120 | no predicate clears the cache; a predicate deletes exactly the entries it accepts |
| Ranking.Engine.Sweep | scripts/ranking.js:21-28 | the cleanup deletes exactly the entries stamped before `now - ttl` |
| Ranking.Engine.RankResults | scripts/ranking.js:63-95 | results and new cache are those `RankOutcome` describes; every answer, cache hits included, presents nodes with the deprecated ones last; the cache stays capped and deprecated-last |
| Ranking.Engine.RankQuery | scripts/ranking.js:69-94 | the lookup, scoring loop, sort, cap and store give what `QueryOutcome` describes, with the deprecated results last in every answer |
| Ranking.QueryOutcomeLateLast | scripts/ranking.js:69-94 | when every cached list keeps deprecated results last, so does a query's answer, cached or fresh, and so does every list left in the cache |
| Ranking.RankOutcomeLateLast | scripts/ranking.js:63-95 | every `rankResults` answer (default, empty or queried) keeps deprecated results last, and the cache stays so |
| Ranking.ScoreAll | scripts/ranking.js:75-80 | the scoring loop returns every node with a positive score, with its score, in input order |
| Ranking.CacheRoundTrip | ranking.test.js:65-90 | a repeated eligible query within the time-to-live returns the cached list even for changed nodes, and after invalidation the fresh ranking |
| Legacy.FuzzyIncludes | content-script.js:583-593 | the matcher's loop answers the fuzzy test: `includes` for needles of at most one character, else a full greedy walk |
| Legacy.FuzzyMatchIsSubsequence | content-script.js:583-593 | for needles of two or more characters the fuzzy test is exactly the subsequence test |
| Legacy.TokenPoints | content-script.js:568-573 | a token earns 120, 90, 60, 40, 25 or 0 points |
| Legacy.AddTokenMisses | content-script.js:567-574 | one step of the scan misses exactly when the scan already missed or the token is non-empty and earns nothing |
| Legacy.TextPointsMissIff | content-script.js:566-574 | the text scan misses exactly when some non-empty token earns no points |
| Legacy.MissHasWitness | content-script.js:566-574 | a miss is caused by some non-empty token that earns no points |
| Legacy.MissAt | content-script.js:573 | a non-empty token that earns no points makes the scan miss |
| Legacy.TextPointsBounds | content-script.js:566-574 | on a hit with non-empty tokens each token contributes 25 to 120 points |
| Legacy.HardAnd | content-script.js:573 | a node some non-empty token cannot match scores 0 |
| Legacy.ScoreNode | content-script.js:562-581 | the scoring loop and the usage, static and depth terms compute `Score` |
| Legacy.CompareEntries | content-script.js:950-969 | an entry in the "deprecado" category always sorts after one that is not |
| Legacy.NodeOrderPutsDeprecatedLast | content-script.js:950-955 | the node comparator places deprecated nodes after the others |
| Legacy.ResultOrderPutsDeprecatedLast | content-script.js:950-955 | the result comparator places deprecated results after the others |
| Legacy.MapNodeToResult | content-script.js:531-544 | the result keeps the node's id, title, link, action, description, module and usage, and is labelled by the path joined with " > " or, without a path, the title |
| Legacy.ByScoreDecreasing | content-script.js:557 | `b.score - a.score` orders by decreasing score |
| Legacy.PositiveMembers | content-script.js:550-556 | the scoring loop keeps exactly the input nodes with a positive score, with that score |
| Legacy.ByScoreOrder | content-script.js:557 | the score order is a permutation of the positively scored nodes |
| Legacy.Kept | content-script.js:558 | at most 40 nodes survive the cut |
| Legacy.RankTokens | content-script.js:546-560 | a ranked answer holds at most 40 results |
| Legacy.DefaultResults | content-script.js:526-529 | the default answer holds all nodes up to 40 |
| Legacy.TopScoresKept | content-script.js:557-558 | every node kept by the cut scores at least as high as every node left out |
| Legacy.KeptMembers | content-script.js:550-558 | every kept node is an input node with a positive score |
| Legacy.RankTokensMembers | content-script.js:546-560 | every ranked result presents an input node with a positive score |
| Legacy.RankTokensDeprecatedLast | content-script.js:559 | in a ranked answer every deprecated result comes after every other one |
| Legacy.DefaultResultsDeprecatedLast | content-script.js:526-529 | in the default answer every deprecated result comes after every other one |
| Legacy.BuildPathProperties | content-script.js:657-661 | every path piece is trimmed, non-empty and free of `\|`, and such pieces joined with `\|` build back to themselves |
| Legacy.NormalizeNode | content-script.js:614-635 | the depth counts the path's separators, a missing path is built from the label, a missing title is the last path piece, and the usage starts at 0 |
| Legacy.NormalizeNodeDepth | content-script.js:616-617 | a normalized node never has a negative depth, and a label's depth is one less than its piece count |
| Legacy.DedupePath | content-script.js:769-777 | the loop returns `Dedupe` of the path |
| Legacy.DedupeProperties | content-script.js:769-777 | no empty item, no two equal neighbours, and exactly the non-empty items of the path are kept |
| Legacy.DedupeIsSubsequence | content-script.js:769-777 | what `dedupePath` returns is a subsequence of its input |
| Legacy.WithUsage | content-script.js:803-804 | a merged node keeps its identity and takes the stored use count of its id |
| Legacy.MergeStepFrom | content-script.js:802-825 | after one step each entry of the id map is an old entry or the new node |
| Legacy.MergeAllWellFormed | content-script.js:796-826 | the insertion order lists each id once, each entry is stored under its own id and carries the stored use count |
| Legacy.MergedProperties | content-script.js:796-828 | after a merge no two nodes share an id, and each node can be acted on and carries its stored use count |
| Legacy.MergedFrom | content-script.js:796-828 | every merged node is a static or page input with its stored use count |
| Legacy.StaticPhase | content-script.js:802-825 | after the static nodes, each static address is held by a static node |
| Legacy.DomPhase | content-script.js:811-816 | while page nodes come in, static addresses stay with static nodes and no page node holding one enters the id map |
| Legacy.StaticWins | content-script.js:811-816 | no page node whose address is also a static node's survives the merge |
| Legacy.Absorb | content-script.js:803-825 | one pass of the merge loop performs `MergeStep` on the id map, its order and the address map |
| Legacy.FoldNodes | content-script.js:802-826 | the merge loop computes `MergeAll` of the combined list |
| Legacy.CollectNodes | content-script.js:828 | the final filter keeps the navigable values of the id map in insertion order |
| Legacy.NextIndex | content-script.js:354-358 | ArrowDown moves to the next result, wrapping to the first |
| Legacy.PrevIndex | content-script.js:359-363 | ArrowUp moves to the previous result, wrapping to the last |
| Legacy.ArrowsInverse | content-script.js:354-363 | ArrowUp undoes ArrowDown and ArrowDown undoes ArrowUp, both staying in range |
| Legacy.Overlay.RenderResults | content-script.js:451-453 | a rendered list is shown with its first entry selected, nothing else changes |
| Legacy.Overlay.HandleQueryInput | content-script.js:334-342 | a blank query shows the default list and any other is ranked; the selection starts at 0 |
| Legacy.Overlay.IncrementUsage | content-script.js:841-847 | the id's use count goes up by one and nothing else changes |
| Legacy.Overlay.ActivateSelected | content-script.js:389-426 | a selected result is returned, counted and closes the overlay; without one nothing changes |
| Legacy.Overlay.HandleInputKeys | content-script.js:344-378 | with no results only Escape acts (it closes); otherwise the arrows move with wrap-around, Enter activates and Escape closes |
| Legacy.Overlay.LoadStatic | content-script.js:599-612 | the bundled entries become static nodes and the nodes are merged with no page nodes; an open overlay shows the list for the search text again from its first entry, a closed one keeps its list and selection |
| Legacy.Overlay.MergeNodes | content-script.js:796-838 | the overlay's nodes become the merge of the static and page nodes; an open overlay then shows the default list for a blank trimmed search text and the ranking of the text otherwise, from its first entry; a closed one keeps its list and selection |
| ContentScript.Unify | scripts/content-script.js:1047-1052 | every separator ("\|", "·", ">", ",") becomes "\|" and every other character stays |
| ContentScript.TagListShape | scripts/content-script.js:1044-1058 | every normalized tag is non-empty and trimmed |
| ContentScript.TagStringSeparatorFree | scripts/content-script.js:1044-1058 | no tag read from a string holds a separator |
| ContentScript.TagListIdempotent | scripts/content-script.js:1044-1058 | normalizing a normalized list changes nothing |
| ContentScript.TagListOfJoin | scripts/content-script.js:1044-1058 | tags joined with any of the four separators read back as the same list |
| ContentScript.FirstNonEmptyIsFirst | scripts/content-script.js:1060-1068 | the result is empty exactly when every candidate is, and otherwise it is the first non-empty candidate |
| ContentScript.BuildCsvRoute | scripts/content-script.js:1000-1017 | a row builds a route exactly when domain, id and title are present; the route has a status, its normalized tag list, and `tags` is that list joined with "\|" |
| ContentScript.LoadRoutesCsv | scripts/content-script.js:989-1020 | the loop returns the routes `parseRoutesCSV` specifies |
| ContentScript.ParseRoutesCsvSound | scripts/content-script.js:989-1068 | every parsed route has a domain, an id, a title and a status, and `extractRouteTags` finds its tag list again |
| ContentScript.ParseRoutesCsvIgnoresNewlines | scripts/content-script.js:990 | a file without a backslash is one "line", so no route is ever read from it |
| ContentScript.OneRouteFile | scripts/content-script.js:989-1020 | a header and one valid data line: read on line breaks the file yields the route, read as written it yields nothing |
| ContentScript.ReadOnLineBreaks | scripts/content-script.js:989-1020 | read on real line breaks, a header and one valid data line yield that line's route |
| ContentScript.ToInt32 | scripts/content-script.js:1110 | the 32-bit truncation lies in the signed 32-bit range and is congruent to its input modulo 2^32 |
| ContentScript.Hash | scripts/content-script.js:1106-1113 | the running hash is always a signed 32-bit integer |
| ContentScript.Bucket | scripts/content-script.js:1112 | `Math.abs(hash % 10)` with a truncating `%` lies between 0 and 9 |
| ContentScript.SimpleHash | scripts/content-script.js:1106-1113 | the hash loop returns the bucket of the 32-bit string hash, at most 9 |
| ContentScript.HashStepIsPolynomial | scripts/content-script.js:1109-1110 | each step is the 31-multiplier string hash step taken modulo 2^32 |
| ContentScript.ModuleClass | scripts/content-script.js:1093-1104 | the class is "dynamic-" followed by one digit, and "dynamic-0" for a missing module |
| ContentScript.ModuleClassIgnoresCase | scripts/content-script.js:1093-1104 | a module name and its upper-case spelling get the same colour class |
| ContentScript.ModuleClassOfA | scripts/content-script.js:1093-1113 | a worked instance of the hash: the module "a" hashes to 97 and gets "dynamic-7" |
| ContentScript.NormalizeDomainShape | scripts/content-script.js:1122-1126 | a normalized domain is lower-case and is the lower-cased domain, with or without a leading "www." removed |
| ContentScript.NormalizeDomainWww | scripts/content-script.js:1122-1126 | a site and its "www." host name, in any letter case, normalize to the same domain |
| ContentScript.BuildRankingContext | scripts/content-script.js:699-709 | the context is cache-eligible exactly for a non-empty query over a non-empty all-static node list, and then carries the static version and a key |
| ContentScript.ContextKeys | scripts/content-script.js:699-709 | two eligible queries share a cache key exactly when their normalized texts agree, and no category means "all" |
| ContentScript.NormalizeShortcut | scripts/content-script.js:1471-1480 | no stored preference gives the default shortcut |
| ContentScript.NormalizeShortcutIdempotent | scripts/content-script.js:1471-1480 | normalizing a normalized shortcut changes nothing |
| ContentScript.NormalizeKeyIsLower | scripts/content-script.js:1482-1492 | every branch of `normalizeKey` is plain lower-casing |
| ContentScript.MatchesStoredShortcut | scripts/content-script.js:1444-1448 | a stored preference matches a key press exactly when the four modifiers agree and the keys are equal up to letter case |
| ContentScript.DefaultShortcutMatches | scripts/content-script.js:9 | the default shortcut fires on Ctrl+Shift+K in either letter case, and not without Shift |
| ContentScript.SlotKeyInjective | scripts/content-script.js:1303-1306 | two per-hour or per-weekday counter keys are equal only for the same id and number |
| ContentScript.RecordedCounts | scripts/content-script.js:1296-1307 | one use stamps the id's last access and count and raises its hour and weekday counters by one, leaving other ids' counters alone |
| ContentScript.KeysApart | scripts/content-script.js:1338-1339 | usage keys and frequency keys never collide, and each determines its id |
| ContentScript.BuildPayload | scripts/content-script.js:1337-1341 | the batch holds the usage and frequency entries of every pending id and no other key |
| ContentScript.PutBoth | scripts/content-script.js:1338-1339 | one pass writes both entries of one id and extends the batch to it |
| ContentScript.PayloadReadsBack | scripts/content-script.js:1338 | every usage entry of the batch is keyed by a pending id and holds its queued count |
| ContentScript.FoldNodes | scripts/content-script.js:1264-1268 | the loop of `mergeNodes` builds the `byId` map of the source nodes with their stored use counts |
| ContentScript.MergedNavigable | scripts/content-script.js:1270 | every merged node has a link or a click action |
| ContentScript.MergedIdsDistinct | scripts/content-script.js:1257-1270 | no two merged nodes share an id |
| ContentScript.MergedComplete | scripts/content-script.js:1257-1270 | the last source node of each id that can be opened is merged, with its stored use count |
| ContentScript.MergedLastWins | scripts/content-script.js:1257-1270 | every merged node is the last source node of its id, with its stored use count |
| ContentScript.MergedIgnoresDom | scripts/content-script.js:1261-1262 | with static nodes present every merged node is a static node |
| ContentScript.Navigator.RenderResults | scripts/content-script.js:811-813 | a rendered list is shown with its first entry selected; nothing else changes |
| ContentScript.Navigator.IncrementUsage | scripts/content-script.js:1288-1310 | a use without an id changes nothing; otherwise the count rises by one, the frequency record is updated and the update is queued |
| ContentScript.Navigator.QueueUsagePersistence | scripts/content-script.js:1312-1318 | the latest update of an id replaces any earlier one still waiting |
| ContentScript.Navigator.FlushUsageUpdates | scripts/content-script.js:1328-1359 | the queue is emptied; a batch is written exactly when something was waiting, and it holds every waiting update |
| ContentScript.Navigator.MergeNodes | scripts/content-script.js:1257-1284 | the merged nodes that can be opened become the overlay's nodes; an open overlay then shows the default list for a blank trimmed search text, otherwise the engine's ranking under the text's ranking context (with the cache that ranking leaves), from its first entry; a closed one keeps its list, selection and the engine's cache |
| ContentScript.Navigator.CloseOverlay | scripts/content-script.js:599-607 | the overlay is closed and nothing else changes |
| ContentScript.Navigator.ActivateSelected | scripts/content-script.js:720-757 | a selected result is returned, counted when it has an id, and closes the overlay; without one nothing changes |
| ContentScript.Navigator.HandleInputKeys | scripts/content-script.js:663-697 | with no results only Escape acts; otherwise the arrows wrap, Enter activates, Escape closes, and any other key (Tab included) changes nothing |
| ManageCsv.DoubleQuotes | manage.js:552 | doubling the quotes never shortens a value and leaves a quote-free value as it is |
| ManageCsv.EscapeCsv | manage.js:549-555 | a non-string gives "", a value with no comma, quote or newline is written as it is, and any other value is wrapped in quotes |
| ManageCsv.DoubleQuotesNewline | manage.js:552 | doubling quotes brings in no newline and removes none |
| ManageCsv.EscapeNewline | manage.js:549-555 | escaping a value without newlines gives a value without newlines |
| ManageCsv.Scan | manage.js:830-856 | the line reader always ends with at least one more field than it started with |
| ManageCsv.ParseLine | manage.js:830-856 | the character loop returns the fields `Scan` specifies, always at least one |
| ManageCsv.ScanChar | manage.js:849-851 | an ordinary character, or a comma inside quotes, joins the current field |
| ManageCsv.ScanPair | manage.js:839-842 | a doubled quote inside quotes adds one quote to the field and skips the second |
| ManageCsv.ScanToggle | manage.js:843-845 | any other quote toggles quoting and adds nothing to the field |
| ManageCsv.ScanComma | manage.js:846-848 | a comma outside quotes closes the field and starts an empty one |
| ManageCsv.ScanPlain | manage.js:830-856 | text with no comma and no quote, read outside quotes, joins the current field |
| ManageCsv.ScanQuoted | manage.js:830-856 | inside quotes, text with doubled quotes and a closing quote reads back as the text itself |
| ManageCsv.ScanCell | manage.js:549-555 | an escaped value followed by a comma or the end of the line reads back as the value |
| ManageCsv.EscapeRoundTrip | manage.js:549-555 | `parseCSVLine(escapeCSV(v))` is `[v]` for every string `v` |
| ManageCsv.ScanCells | manage.js:830-856 | escaped values joined with commas read back as the values |
| ManageCsv.ParseCsvLineOfJoin | manage.js:830-856 | a row of escaped cells parses back into its values |
| ManageCsv.QuoteFreeLine | manage.js:830-856 | on a line without quotes `parseCSVLine` is `line.split(",")` |
| ManageCsv.RowsOf | manage.js:810-824 | the data lines give at most one route each |
| ManageCsv.ReadRows | manage.js:810-824 | the loop over the data lines returns the routes `RowsOf` specifies |
| ManageCsv.LoadCsv | manage.js:805-827 | the loop returns the routes `parseCSV` specifies |
| ManageCsv.BuildTrimmed | manage.js:813-822 | every field of an imported route is trimmed |
| ManageCsv.RowsOfTrimmed | manage.js:810-824 | every route the data lines give has its fields trimmed |
| ManageCsv.ParseCsvShape | manage.js:805-827 | `parseCSV` gives fewer routes than the text has lines, each with trimmed fields |
| ManageCsv.RowReadsBack | manage.js:530-546 | the exported row of a route whose unescaped fields hold no comma, quote or newline parses back into that route |
| ManageCsv.RowNoNewline | manage.js:530-546 | such a row holds no newline |
| ManageCsv.ExportJoin | manage.js:530-546 | an export of at least one route is the header and one row per route, joined with newlines |
| ManageCsv.ExportTrimmed | manage.js:530-546 | such an export is left unchanged by `trim` |
| ManageCsv.ExportLines | manage.js:530-546 | split on newlines, such an export is the header followed by one row per route |
| ManageCsv.ExportNothing | manage.js:530-546 | exporting no routes and importing the result gives no routes |
| ManageCsv.ParseCsvOfRoutesToCsv | manage.js:530-546 | `parseCSV(routesToCSV(routes))` gives back the routes whenever their fields are trimmed and free of newlines, and the fields written without quoting hold no comma and no quote |
| Manage.ImportedRoutes | manage.js:745-778 | the body of `confirmImport` returns the route list `FinalRoutes` specifies for the mode |
| Manage.Select | manage.js:767-776 | the `forEach` keeps exactly the routes of the filter, in order |
| Manage.Classify | manage.js:701-707 | each file route goes to the new list when its id is unknown and to the updated list otherwise |
| Manage.CalculateImportChanges | manage.js:680-742 | the preview loops return the changes `ImportChanges` specifies |
| Manage.FillById | manage.js:755-762 | the `Map` of MERGE after every `set` is the keyed fold of the existing routes and the file's |
| Manage.PreviewClassifies | manage.js:697-719 | MERGE and REPLACE_DOMAIN list a file route as updated exactly when its id exists and as new exactly when it does not, every file route once; ADD_ONLY lists the same new routes and nothing updated |
| Manage.PreviewDeletions | manage.js:687-740 | MERGE and ADD_ONLY delete nothing, REPLACE_ALL lists the file as new and every route as deleted, and REPLACE_DOMAIN deletes exactly the routes of the file's domains whose id the file lacks |
| Manage.AddOnlyImport | manage.js:765-768 | ADD_ONLY keeps the existing routes unchanged and in order, then appends exactly the file routes with new ids |
| Manage.ReplaceDomainImport | manage.js:771-777 | REPLACE_DOMAIN keeps exactly the routes of domains the file does not mention, in order, then every file route |
| Manage.MergeKeepsFileRoutes | manage.js:755-762 | the last file route of each id is in the result of MERGE |
| Manage.MergeKeepsOthers | manage.js:755-762 | an existing route whose id the file lacks stays in the result of MERGE, unchanged |
| Manage.MergeSound | manage.js:755-762 | every route MERGE keeps is the last file route of its id or an existing route whose id the file lacks |
| Manage.MergeDistinct | manage.js:755-762 | MERGE never gives two routes the same id |
| Manage.MergeIds | manage.js:755-762 | MERGE gives exactly the ids of the existing routes and of the file |
| Manage.PreviewMatchesImport | manage.js:680-778 | the ids after the import are the ids before it, less the listed deletions, plus the listed new and updated ids; for REPLACE_DOMAIN this needs distinct existing ids |
| Manage.FilteredMembers | manage.js:57-76 | `applyFilters` keeps exactly the routes that match the search, domain and status, in stored order |
| Manage.NoFiltersKeepAll | manage.js:57-76 | an empty search and no filter keep every route |
| Manage.PageCount | manage.js:135-136 | the page count is the least number of 50-route pages that hold the list, 0 for an empty list |
| Manage.PageRoutes | manage.js:81-84 | a page shows at most 50 routes |
| Manage.PagesCover | manage.js:81-84 | every listed route is shown on the page the pager reaches for its position |
| Manage.FindIndex | manage.js:452 | `findIndex` is -1 exactly when no route has the id, and otherwise the first route with it |
| Manage.FormRoute | manage.js:440-449 | every text field of the submitted route is trimmed and the chosen status is kept as it is |
| Manage.ReplaceInPlace | manage.js:451-455 | editing replaces the edited route where it is found and keeps every other position, and an id that is gone changes nothing |
| Manage.AddSpec | manage.js:456-463 | adding rejects exactly a taken id, otherwise appends one route and keeps the ids distinct |
| Manage.WithoutIdSpec | manage.js:478 | deleting removes exactly the routes with the id and keeps ids distinct |
| Manage.WithoutIdsSpec | manage.js:494 | bulk deletion removes exactly the selected ids and keeps ids distinct |
| Manage.RouteManager.constructor | manage.js:20-33 | the page starts with the stored routes all listed, on page 1, with nothing selected, not editing, nothing pending and REPLACE_ALL chosen |
| Manage.RouteManager.ApplyFilters | manage.js:57-76 | the listed routes are recomputed and the page returns to 1 |
| Manage.RouteManager.SetFilters | manage.js:248-261 | new search or filter values list exactly the matching routes from page 1; only the filter values, the listing and the page change |
| Manage.RouteManager.PrevPage | manage.js:322-327 | the page goes back one unless it is the first |
| Manage.RouteManager.NextPage | manage.js:329-335 | the page goes forward one unless it is the last (or there are no pages) |
| Manage.RouteManager.ToggleSelection | manage.js:290-300 | a checked box adds the id to the selection and a cleared one removes it |
| Manage.RouteManager.SelectPage | manage.js:275-287 | the header box adds or removes exactly the ids of the current page |
| Manage.RouteManager.DeselectAll | manage.js:315-319 | the selection is emptied |
| Manage.RouteManager.OpenAddModal | manage.js:402-408 | add mode, with no edited id |
| Manage.RouteManager.OpenEditModal | manage.js:411-429 | edit mode on a stored id; an unknown id changes nothing |
| Manage.RouteManager.SaveRoute | manage.js:437-472 | edit mode replaces the edited route; add mode rejects a taken id and otherwise appends; a save lists the routes again from page 1 and a rejection changes nothing; the edit mode, selection, filters and pending import stay |
| Manage.RouteManager.DeleteRoute | manage.js:475-487 | a confirmed delete removes the id from the routes and from the selection and lists the routes again from page 1; otherwise nothing changes; only the routes, selection, listing and page can change |
| Manage.RouteManager.BulkDelete | manage.js:490-503 | with a selection and a confirmation the selected routes go, the selection is emptied and the listing starts again at page 1; otherwise nothing changes; only the routes, selection, listing and page can change |
| Manage.RouteManager.ClearAll | manage.js:859-879 | only two confirmations empty the routes, the selection and the listing and go back to page 1; otherwise nothing changes; only the routes, selection, listing and page can change |
| Manage.RouteManager.SetImportMode | manage.js:351-355 | the chosen radio button becomes the import mode |
| Manage.RouteManager.HandleFileUpload | manage.js:578-600 | a file is accepted exactly when its name ends in ".csv" and it parses to some routes; those routes wait, and the preview for the current mode is returned |
| Manage.RouteManager.ClosePreviewModal | manage.js:799-802 | the pending routes are dropped |
| Manage.RouteManager.ConfirmImport | manage.js:745-796 | the routes become the import's result for the mode, the selection and the pending routes are emptied, the listing starts again at page 1, and the number of file routes is reported; the mode, filters and edit state stay |
| Studio.VisibleMembers | scripts/manage.js:52-59 | `render` lists exactly the routes whose title, domain or module contains the term, ignoring case, in stored order |
| Studio.SearchIgnoresCase | scripts/manage.js:55 | typing the term in another letter case lists the same routes |
| Studio.WithoutDomainSpec | scripts/manage.js:173-177 | deleting a domain removes exactly its routes, and a domain without routes changes nothing |
| Studio.NewRouteSpec | scripts/manage.js:319-339 | the stored module is never empty, a blank one becoming "General"; a given id is kept and a form without one gets a "route:" id |
| Studio.TagsReadBack | scripts/manage.js:334 | the stored tag list, split on "\|", gives back the typed comma-separated tags, trimmed and without empty ones |
| Studio.UpsertSpec | scripts/manage.js:395-402 | one imported line stores its route, adds its id and nothing else, grows the list only for a new id, and keeps ids distinct |
| Studio.ImportLinesIds | scripts/manage.js:385-404 | after the import the stored ids are the old ones plus those of the non-blank lines |
| Studio.ImportLinesDistinct | scripts/manage.js:385-404 | the import never stores two routes with one id when the old ids were distinct |
| Studio.ImportLinesLength | scripts/manage.js:385-404 | the list grows by at most the number of lines counted |
| Studio.Navigator.constructor | scripts/manage.js:39-43 | the page starts with the stored routes and an empty search |
| Studio.Navigator.Search | scripts/manage.js:289-292 | the typed text becomes the search term |
| Studio.Navigator.DeleteDomain | scripts/manage.js:173-177 | a confirmed delete removes the domain's routes; otherwise nothing changes |
| Studio.Navigator.DeleteRoute | scripts/manage.js:179-183 | a confirmed delete removes the routes with the id; otherwise nothing changes |
| Studio.Navigator.Submit | scripts/manage.js:319-347 | a form with an id replaces the route with that id where it is found; a form without one appends a new route |
| Studio.Navigator.ImportLinesLoop | scripts/manage.js:392-402 | the loop stores the routes `ImportLines` specifies and counts the non-blank lines |
| Studio.Navigator.ImportCsv | scripts/manage.js:385-408 | every line after the first is imported and the non-blank ones are counted |
| Migrate.TagStepsOk | scripts/migrate-metadata.js:53-71 | the tags of one route keep every count positive and every module list free of repeats |
| Migrate.TagStepsCount | scripts/migrate-metadata.js:53-65 | the tags of one route add their occurrences to the tag counts |
| Migrate.TagStepsModules | scripts/migrate-metadata.js:67-70 | the tags of one route add the route's module to the list of each tag it carries |
| Migrate.StepDomainTags | scripts/migrate-metadata.js:30-44 | a route changes only the tag object of its own domain, and a route with no domain changes nothing |
| Migrate.AggregateOk | scripts/migrate-metadata.js:30-72 | both objects have the same domain keys and every count is positive |
| Migrate.AggregateModules | scripts/migrate-metadata.js:46-50 | `modulesUsage[d][m].count` is the number of routes of domain `d` with module `m` |
| Migrate.AggregateTagCount | scripts/migrate-metadata.js:53-65 | `tagsUsage[d][t].count` is the number of occurrences of `t` over the routes of domain `d` |
| Migrate.AggregateTagModules | scripts/migrate-metadata.js:67-70 | the module list of `tagsUsage[d][t]` holds exactly the modules of the routes of domain `d` that carry `t` |
| Migrate.AggregateDomains | scripts/migrate-metadata.js:31-44 | a domain gets entries exactly when one of its routes has a non-empty domain after removing "www." |
| Migrate.AggregateTagShape | scripts/migrate-metadata.js:53-71 | a tag is recorded exactly when it occurs, and its module list has no repeats |
| Migrate.SumSizesPairs | scripts/migrate-metadata.js:79-82 | the `reduce` over the inner objects counts the (domain, key) pairs |
| Migrate.SummaryCounts | scripts/migrate-metadata.js:78-82 | the report counts the domains, the (domain, module) pairs and the (domain, tag) pairs |
| Migrate.TrackTags | scripts/migrate-metadata.js:53-71 | the inner loop returns the tag object `TagSteps` specifies |
| Migrate.TrackRoute | scripts/migrate-metadata.js:30-72 | the body of the outer loop returns the metadata `Step` specifies |
| Migrate.MigrateExistingRoutes | scripts/migrate-metadata.js:7-90 | no routes give nothing; otherwise the result is the aggregated metadata and its totals |
| Options.NamedKeyLower | options.js:77-86 | every entry of the key table is a lower-case word of more than one character |
| Options.NormalizeKeySpec | options.js:74-88 | the normalized key is empty exactly when the key is, has no capital letter, and a one-character key is just lower-cased |
| Options.NormalizeKeyIdempotent | options.js:74-88 | normalizing a normalized key changes nothing |
| Options.CreateShortcutSpec | options.js:52-72 | a shortcut is made exactly when a modifier is held and the key is not empty, and it carries the held modifiers and the normalized key |
| Options.CreatedIsStable | options.js:46-47 | a recorded shortcut, saved and applied, is kept unchanged |
| Options.CoerceIdempotent | options.js:113-120 | applying an applied shortcut again changes nothing |
| Options.IsSameIsEquality | options.js:139-141 | `isSameShortcut` holds exactly for equal shortcuts |
| Options.ModifierLabelsSpec | options.js:92-96 | each modifier label is shown exactly when its modifier is held ("Command" for Meta on a Mac), one label per held modifier |
| Options.FormatShortcutSpec | options.js:90-111 | the shown text is upper-case, and it is empty only for no shortcut, or for no modifier and an empty key |
| Options.OptionsPage.constructor | options.js:13-30 | on load the stored shortcut, or the default when nothing is stored, is applied and shown |
| Options.OptionsPage.UpdateShortcut | options.js:113-123 | the coerced shortcut is shown and the reset button is disabled exactly when it is the default |
| Options.OptionsPage.HandleShortcutKeydown | options.js:32-50 | Tab and Escape change nothing; a press without a modifier or key only sets the status line; otherwise the shortcut is saved, shown and reported as saved |
| Options.OptionsPage.Reset | options.js:17-22 | the default is saved and shown, the reset button is disabled, and the reset is reported |
| Text.Trim | scripts/utils.js:12 | `trim` never lengthens a text and leaves no white space at either end |
| Text.TrimRemovesOnlyEnds | scripts/utils.js:12 | `trim` returns a stretch of the text with only white space before and after it, so it removes white space at the two ends and nothing else |
| Text.Split | scripts/routes-loader.js:57 | `split` on a non-empty separator always gives at least one piece |
| Text.CompareStrings | manage-routes-old.js:82 | the code-unit comparison answers -1, 0 or 1, and 0 exactly for equal strings |
| Sorting.SortBy | scripts/ranking.js:138-144 | `sort` returns a permutation of its input |
| Sorting.InsertSorted | scripts/ranking.js:138-144 | inserting into a list sorted by a strict order keeps it sorted |
| Legacy.Overlay.constructor | content-script.js:11-25 | the overlay starts closed, with no results, no nodes, no use counts and the first entry selected |
| ContentScript.Navigator.constructor | scripts/content-script.js:16-50 | the navigator starts closed, with no results, no nodes, no use counts, an empty frequency record and nothing waiting to be stored |

## Left out

- Rendering and the DOM are not modelled: the shadow-DOM overlay, HTML templates, `renderTable`, `renderGrid`, `showImportPreview`, the DOM scan (`scanDom`, `elementToNode`, `deriveHierarchy`), `MutationObserver` and history patching, and `absoluteUrl`/`sanitizeHref`, which need `location` and the URL parser. Only the state these produce or consume is kept.
- I/O and timers are not modelled: `chrome.storage` reads and writes, `fetch`, `Blob` downloads, `alert`/`showAlert`/`showStatus` and their timers, `debounce`, and the `setTimeout` of cache cleanup and usage flushing. Stored values and dialog answers are parameters. The cleanup and the flush are methods the caller invokes.
- `Date.now()`, `new Date().getHours()`/`getDay()` and `navigator.platform` are parameters (`now`, `hour`, `day`, `mac`).
- Unicode NFD decomposition inside `removeAccents` is not modelled. `Text.RemoveAccents` only deletes combining marks U+0300..U+036F from the text as given.
- Case mapping is ASCII only: `toLowerCase`/`toUpperCase` map A-Z and a-z and leave every other character alone.
- `localeCompare(…, "es", {sensitivity: "base"})` is modelled as code-unit order on lower-cased, accent-stripped text.
- The recency decay `Math.exp` and the floating-point bonuses of scripts/ranking.js (quality weights, the 1.2 boost, `computeContextScore`) are `real` values or parameters. Rounding of IEEE doubles is not modelled.
- `Array.prototype.sort` is modelled as a stable insertion sort. The engine's algorithm is unspecified. The 0.1-tolerance comparators of scripts/ranking.js are not transitive, so for them only the permutation, the deprecated-last split and the length bound are proved.
- Route records have every field present as a string: a missing field reads as "". JavaScript prototype keys and the `lastUsed` and `version` fields of the metadata are not modelled.
- The view switching, modal opening and pre-filling of scripts/manage.js, the export buttons of scripts/manage.js (`Object.values(r).join(',')`) and the template download are left out. They only build text for download.
- scripts/popup.js, background.js and scripts/background.js are not part of this model: they only relay browser events and storage.
- ManageCsv.ParseCsvOfRoutesToCsv: the round trip is stated for routes whose fields hold no newline. A title, tag text or description holding a newline is exported inside quotes, but the importer splits on every newline first, so such a route does not come back.
- Manage.RouteManager.SaveRoute: edit mode does not check that a changed id is still unique, exactly as the source; `Manage.DistinctIds` is kept only by add mode.
- Studio.Navigator.ImportCsv: the fields of an imported line are kept untrimmed, as the source destructures `line.split(',')` without trimming. A line with fewer than eight pieces gives "" for the missing fields where the source gives `undefined`.
- Options.OptionsPage.HandleShortcutKeydown: Escape's `blur()` of the input is not modelled; the status line's 4-second reset is not modelled.
- ContentScript.SimpleHash, Text.CompareStrings, Ranking.FuzzyIncludes and Legacy.FuzzyIncludes: a `string` here is a sequence of Unicode scalar values, while JavaScript's `length`, `charCodeAt`, string indexing and default `sort` work on UTF-16 code units. The two agree on text inside the Basic Multilingual Plane. A character outside it counts as one character here and as two surrogate code units in the source. So for such text the hashes and orders may differ, and so may the needle-length thresholds and gap counts of the fuzzy matchers. In the content-script matcher, `for…of` walks code points while `needle[index]` reads code units, so the source never matches a needle holding such a character with the greedy walk, while the model can.
- Legacy.Overlay.HandleInputKeys and ContentScript.Navigator.HandleInputKeys: focus changes, `preventDefault` and the Shift indicator are not modelled; only the selection index, activation and closing are.

## Findings

| source | as written | input that shows it | evidently intended | confidence | as-written member | corrected member |
|---|---|---|---|---|---|---|
| scripts/content-script.js:990 | `text.split("\\n")` splits on the two characters backslash and `n`, so a real CSV file is one line, taken as the header, and no route is read | a header line, a line break and one valid data line | split on the newline character, so each data line gives its route | not executed | ContentScript.ParseRoutesCsvIgnoresNewlines, ContentScript.OneRouteFile | ContentScript.ParseRoutesCsvLines, ContentScript.ReadOnLineBreaks |
