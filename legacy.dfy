/** The first-generation navigator overlay (content-script.js): an
    integer-only ranker with five tiers per token and an ungapped fuzzy
    test, a top-40 cut followed by a category reorder, node normalization,
    path de-duplication, the merge of static and page-scanned nodes, and
    the arrow-key selection of the overlay. */
module Legacy {
  import opened Text
  import opened Subseq
  import opened Sorting
  import Ranking

  const MaxResults: nat := 40
  const DeprecatedCategory: string := "deprecado"

  /** Where a node comes from: the bundled navigation tree or a scan of
      the page. */
  datatype Origin = Static | Dom {
    /** The name the source gives the origin. */
    function Name(): string {
      match this
      case Static => "static"
      case Dom => "dom"
    }
  }

  /** A navigation entry of the overlay. Missing text fields are "", and a
      missing action is "". */
  datatype Node = Node(
    id: string, title: string, titleLower: string, path: seq<string>, pathLower: string,
    pathLabel: string, url: string, description: string, moduleName: string, depth: int,
    action: string, source: Origin, usage: int)

  /** What the overlay renders for one entry. */
  datatype Result = Result(
    id: string, title: string, description: string, url: string, action: string,
    pathLabel: string, moduleName: string, usage: int)

  /** An entry as it is read from the bundled navigation tree: the path is
      either an explicit list or a "|"-separated label. */
  datatype RawNode = RawNode(
    id: string, path: Option<seq<string>>, pathLabel: string, title: string, url: string,
    description: string, moduleName: string, action: string)

  // ------------------------------------------------------------- scoring

  /** `fuzzyIncludes`: containment for needles of at most one character,
      otherwise the greedy walk must match the whole needle. */
  predicate FuzzyMatch(haystack: string, needle: string) {
    if |needle| <= 1 then Contains(haystack, needle)
    else |Leftmost(haystack, needle)| == |needle|
  }

  method FuzzyIncludes(haystack: string, needle: string) returns (r: bool)
    ensures r == FuzzyMatch(haystack, needle)
  {
    if |needle| <= 1 {
      return Contains(haystack, needle);
    }
    var index := 0;
    for i := 0 to |haystack|
      invariant index == |Leftmost(haystack[..i], needle)| < |needle|
    {
      LeftmostStep(haystack, needle, i);
      if haystack[i] == needle[index] {
        index := index + 1;
        if index == |needle| {
          LeftmostStable(haystack, needle, i + 1);
          return true;
        }
      }
    }
    assert haystack[..|haystack|] == haystack;
    return false;
  }

  /** For needles of two or more characters the fuzzy test is exactly the
      (not necessarily contiguous) subsequence test. */
  lemma FuzzyMatchIsSubsequence(haystack: string, needle: string)
    requires |needle| >= 2
    ensures FuzzyMatch(haystack, needle) <==> IsSubsequence(needle, haystack)
  {
    LeftmostFullIffSubsequence(haystack, needle);
  }

  /** The points one token earns: the first of exact title, title prefix,
      title substring, path substring and fuzzy title that applies; 0 when
      none does. */
  function TokenPoints(token: string, title: string, path: string): (p: nat)
    ensures p in {0, 25, 40, 60, 90, 120}
  {
    if title == token then 120
    else if StartsWith(title, token) then 90
    else if Contains(title, token) then 60
    else if Contains(path, token) then 40
    else if FuzzyMatch(title, token) then 25
    else 0
  }

  /** The summed token points, or None once a non-empty token earns none. */
  function TextPoints(tokens: seq<string>, title: string, path: string): Option<int>
    decreases |tokens|
  {
    if |tokens| == 0 then Some(0)
    else AddToken(TextPoints(tokens[..|tokens| - 1], title, path), tokens[|tokens| - 1], title, path)
  }

  /** One token of the text scan: an empty token is skipped, a token without
      points ends the scan with a miss, any other adds its points. */
  function AddToken(sum: Option<int>, token: string, title: string, path: string): Option<int> {
    match sum
    case None => None
    case Some(p) =>
      if token == "" then Some(p)
      else if TokenPoints(token, title, path) == 0 then None
      else Some(p + TokenPoints(token, title, path))
  }

  /** A non-empty token that earns no points. */
  predicate Misses(token: string, title: string, path: string) {
    token != "" && TokenPoints(token, title, path) == 0
  }

  /** `scoreNode`: 0 when some token earns no points; otherwise the token
      points plus 30 per use, plus 8 for a static entry, minus 2 per depth
      level. */
  function Score(tokens: seq<string>, n: Node): int {
    match TextPoints(tokens, n.titleLower, n.pathLower)
    case None => 0
    case Some(p) => p + n.usage * 30 + (if n.source == Static then 8 else 0) - n.depth * 2
  }

  lemma AddTokenMisses(sum: Option<int>, token: string, title: string, path: string)
    ensures AddToken(sum, token, title, path).None? <==> sum.None? || Misses(token, title, path)
  {
  }

  /** The text scan misses exactly when some non-empty token earns no
      points. */
  lemma TextPointsMissIff(tokens: seq<string>, title: string, path: string)
    ensures TextPoints(tokens, title, path).None? <==>
      exists k :: 0 <= k < |tokens| && Misses(tokens[k], title, path)
  {
    if TextPoints(tokens, title, path).None? {
      MissHasWitness(tokens, title, path);
    }
    if exists k :: 0 <= k < |tokens| && Misses(tokens[k], title, path) {
      var k :| 0 <= k < |tokens| && Misses(tokens[k], title, path);
      MissAt(tokens, title, path, k);
    }
  }

  /** A miss is caused by some non-empty token that earns no points. */
  lemma {:induction false} MissHasWitness(tokens: seq<string>, title: string, path: string)
    requires TextPoints(tokens, title, path).None?
    ensures exists k :: 0 <= k < |tokens| && Misses(tokens[k], title, path)
    decreases |tokens|
  {
    var init := tokens[..|tokens| - 1];
    var last := tokens[|tokens| - 1];
    AddTokenMisses(TextPoints(init, title, path), last, title, path);
    if TextPoints(init, title, path).None? {
      MissHasWitness(init, title, path);
      var k :| 0 <= k < |init| && Misses(init[k], title, path);
      assert tokens[k] == init[k];
    } else {
      assert Misses(tokens[|tokens| - 1], title, path);
    }
  }

  /** A non-empty token that earns no points makes the scan miss. */
  lemma MissAt(tokens: seq<string>, title: string, path: string, k: nat)
    requires k < |tokens| && Misses(tokens[k], title, path)
    ensures TextPoints(tokens, title, path).None?
  {
    var prefix := tokens[..k + 1];
    assert prefix[..k] == tokens[..k];
    assert prefix[k] == tokens[k];
    AddTokenMisses(TextPoints(tokens[..k], title, path), tokens[k], title, path);
    assert TextPoints(prefix, title, path).None?;
    MissPersists(tokens, title, path, k + 1);
  }

  /** On a hit with non-empty tokens, each token contributes between 25 and
      120 points. */
  lemma {:induction false} TextPointsBounds(tokens: seq<string>, title: string, path: string)
    requires forall k :: 0 <= k < |tokens| ==> tokens[k] != ""
    ensures TextPoints(tokens, title, path).Some? ==>
      25 * |tokens| <= TextPoints(tokens, title, path).value <= 120 * |tokens|
    decreases |tokens|
  {
    if |tokens| > 0 {
      TextPointsBounds(tokens[..|tokens| - 1], title, path);
    }
  }

  /** A node some non-empty token cannot match scores 0. */
  lemma HardAnd(tokens: seq<string>, n: Node, k: nat)
    requires k < |tokens| && tokens[k] != "" && TokenPoints(tokens[k], n.titleLower, n.pathLower) == 0
    ensures Score(tokens, n) == 0
  {
    assert Misses(tokens[k], n.titleLower, n.pathLower);
    TextPointsMissIff(tokens, n.titleLower, n.pathLower);
  }

  lemma {:induction false} MissPersists(tokens: seq<string>, title: string, path: string, i: nat)
    requires i <= |tokens| && TextPoints(tokens[..i], title, path).None?
    ensures TextPoints(tokens, title, path).None?
    decreases |tokens| - i
  {
    if i < |tokens| {
      assert tokens[..i + 1][..i] == tokens[..i];
      MissPersists(tokens, title, path, i + 1);
    } else {
      assert tokens[..i] == tokens;
    }
  }

  method ScoreNode(tokens: seq<string>, node: Node) returns (score: int)
    ensures score == Score(tokens, node)
  {
    var title := node.titleLower;
    var path := node.pathLower;
    score := 0;
    for i := 0 to |tokens|
      invariant TextPoints(tokens[..i], title, path) == Some(score)
    {
      var token := tokens[i];
      assert tokens[..i + 1][..i] == tokens[..i];
      if token == "" {
        continue;
      }
      if title == token {
        score := score + 120;
      } else if StartsWith(title, token) {
        score := score + 90;
      } else if Contains(title, token) {
        score := score + 60;
      } else if Contains(path, token) {
        score := score + 40;
      } else {
        var fuzzy := FuzzyIncludes(title, token);
        if fuzzy {
          score := score + 25;
        } else {
          MissPersists(tokens, title, path, i + 1);
          return 0;
        }
      }
    }
    assert tokens[..|tokens|] == tokens;
    score := score + node.usage * 30;
    score := score + if node.source == Static then 8 else 0;
    score := score - node.depth * 2;
  }

  // ------------------------------------------------------------ ordering

  /** `normalizeCategory`: trimmed and lower-cased (accents kept). */
  function NormalizeCategory(value: string): string {
    LowerStr(Trim(value))
  }

  predicate IsDeprecatedModule(moduleName: string) {
    NormalizeCategory(moduleName) == DeprecatedCategory
  }

  /** `compareByCategoryAndPath` on the module, path label and title of two
      entries: deprecated entries after the others, then by category, path
      label and title. */
  function CompareEntries(moduleA: string, pathA: string, titleA: string,
                          moduleB: string, pathB: string, titleB: string): (r: int)
    ensures IsDeprecatedModule(moduleA) && !IsDeprecatedModule(moduleB) ==> r == 1
    ensures !IsDeprecatedModule(moduleA) && IsDeprecatedModule(moduleB) ==> r == -1
  {
    var categoryA := NormalizeCategory(moduleA);
    var categoryB := NormalizeCategory(moduleB);
    var deprecatedA := categoryA == DeprecatedCategory;
    var deprecatedB := categoryB == DeprecatedCategory;
    if deprecatedA != deprecatedB then (if deprecatedA then 1 else -1)
    else
      var categoryCompare := Collate(categoryA, categoryB);
      if categoryCompare != 0 then categoryCompare
      else
        var pathCompare := Collate(Trim(pathA), Trim(pathB));
        if pathCompare != 0 then pathCompare
        else Collate(Trim(titleA), Trim(titleB))
  }

  function CompareNodes(a: Node, b: Node): real {
    CompareEntries(a.moduleName, a.pathLabel, a.title, b.moduleName, b.pathLabel, b.title) as real
  }

  function CompareResults(a: Result, b: Result): real {
    CompareEntries(a.moduleName, a.pathLabel, a.title, b.moduleName, b.pathLabel, b.title) as real
  }

  predicate NodeDeprecated(n: Node) {
    IsDeprecatedModule(n.moduleName)
  }

  predicate ResultDeprecated(r: Result) {
    IsDeprecatedModule(r.moduleName)
  }

  lemma NodeOrderPutsDeprecatedLast()
    ensures PutsLateLast(CompareNodes, NodeDeprecated)
  {
  }

  lemma ResultOrderPutsDeprecatedLast()
    ensures PutsLateLast(CompareResults, ResultDeprecated)
  {
  }

  // ------------------------------------------------------------- results

  /** `mapNodeToResult`: the path joined with " > ", or the title for an
      entry without a path, labels the result. */
  function MapNodeToResult(n: Node): (r: Result)
    ensures r.id == n.id && r.title == n.title && r.url == n.url && r.action == n.action
    ensures r.description == n.description && r.moduleName == n.moduleName && r.usage == n.usage
    ensures r.pathLabel == if |n.path| > 0 then Join(n.path, " > ") else n.title
  {
    Result(n.id, n.title, n.description, n.url, n.action,
           if |n.path| > 0 then Join(n.path, " > ") else n.title, n.moduleName, n.usage)
  }

  function Present(ns: seq<Node>): (r: seq<Result>)
    ensures |r| == |ns| && forall i :: 0 <= i < |ns| ==> r[i] == MapNodeToResult(ns[i])
  {
    Map(ns, MapNodeToResult)
  }

  /** A node with its integer score. */
  datatype Scored = Scored(score: int, node: Node)

  function ScoreOf(x: Scored): int {
    x.score
  }

  function NodeOf(x: Scored): Node {
    x.node
  }

  /** `(a, b) => b.score - a.score`. */
  function ByScore(a: Scored, b: Scored): real {
    (b.score - a.score) as real
  }

  lemma ByScoreDecreasing()
    ensures ByDecreasingKey(ByScore, ScoreOf)
  {
  }

  /** The nodes with a positive score, with their scores, in input order. */
  function Positive(tokens: seq<string>, nodes: seq<Node>): (r: seq<Scored>)
    ensures |r| <= |nodes|
    decreases |nodes|
  {
    if |nodes| == 0 then []
    else
      var prev := Positive(tokens, nodes[..|nodes| - 1]);
      var n := nodes[|nodes| - 1];
      if Score(tokens, n) <= 0 then prev else prev + [Scored(Score(tokens, n), n)]
  }

  lemma {:induction false} PositiveMembers(tokens: seq<string>, nodes: seq<Node>)
    ensures forall x :: x in Positive(tokens, nodes) ==>
      x.node in nodes && x.score == Score(tokens, x.node) && x.score > 0
    ensures forall n :: n in nodes && Score(tokens, n) > 0 ==> Scored(Score(tokens, n), n) in Positive(tokens, nodes)
    decreases |nodes|
  {
    if |nodes| > 0 {
      var init := nodes[..|nodes| - 1];
      PositiveMembers(tokens, init);
      assert nodes == init + [nodes[|nodes| - 1]];
      forall n | n in nodes && Score(tokens, n) > 0 ensures Scored(Score(tokens, n), n) in Positive(tokens, nodes) {
        if n != nodes[|nodes| - 1] {
          assert n in init;
        }
      }
    }
  }

  /** The scored nodes, highest score first. */
  function ByScoreOrder(tokens: seq<string>, nodes: seq<Node>): (r: seq<Scored>)
    ensures multiset(r) == multiset(Positive(tokens, nodes))
  {
    SortBy(Positive(tokens, nodes), ByScore)
  }

  /** The nodes that survive the cut: the first 40 of the score order. */
  function Kept(tokens: seq<string>, nodes: seq<Node>): (r: seq<Node>)
    ensures |r| <= MaxResults
  {
    Map(Take(ByScoreOrder(tokens, nodes), MaxResults), NodeOf)
  }

  /** `rankResults` for a query with tokens: the 40 best-scored nodes,
      presented, then reordered by category, path and title. */
  function RankTokens(tokens: seq<string>, nodes: seq<Node>): (r: seq<Result>)
    ensures |r| <= MaxResults
  {
    SortBy(Present(Kept(tokens, nodes)), CompareResults)
  }

  /** `getDefaultResults`: the overlay's nodes in category order, cut to
      40, presented. */
  function DefaultResults(nodes: seq<Node>): (r: seq<Result>)
    ensures |r| == if |nodes| < MaxResults then |nodes| else MaxResults
  {
    Present(Take(SortBy(nodes, CompareNodes), MaxResults))
  }

  /** `rankResults(query, nodes)`: a query without tokens answers with the
      default list. */
  function Rank(query: string, nodes: seq<Node>): seq<Result> {
    var tokens := Ranking.Tokenize(query);
    if tokens == [] then DefaultResults(nodes) else RankTokens(tokens, nodes)
  }

  /** The list the overlay shows for the text of the search field: the
      default list for a blank text, otherwise the ranking of the trimmed
      text. */
  function Rendered(input: string, nodes: seq<Node>): seq<Result> {
    if Trim(input) == "" then DefaultResults(nodes) else Rank(Trim(input), nodes)
  }

  /** The cut keeps the best: the score order holds exactly the positively
      scored nodes, and every kept node scores at least as much as every
      one left out. */
  lemma TopScoresKept(tokens: seq<string>, nodes: seq<Node>)
    ensures var order := ByScoreOrder(tokens, nodes);
      var kept := Take(order, MaxResults);
      forall i, j :: 0 <= i < |kept| <= j < |order| ==> kept[i].score >= order[j].score
  {
    ByScoreDecreasing();
    SortKeepsDescending(Positive(tokens, nodes), ByScore, ScoreOf);
  }

  /** Every kept node is one of the input nodes with a positive score. */
  lemma KeptMembers(tokens: seq<string>, nodes: seq<Node>)
    ensures forall n :: n in Kept(tokens, nodes) ==> n in nodes && Score(tokens, n) > 0
  {
    var order := ByScoreOrder(tokens, nodes);
    var kept := Kept(tokens, nodes);
    PositiveMembers(tokens, nodes);
    forall n | n in kept ensures n in nodes && Score(tokens, n) > 0 {
      var i :| 0 <= i < |kept| && kept[i] == n;
      assert order[i] in multiset(Positive(tokens, nodes));
    }
  }

  /** Every ranked result presents one of the input nodes with a positive
      score. */
  lemma RankTokensMembers(tokens: seq<string>, nodes: seq<Node>)
    ensures forall r :: r in RankTokens(tokens, nodes) ==>
      exists n :: n in nodes && Score(tokens, n) > 0 && r == MapNodeToResult(n)
  {
    var kept := Kept(tokens, nodes);
    var presented := Present(kept);
    KeptMembers(tokens, nodes);
    forall r | r in RankTokens(tokens, nodes)
      ensures exists n :: n in nodes && Score(tokens, n) > 0 && r == MapNodeToResult(n)
    {
      assert r in multiset(presented);
      var i :| 0 <= i < |presented| && presented[i] == r;
      assert kept[i] in kept;
    }
  }

  /** In a ranked answer every deprecated result comes after every other
      one. */
  lemma RankTokensDeprecatedLast(tokens: seq<string>, nodes: seq<Node>)
    ensures LateLast(RankTokens(tokens, nodes), ResultDeprecated)
  {
    ResultOrderPutsDeprecatedLast();
    SortKeepsLateLast(Present(Kept(tokens, nodes)), CompareResults, ResultDeprecated);
  }

  /** In the default answer every deprecated result comes after every
      other one. */
  lemma DefaultResultsDeprecatedLast(nodes: seq<Node>)
    ensures LateLast(DefaultResults(nodes), ResultDeprecated)
  {
    NodeOrderPutsDeprecatedLast();
    var sorted := SortBy(nodes, CompareNodes);
    SortKeepsLateLast(nodes, CompareNodes, NodeDeprecated);
    TakeKeepsLateLast(sorted, MaxResults, NodeDeprecated);
    var taken := Take(sorted, MaxResults);
    var r := DefaultResults(nodes);
    forall i, j | 0 <= i < j < |r| && ResultDeprecated(r[i]) ensures ResultDeprecated(r[j]) {
      assert NodeDeprecated(taken[i]);
    }
  }


  // --------------------------------------------------------------- paths

  /** `buildPath` on a label: the trimmed, non-empty "|"-separated pieces. */
  function BuildPath(text: string): seq<string> {
    Pieces(text, '|')
  }

  /** Every piece is trimmed, non-empty and free of "|", and a path of such
      pieces joined with "|" builds back to itself. */
  lemma BuildPathProperties(text: string, path: seq<string>)
    requires forall k :: 0 <= k < |path| ==> path[k] != "" && IsTrimmed(path[k]) && '|' !in path[k]
    ensures forall k :: 0 <= k < |BuildPath(text)| ==>
      BuildPath(text)[k] != "" && IsTrimmed(BuildPath(text)[k]) && '|' !in BuildPath(text)[k]
    ensures BuildPath(Join(path, "|")) == path
  {
    PiecesShape(text, '|');
    PiecesOfJoin(path, '|');
  }

  /** The id of a normalized node: its own, or the source followed by its
      address or, failing that, its title. */
  function NodeId(raw: RawNode, source: Origin): string {
    if raw.id != "" then raw.id else source.Name() + ":" + (if raw.url != "" then raw.url else raw.title)
  }

  function NodePath(raw: RawNode): seq<string> {
    if raw.path.Some? then raw.path.value else BuildPath(raw.pathLabel)
  }

  function NodeTitle(raw: RawNode, path: seq<string>): string {
    if raw.title != "" then raw.title else if |path| > 0 then path[|path| - 1] else ""
  }

  /** A node without an action navigates when it has an address. */
  function NodeAction(raw: RawNode): string {
    if raw.action != "" then raw.action else if raw.url != "" then "navigate" else ""
  }

  /** `normalizeNode`: fills in the id, path, depth, title and action an
      entry may lack, and resets its usage. */
  function NormalizeNode(raw: RawNode, source: Origin): (n: Node)
    ensures n.depth == if |n.path| > 0 then |n.path| - 1 else 0
    ensures raw.path.None? ==> n.path == BuildPath(raw.pathLabel)
    ensures raw.title == "" && |n.path| > 0 ==> n.title == n.path[|n.path| - 1]
    ensures n.source == source && n.usage == 0
  {
    var path := NodePath(raw);
    var title := NodeTitle(raw, path);
    Node(NodeId(raw, source), title, RemoveAccents(LowerStr(title)), path,
         RemoveAccents(LowerStr(Join(path, " "))),
         if raw.pathLabel != "" then raw.pathLabel else Join(path, " > "),
         raw.url, raw.description, raw.moduleName, if |path| > 0 then |path| - 1 else 0,
         NodeAction(raw), source, 0)
  }

  /** A node built from a label never has a negative depth, and its depth
      counts the separators between its pieces. */
  lemma NormalizeNodeDepth(raw: RawNode, source: Origin)
    ensures NormalizeNode(raw, source).depth >= 0
    ensures raw.path.None? && |BuildPath(raw.pathLabel)| > 0 ==>
      NormalizeNode(raw, source).depth == |BuildPath(raw.pathLabel)| - 1
  {
  }

  /** The items kept by `dedupePath`: non-empty ones that differ from the
      item kept just before. */
  function Dedupe(path: seq<string>): (r: seq<string>)
    decreases |path|
  {
    if |path| == 0 then []
    else
      var prev := Dedupe(path[..|path| - 1]);
      var item := path[|path| - 1];
      if item == "" || (|prev| > 0 && prev[|prev| - 1] == item) then prev else prev + [item]
  }

  method DedupePath(path: seq<string>) returns (result: seq<string>)
    ensures result == Dedupe(path)
  {
    result := [];
    for i := 0 to |path|
      invariant result == Dedupe(path[..i])
    {
      assert path[..i + 1][..i] == path[..i];
      var item := path[i];
      if item == "" {
        continue;
      }
      if |result| > 0 && result[|result| - 1] == item {
        continue;
      }
      result := result + [item];
    }
    assert path[..|path|] == path;
  }

  /** `dedupePath` keeps no empty item and no two equal neighbours, and
      keeps an item exactly when it is a non-empty item of the path. */
  lemma {:induction false} DedupeProperties(path: seq<string>)
    ensures forall k :: 0 <= k < |Dedupe(path)| ==> Dedupe(path)[k] != ""
    ensures forall k :: 0 < k < |Dedupe(path)| ==> Dedupe(path)[k - 1] != Dedupe(path)[k]
    ensures forall x :: x in Dedupe(path) <==> x in path && x != ""
    decreases |path|
  {
    if |path| > 0 {
      var init := path[..|path| - 1];
      DedupeProperties(init);
      assert path == init + [path[|path| - 1]];
    }
  }

  /** `dedupePath` keeps the order of the path: what it returns is a
      subsequence of its input. */
  lemma {:induction false} DedupeIsSubsequence(path: seq<string>)
    ensures exists p :: IsSubsequenceOf(Dedupe(path), path, p)
    decreases |path|
  {
    if |path| == 0 {
      assert IsSubsequenceOf(Dedupe(path), path, []);
    } else {
      var init := path[..|path| - 1];
      DedupeIsSubsequence(init);
      var p :| IsSubsequenceOf(Dedupe(init), init, p);
      var r := Dedupe(path);
      assert forall k :: 0 <= k < |p| ==> path[p[k]] == init[p[k]];
      if r == Dedupe(init) {
        assert IsSubsequenceOf(r, path, p);
      } else {
        assert r == Dedupe(init) + [path[|path| - 1]];
        assert IsSubsequenceOf(r, path, p + [|path| - 1]);
      }
    }
  }

  /** `p` lists strictly increasing positions of `s` holding the elements
      of `r` in order. */
  predicate IsSubsequenceOf(r: seq<string>, s: seq<string>, p: seq<int>) {
    |p| == |r|
    && (forall k :: 0 <= k < |p| ==> 0 <= p[k] < |s| && s[p[k]] == r[k])
    && (forall k :: 0 < k < |p| ==> p[k - 1] < p[k])
  }

  // --------------------------------------------------------------- merge

  /** The address key of `mergeNodes`: lower-cased, then trimmed. */
  function NormalizeUrl(url: string): string {
    Trim(LowerStr(url))
  }

  function UsageOf(usage: map<string, int>, id: string): int {
    if id in usage then usage[id] else 0
  }

  /** A node with the stored use count of its id. */
  function WithUsage(n: Node, usage: map<string, int>): (r: Node)
    ensures r.id == n.id && r.url == n.url && r.source == n.source && r.action == n.action
    ensures r.usage == UsageOf(usage, n.id)
  {
    n.(usage := UsageOf(usage, n.id))
  }

  /** A node the overlay can act on: it has an address or is clicked. */
  predicate Navigable(n: Node) {
    n.url != "" || n.action == "click"
  }

  /** The two maps of `mergeNodes`, with the insertion order of the id map
      kept as `order`. */
  datatype Merge = Merge(order: seq<string>, byId: map<string, Node>, byUrl: map<string, Node>)

  function Without(order: seq<string>, id: string): (r: seq<string>)
    ensures forall x :: x in r <==> x in order && x != id
    decreases |order|
  {
    if |order| == 0 then []
    else
      var prev := Without(order[..|order| - 1], id);
      var last := order[|order| - 1];
      assert forall x :: x in order <==> x in order[..|order| - 1] || x == last;
      if last == id then prev else prev + [last]
  }

  /** Removing an id from a list without repeats leaves a list without
      repeats. */
  predicate NoRepeats(order: seq<string>) {
    forall i, j :: 0 <= i < j < |order| ==> order[i] != order[j]
  }

  lemma {:induction false} WithoutDistinct(order: seq<string>, id: string)
    requires forall i, j :: 0 <= i < j < |order| ==> order[i] != order[j]
    ensures NoRepeats(Without(order, id))
    decreases |order|
  {
    if |order| > 0 {
      var init := order[..|order| - 1];
      WithoutDistinct(init, id);
      var last := order[|order| - 1];
      var r0 := Without(init, id);
      assert last !in init;
      if last != id {
        var r := r0 + [last];
        assert Without(order, id) == r;
        forall i, j | 0 <= i < j < |r| ensures r[i] != r[j] {
          if j == |r0| {
            assert r[i] in r0;
          } else {
            assert r[i] == r0[i] && r[j] == r0[j];
          }
        }
      } else {
        assert Without(order, id) == r0;
      }
    }
  }

  /** `byId.set(n.id, n)`: a new id goes to the end, a known one keeps its
      place. */
  function Put(m: Merge, n: Node): Merge {
    Merge(if n.id in m.byId then m.order else m.order + [n.id], m.byId[n.id := n], m.byUrl)
  }

  /** `byId.delete(id)`. */
  function Delete(m: Merge, id: string): Merge {
    Merge(Without(m.order, id), m.byId - {id}, m.byUrl)
  }

  /** One node of the combined list: a page node whose address a static
      node already holds is skipped; a static node displaces the page node
      holding its address; otherwise the node is recorded under its id and
      its address. */
  function MergeStep(m: Merge, n: Node): Merge {
    if n.url == "" then Put(m, n)
    else
      var u := NormalizeUrl(n.url);
      if u in m.byUrl && m.byUrl[u].source == Static && n.source == Dom then m
      else
        var m1 := if u in m.byUrl && n.source == Static && m.byUrl[u].source == Dom
                  then Delete(m, m.byUrl[u].id) else m;
        Put(m1.(byUrl := m1.byUrl[u := n]), n)
  }

  function MergeAll(nodes: seq<Node>, usage: map<string, int>): Merge
    decreases |nodes|
  {
    if |nodes| == 0 then Merge([], map[], map[])
    else MergeStep(MergeAll(nodes[..|nodes| - 1], usage), WithUsage(nodes[|nodes| - 1], usage))
  }

  /** The navigable values of the id map, in its insertion order. */
  function Collect(order: seq<string>, byId: map<string, Node>): seq<Node>
    decreases |order|
  {
    if |order| == 0 then []
    else
      var prev := Collect(order[..|order| - 1], byId);
      var id := order[|order| - 1];
      if id in byId && Navigable(byId[id]) then prev + [byId[id]] else prev
  }

  /** The overlay's nodes after `mergeNodes`: static nodes first, then the
      page's. */
  function Merged(staticNodes: seq<Node>, domNodes: seq<Node>, usage: map<string, int>): seq<Node> {
    var m := MergeAll(staticNodes + domNodes, usage);
    Collect(m.order, m.byId)
  }

  /** The insertion order lists each key of the id map once, every entry
      is stored under its own id, and carries the stored use count. */
  predicate WellFormed(m: Merge, usage: map<string, int>) {
    (forall i :: 0 <= i < |m.order| ==> m.order[i] in m.byId)
    && (forall i, j :: 0 <= i < j < |m.order| ==> m.order[i] != m.order[j])
    && (forall id :: id in m.byId ==>
          id in m.order && m.byId[id].id == id && m.byId[id].usage == UsageOf(usage, id))
  }

  lemma PutWellFormed(m: Merge, n: Node, usage: map<string, int>)
    requires WellFormed(m, usage) && n.usage == UsageOf(usage, n.id)
    ensures WellFormed(Put(m, n), usage)
  {
  }

  lemma DeleteWellFormed(m: Merge, id: string, usage: map<string, int>)
    requires WellFormed(m, usage)
    ensures WellFormed(Delete(m, id), usage)
  {
    DeleteNoRepeats(m, id, usage);
    DeleteListed(m, id, usage);
  }

  lemma DeleteNoRepeats(m: Merge, id: string, usage: map<string, int>)
    requires WellFormed(m, usage)
    ensures var d := Delete(m, id); forall i, j :: 0 <= i < j < |d.order| ==> d.order[i] != d.order[j]
  {
    WithoutDistinct(m.order, id);
    assert Delete(m, id).order == Without(m.order, id);
  }

  lemma DeleteListed(m: Merge, id: string, usage: map<string, int>)
    requires WellFormed(m, usage)
    ensures var d := Delete(m, id); forall i :: 0 <= i < |d.order| ==> d.order[i] in d.byId
  {
    var r := Without(m.order, id);
    forall i | 0 <= i < |r| ensures r[i] in m.byId - {id} {
      assert r[i] in r;
    }
  }

  /** The entries of the id map after one step are entries from before it
      or the new node itself. */
  lemma MergeStepFrom(m: Merge, n: Node)
    ensures forall id :: id in MergeStep(m, n).byId ==>
      (id in m.byId && MergeStep(m, n).byId[id] == m.byId[id]) || MergeStep(m, n).byId[id] == n
  {
    if n.url != "" {
      var u := NormalizeUrl(n.url);
      if !(u in m.byUrl && m.byUrl[u].source == Static && n.source == Dom) {
        var m1 := if u in m.byUrl && n.source == Static && m.byUrl[u].source == Dom
                  then Delete(m, m.byUrl[u].id) else m;
        assert forall id :: id in m1.byId ==> id in m.byId && m1.byId[id] == m.byId[id];
        assert MergeStep(m, n) == Put(m1.(byUrl := m1.byUrl[u := n]), n);
      }
    }
  }

  lemma MergeStepWellFormed(m: Merge, n: Node, usage: map<string, int>)
    requires WellFormed(m, usage) && n.usage == UsageOf(usage, n.id)
    ensures WellFormed(MergeStep(m, n), usage)
  {
    if n.url != "" {
      var u := NormalizeUrl(n.url);
      if !(u in m.byUrl && m.byUrl[u].source == Static && n.source == Dom) {
        var m1 := m;
        if u in m.byUrl && n.source == Static && m.byUrl[u].source == Dom {
          DeleteWellFormed(m, m.byUrl[u].id, usage);
          m1 := Delete(m, m.byUrl[u].id);
        }
        PutWellFormed(m1.(byUrl := m1.byUrl[u := n]), n, usage);
      }
    } else {
      PutWellFormed(m, n, usage);
    }
  }

  lemma {:induction false} MergeAllWellFormed(nodes: seq<Node>, usage: map<string, int>)
    ensures WellFormed(MergeAll(nodes, usage), usage)
    decreases |nodes|
  {
    if |nodes| > 0 {
      MergeAllWellFormed(nodes[..|nodes| - 1], usage);
      MergeStepWellFormed(MergeAll(nodes[..|nodes| - 1], usage), WithUsage(nodes[|nodes| - 1], usage), usage);
    }
  }

  /** What `Collect` returns are navigable entries of the id map, listed
      under ids of the order; with distinct ids in the order and every
      entry under its own id, no id is returned twice. */
  lemma {:induction false} CollectProperties(order: seq<string>, byId: map<string, Node>)
    requires forall i, j :: 0 <= i < j < |order| ==> order[i] != order[j]
    requires forall id :: id in byId ==> byId[id].id == id
    ensures forall x :: x in Collect(order, byId) ==> x.id in order && x.id in byId && byId[x.id] == x && Navigable(x)
    ensures forall i, j :: 0 <= i < j < |Collect(order, byId)| ==> Collect(order, byId)[i].id != Collect(order, byId)[j].id
    decreases |order|
  {
    if |order| > 0 {
      var init := order[..|order| - 1];
      CollectProperties(init, byId);
      var last := order[|order| - 1];
      assert last !in init;
    }
  }

  /** After a merge no two nodes share an id; every node can be acted on
      and carries the stored use count of its id. */
  lemma MergedProperties(staticNodes: seq<Node>, domNodes: seq<Node>, usage: map<string, int>)
    ensures var r := Merged(staticNodes, domNodes, usage);
      (forall i, j :: 0 <= i < j < |r| ==> r[i].id != r[j].id)
      && forall x :: x in r ==> Navigable(x) && x.usage == UsageOf(usage, x.id)
  {
    var m := MergeAll(staticNodes + domNodes, usage);
    MergeAllWellFormed(staticNodes + domNodes, usage);
    CollectProperties(m.order, m.byId);
  }

  /** Every node the merge keeps is one of the inputs with its stored use
      count. */
  lemma {:induction false} MergeAllFrom(nodes: seq<Node>, usage: map<string, int>)
    ensures forall id :: id in MergeAll(nodes, usage).byId ==>
      exists n :: n in nodes && MergeAll(nodes, usage).byId[id] == WithUsage(n, usage)
    decreases |nodes|
  {
    if |nodes| > 0 {
      var init := nodes[..|nodes| - 1];
      var last := nodes[|nodes| - 1];
      MergeAllFrom(init, usage);
      MergeStepFrom(MergeAll(init, usage), WithUsage(last, usage));
      var m := MergeAll(nodes, usage);
      forall id | id in m.byId ensures exists n :: n in nodes && m.byId[id] == WithUsage(n, usage) {
        if m.byId[id] != WithUsage(last, usage) {
          var n :| n in init && MergeAll(init, usage).byId[id] == WithUsage(n, usage);
          assert n in nodes;
        }
      }
    }
  }

  lemma MergedFrom(staticNodes: seq<Node>, domNodes: seq<Node>, usage: map<string, int>)
    ensures forall x :: x in Merged(staticNodes, domNodes, usage) ==>
      exists n :: (n in staticNodes || n in domNodes) && x == WithUsage(n, usage)
  {
    var nodes := staticNodes + domNodes;
    var m := MergeAll(nodes, usage);
    MergeAllWellFormed(nodes, usage);
    CollectProperties(m.order, m.byId);
    MergeAllFrom(nodes, usage);
  }

  /** The addresses of the static nodes. */
  function StaticUrls(staticNodes: seq<Node>): set<string> {
    set n | n in staticNodes && n.url != "" :: NormalizeUrl(n.url)
  }

  predicate AllFrom(nodes: seq<Node>, source: Origin) {
    forall k :: 0 <= k < |nodes| ==> nodes[k].source == source
  }

  /** The static invariant for a set `urls` of addresses: each is held by
      a static node, and every entry of both maps is static. */
  predicate StaticHeld(m: Merge, urls: set<string>) {
    (forall u :: u in urls ==> u in m.byUrl)
    && (forall u :: u in m.byUrl ==> m.byUrl[u].source == Static)
    && forall id :: id in m.byId ==> m.byId[id].source == Static
  }

  /** A node whose address is free, or held by a node of the same origin,
      is recorded under that address and under its id. */
  lemma StepRecords(m: Merge, n: Node)
    requires n.url != ""
    requires NormalizeUrl(n.url) in m.byUrl ==> m.byUrl[NormalizeUrl(n.url)].source == n.source
    ensures MergeStep(m, n) == Put(m.(byUrl := m.byUrl[NormalizeUrl(n.url) := n]), n)
  {
  }

  lemma PutStaticHeld(m: Merge, n: Node, urls: set<string>, u: string)
    requires StaticHeld(m, urls) && n.source == Static
    ensures StaticHeld(Put(m.(byUrl := m.byUrl[u := n]), n), urls + {u})
  {
  }

  lemma StaticStep(m: Merge, n: Node, urls: set<string>)
    requires StaticHeld(m, urls) && n.source == Static
    ensures StaticHeld(MergeStep(m, n), if n.url != "" then urls + {NormalizeUrl(n.url)} else urls)
  {
    if n.url != "" {
      StepRecords(m, n);
      PutStaticHeld(m, n, urls, NormalizeUrl(n.url));
    } else {
      assert MergeStep(m, n) == Put(m, n);
    }
  }

  lemma StaticUrlsLast(staticNodes: seq<Node>)
    requires |staticNodes| > 0
    ensures var n := staticNodes[|staticNodes| - 1];
      StaticUrls(staticNodes) == StaticUrls(staticNodes[..|staticNodes| - 1]) + (if n.url != "" then {NormalizeUrl(n.url)} else {})
  {
    ImageSnoc(staticNodes, (n: Node) => NormalizeUrl(n.url), (n: Node) => n.url != "");
  }

  /** After the static nodes alone, each static address is held by a
      static node and every entry of the id map is static. */
  lemma {:induction false} StaticPhase(staticNodes: seq<Node>, usage: map<string, int>)
    requires AllFrom(staticNodes, Static)
    ensures StaticHeld(MergeAll(staticNodes, usage), StaticUrls(staticNodes))
    decreases |staticNodes|
  {
    if |staticNodes| > 0 {
      var init := staticNodes[..|staticNodes| - 1];
      StaticPhase(init, usage);
      StaticUrlsLast(staticNodes);
      StaticStep(MergeAll(init, usage), WithUsage(staticNodes[|staticNodes| - 1], usage), StaticUrls(init));
    }
  }

  /** The merge invariant while page nodes come in: static addresses stay
      with static nodes and no page entry of the id map holds one. */
  predicate DomExcluded(m: Merge, urls: set<string>) {
    (forall u :: u in urls ==> u in m.byUrl && m.byUrl[u].source == Static)
    && forall id :: id in m.byId && m.byId[id].source == Dom ==>
         m.byId[id].url == "" || NormalizeUrl(m.byId[id].url) !in urls
  }

  lemma DomStep(m: Merge, n: Node, urls: set<string>)
    requires DomExcluded(m, urls) && n.source == Dom
    ensures DomExcluded(MergeStep(m, n), urls)
  {
    if n.url == "" {
      assert MergeStep(m, n) == Put(m, n);
      PutDom(m, n, urls);
    } else {
      var u := NormalizeUrl(n.url);
      if u in m.byUrl && m.byUrl[u].source == Static {
        assert MergeStep(m, n) == m;
      } else {
        assert u !in urls;
        StepRecords(m, n);
        RecordDom(m, n, urls, u);
        PutDom(m.(byUrl := m.byUrl[u := n]), n, urls);
      }
    }
  }

  /** Recording a page node under an id keeps the invariant when its
      address is not static. */
  lemma PutDom(m: Merge, n: Node, urls: set<string>)
    requires DomExcluded(m, urls) && n.source == Dom
    requires n.url == "" || NormalizeUrl(n.url) !in urls
    ensures DomExcluded(Put(m, n), urls)
  {
  }

  /** Recording a node under an address outside `urls` keeps the
      invariant. */
  lemma RecordDom(m: Merge, n: Node, urls: set<string>, u: string)
    requires DomExcluded(m, urls) && u !in urls
    ensures DomExcluded(m.(byUrl := m.byUrl[u := n]), urls)
  {
  }

  /** While page nodes are merged, static addresses stay with static nodes
      and no page node holding a static address enters the id map. */
  lemma {:induction false} DomPhase(staticNodes: seq<Node>, domNodes: seq<Node>, k: nat, usage: map<string, int>)
    requires AllFrom(staticNodes, Static) && AllFrom(domNodes, Dom) && k <= |domNodes|
    ensures DomExcluded(MergeAll(staticNodes + domNodes[..k], usage), StaticUrls(staticNodes))
    decreases k
  {
    var urls := StaticUrls(staticNodes);
    if k == 0 {
      assert staticNodes + domNodes[..0] == staticNodes;
      StaticPhase(staticNodes, usage);
      StaticHeldExcludes(MergeAll(staticNodes, usage), urls);
    } else {
      var nodes := staticNodes + domNodes[..k];
      assert nodes[..|nodes| - 1] == staticNodes + domNodes[..k - 1];
      assert nodes[|nodes| - 1] == domNodes[k - 1];
      DomPhase(staticNodes, domNodes, k - 1, usage);
      DomStepAll(nodes, urls, usage);
    }
  }

  lemma MergeAllLast(nodes: seq<Node>, usage: map<string, int>)
    requires |nodes| > 0
    ensures MergeAll(nodes, usage) == MergeStep(MergeAll(nodes[..|nodes| - 1], usage), WithUsage(nodes[|nodes| - 1], usage))
  {
  }

  lemma DomStepAll(nodes: seq<Node>, urls: set<string>, usage: map<string, int>)
    requires |nodes| > 0 && nodes[|nodes| - 1].source == Dom
    requires DomExcluded(MergeAll(nodes[..|nodes| - 1], usage), urls)
    ensures DomExcluded(MergeAll(nodes, usage), urls)
  {
    MergeAllLast(nodes, usage);
    DomStep(MergeAll(nodes[..|nodes| - 1], usage), WithUsage(nodes[|nodes| - 1], usage), urls);
  }

  lemma StaticHeldExcludes(m: Merge, urls: set<string>)
    requires StaticHeld(m, urls)
    ensures DomExcluded(m, urls)
  {
  }

  /** Static nodes win: no page node whose address is also a static
      node's survives the merge. */
  lemma StaticWins(staticNodes: seq<Node>, domNodes: seq<Node>, usage: map<string, int>)
    requires AllFrom(staticNodes, Static) && AllFrom(domNodes, Dom)
    ensures forall x :: x in Merged(staticNodes, domNodes, usage) && x.source == Dom ==>
      NormalizeUrl(x.url) !in StaticUrls(staticNodes) || x.url == ""
  {
    var nodes := staticNodes + domNodes;
    var m := MergeAll(nodes, usage);
    assert domNodes[..|domNodes|] == domNodes;
    DomPhase(staticNodes, domNodes, |domNodes|, usage);
    MergeAllWellFormed(nodes, usage);
    CollectProperties(m.order, m.byId);
  }

  /** The body of the `mergeNodes` loop for one node, on the id map (with
      its insertion order) and the address map. */
  method Absorb(order: seq<string>, byId: map<string, Node>, byUrl: map<string, Node>, node: Node)
    returns (order': seq<string>, byId': map<string, Node>, byUrl': map<string, Node>)
    ensures Merge(order', byId', byUrl') == MergeStep(Merge(order, byId, byUrl), node)
  {
    order', byId', byUrl' := order, byId, byUrl;
    if node.url != "" {
      var normalizedUrl := NormalizeUrl(node.url);
      if normalizedUrl in byUrl {
        var existing := byUrl[normalizedUrl];
        if existing.source == Static && node.source == Dom {
          return;
        } else if node.source == Static && existing.source == Dom {
          order' := Without(order, existing.id);
          byId' := byId - {existing.id};
        }
      }
      byUrl' := byUrl'[normalizedUrl := node];
    }
    if node.id !in byId' {
      order' := order' + [node.id];
    }
    byId' := byId'[node.id := node];
  }

  /** The loop of `mergeNodes` over the combined list. */
  method FoldNodes(combined: seq<Node>, usage: map<string, int>) returns (m: Merge)
    ensures m == MergeAll(combined, usage)
  {
    var order: seq<string> := [];
    var byId: map<string, Node> := map[];
    var byUrl: map<string, Node> := map[];
    for i := 0 to |combined|
      invariant Merge(order, byId, byUrl) == MergeAll(combined[..i], usage)
    {
      assert combined[..i + 1][..i] == combined[..i];
      var node := WithUsage(combined[i], usage);
      order, byId, byUrl := Absorb(order, byId, byUrl, node);
    }
    assert combined[..|combined|] == combined;
    return Merge(order, byId, byUrl);
  }

  /** `Array.from(byId.values()).filter(...)`. */
  method CollectNodes(order: seq<string>, byId: map<string, Node>) returns (merged: seq<Node>)
    ensures merged == Collect(order, byId)
  {
    merged := [];
    for j := 0 to |order|
      invariant merged == Collect(order[..j], byId)
    {
      assert order[..j + 1][..j] == order[..j];
      var id := order[j];
      if id in byId && Navigable(byId[id]) {
        merged := merged + [byId[id]];
      }
    }
    assert order[..|order|] == order;
  }

  // ------------------------------------------------------------- overlay

  /** The selection after ArrowDown: the next result, wrapping to the
      first. */
  function NextIndex(i: int, count: nat): (r: int)
    requires 0 <= i < count
    ensures r == (i + 1) % count
  {
    if i >= count - 1 then 0 else i + 1
  }

  /** The selection after ArrowUp: the previous result, wrapping to the
      last. */
  function PrevIndex(i: int, count: nat): (r: int)
    requires 0 <= i < count
    ensures r == (i + count - 1) % count
  {
    if i <= 0 then count - 1 else i - 1
  }

  /** ArrowUp undoes ArrowDown and ArrowDown undoes ArrowUp. */
  lemma ArrowsInverse(i: int, count: nat)
    requires 0 <= i < count
    ensures 0 <= NextIndex(i, count) < count && PrevIndex(NextIndex(i, count), count) == i
    ensures 0 <= PrevIndex(i, count) < count && NextIndex(PrevIndex(i, count), count) == i
  {
  }

  /** The overlay's state: whether it is open, the rendered results and
      the selected one, the merged nodes, the static nodes and the use
      counts. */
  class Overlay {
    var open: bool
    var results: seq<Result>
    var selectedIndex: int
    var nodes: seq<Node>
    var staticNodes: seq<Node>
    var usageMap: map<string, int>

    /** The selection points at a rendered result, or is 0 when nothing is
        rendered. */
    ghost predicate Valid()
      reads this
    {
      0 <= selectedIndex && (selectedIndex < |results| || selectedIndex == 0)
    }

    constructor()
      ensures Valid() && !open && results == [] && selectedIndex == 0
      ensures nodes == [] && staticNodes == [] && usageMap == map[]
    {
      open := false;
      results := [];
      selectedIndex := 0;
      nodes := [];
      staticNodes := [];
      usageMap := map[];
    }

    /** `renderResults`: shows a list and selects its first entry. */
    method RenderResults(list: seq<Result>)
      modifies this
      ensures Valid() && results == list && selectedIndex == 0
      ensures open == old(open) && nodes == old(nodes) && staticNodes == old(staticNodes) && usageMap == old(usageMap)
    {
      results := list;
      selectedIndex := 0;
    }

    /** `handleQueryInput`: a blank query shows the default list, any
        other is ranked against the merged nodes. */
    method HandleQueryInput(query: string)
      modifies this
      ensures Valid() && selectedIndex == 0
      ensures results == Rendered(query, nodes)
      ensures open == old(open) && nodes == old(nodes) && staticNodes == old(staticNodes) && usageMap == old(usageMap)
    {
      var trimmed := Trim(query);
      if trimmed == "" {
        RenderResults(DefaultResults(nodes));
        return;
      }
      RenderResults(Rank(trimmed, nodes));
    }

    /** `incrementUsage`: one more use of an id. */
    method IncrementUsage(id: string)
      modifies this
      ensures usageMap == old(usageMap)[id := UsageOf(old(usageMap), id) + 1]
      ensures open == old(open) && results == old(results) && selectedIndex == old(selectedIndex)
      ensures nodes == old(nodes) && staticNodes == old(staticNodes)
    {
      var next := UsageOf(usageMap, id) + 1;
      usageMap := usageMap[id := next];
    }

    /** `activateSelected`: counts a use of the selected result, closes
        the overlay and returns the result to open; nothing happens when
        no result is selected. */
    method ActivateSelected() returns (selection: Option<Result>)
      requires Valid()
      modifies this
      ensures Valid()
      ensures old(selectedIndex) < |old(results)| ==>
        selection == Some(old(results)[old(selectedIndex)]) && !open
        && usageMap == old(usageMap)[selection.value.id := UsageOf(old(usageMap), selection.value.id) + 1]
      ensures old(selectedIndex) >= |old(results)| ==> selection == None && open == old(open) && usageMap == old(usageMap)
      ensures results == old(results) && selectedIndex == old(selectedIndex)
      ensures nodes == old(nodes) && staticNodes == old(staticNodes)
    {
      if selectedIndex >= |results| {
        return None;
      }
      var chosen := results[selectedIndex];
      IncrementUsage(chosen.id);
      open := false;
      return Some(chosen);
    }

    /** `handleInputKeys`: with nothing rendered only Escape acts (it
        closes); otherwise the arrows move the selection with wrap-around,
        Enter activates the selection and Escape closes. */
    method HandleInputKeys(key: string) returns (selection: Option<Result>)
      requires Valid()
      modifies this
      ensures Valid()
      ensures results == old(results) && nodes == old(nodes) && staticNodes == old(staticNodes)
      ensures |results| == 0 ==>
        selection == None && selectedIndex == old(selectedIndex) && usageMap == old(usageMap)
        && open == (old(open) && key != "Escape")
      ensures |results| > 0 && key == "ArrowDown" ==>
        selectedIndex == NextIndex(old(selectedIndex), |results|) && selection == None && open == old(open)
      ensures |results| > 0 && key == "ArrowUp" ==>
        selectedIndex == PrevIndex(old(selectedIndex), |results|) && selection == None && open == old(open)
      ensures |results| > 0 && key == "Enter" ==>
        selection == Some(results[old(selectedIndex)]) && !open && selectedIndex == old(selectedIndex)
        && usageMap == old(usageMap)[results[old(selectedIndex)].id := UsageOf(old(usageMap), results[old(selectedIndex)].id) + 1]
      ensures |results| > 0 && key == "Escape" ==> selection == None && !open && selectedIndex == old(selectedIndex)
      ensures key !in {"ArrowDown", "ArrowUp", "Enter"} ==> usageMap == old(usageMap)
    {
      selection := None;
      if |results| == 0 {
        if key == "Escape" {
          open := false;
        }
        return;
      }
      var maxIndex := |results| - 1;
      if key == "ArrowDown" {
        selectedIndex := if selectedIndex >= maxIndex then 0 else selectedIndex + 1;
      } else if key == "ArrowUp" {
        selectedIndex := if selectedIndex <= 0 then maxIndex else selectedIndex - 1;
      } else if key == "Enter" {
        selection := ActivateSelected();
      } else if key == "Escape" {
        open := false;
      }
    }

    /** `loadStaticNavigation` once the bundled tree is read: the entries
        become static nodes and are merged; `input` is the text of the
        search field. */
    method LoadStatic(entries: seq<RawNode>, input: string)
      modifies this
      ensures staticNodes == Map(entries, (raw: RawNode) => NormalizeNode(raw, Static))
      ensures AllFrom(staticNodes, Static)
      ensures nodes == Merged(staticNodes, [], usageMap)
      ensures usageMap == old(usageMap) && open == old(open)
      ensures old(open) ==> results == Rendered(input, nodes) && selectedIndex == 0
      ensures !old(open) ==> results == old(results) && selectedIndex == old(selectedIndex)
    {
      staticNodes := Map(entries, (raw: RawNode) => NormalizeNode(raw, Static));
      MergeNodes([], input);
    }

    /** `mergeNodes`: static nodes, then the page's, folded into the id and
        address maps; the navigable entries of the id map become the
        overlay's nodes. An open overlay then shows the list for the text
        `input` of the search field, with its first entry selected. */
    method MergeNodes(domNodes: seq<Node>, input: string)
      modifies this
      ensures nodes == Merged(staticNodes, domNodes, usageMap)
      ensures staticNodes == old(staticNodes) && usageMap == old(usageMap) && open == old(open)
      ensures old(open) ==> results == Rendered(input, nodes) && selectedIndex == 0
      ensures !old(open) ==> results == old(results) && selectedIndex == old(selectedIndex)
    {
      var m := FoldNodes(staticNodes + domNodes, usageMap);
      nodes := CollectNodes(m.order, m.byId);
      if open {
        RenderResults(Rendered(input, nodes));
      }
    }
  }
}
