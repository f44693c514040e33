/** The search ranking engine (scripts/ranking.js): query tokenizing, the
    nine-tier text scorer with its fuzzy matcher, the result pipeline that
    keeps deprecated entries last, and the engine object whose result cache
    is a mutable map with a time-to-live and a version check. */
module Ranking {
  import opened Text
  import opened Subseq
  import opened Sorting

  const DefaultCacheTtl: int := 2 * 60 * 1000
  const DefaultMaxResults: nat := 40
  const DeprecatedCategory: string := "deprecado"
  const LegacyStatus: string := "legacy"
  const StaticSource: string := "static"

  /** The separator `mapNodeToResult` joins tag lists with: the UTF-8 bytes
      of " · " read back as Latin-1, kept exactly as the engine writes it. */
  const HierarchySeparator: string := " \U{00C2}\U{00B7} "

  /** A navigation entry. An empty string stands for a missing text field,
      as JavaScript's `||` defaults treat both alike. */
  datatype Node = Node(
    id: string, title: string, titleLower: string, tag: seq<string>, tagLower: string,
    description: string, moduleName: string, status: string, url: string, action: string,
    source: string, usage: int, depth: int, pathLabel: string)

  /** What the overlay renders for one entry. */
  datatype Result = Result(
    id: string, title: string, description: string, url: string, action: string,
    pathLabel: string, tag: seq<string>, moduleName: string, usage: int)

  /** Usage history: last access time, access count, and per-hour and
      per-weekday counters keyed "<id>:<hour>" and "<id>:<weekday>". */
  datatype Frequency = Frequency(
    lastAccess: map<string, int>, accessCount: map<string, int>,
    timeOfDay: map<string, int>, weekday: map<string, int>)

  /** The moment a ranking is computed for: epoch milliseconds, local hour
      and weekday, and `decay(ms)`, which stands for exp(-ms / 57600000), the
      16-hour recency decay. */
  datatype Clock = Clock(time: int, hour: nat, day: nat, decay: int -> real)

  /** The optional ranking context: whether the caller allows caching, the
      cache key ("" when absent) and the cache version (None when absent). */
  datatype RankingContext = RankingContext(cacheEligible: bool, cacheKey: string, cacheVersion: Option<int>)

  // ---------------------------------------------------------------- tokens

  /** The query lower-cased, accents stripped, split on white-space runs,
      empty pieces dropped. */
  function Tokenize(query: string): (tokens: seq<string>)
    ensures forall k :: 0 <= k < |tokens| ==> tokens[k] != "" && Solid(tokens[k])
  {
    WordsAreSolid(RemoveAccents(LowerStr(query)));
    Words(RemoveAccents(LowerStr(query)))
  }

  /** A query yields no tokens exactly when its normalized text is all white
      space (in particular, when it is empty). */
  lemma TokenizeEmptyIffBlank(query: string)
    ensures Tokenize(query) == [] <==> Blank(RemoveAccents(LowerStr(query)))
  {
    WordsEmptyIffBlank(RemoveAccents(LowerStr(query)));
  }

  /** The title, tag and description texts the scorer searches. */
  function TitleText(n: Node): string {
    if n.titleLower != "" then n.titleLower else RemoveAccents(LowerStr(n.title))
  }

  function TagText(n: Node): string {
    if n.tagLower != "" then n.tagLower else RemoveAccents(LowerStr(Join(n.tag, " ")))
  }

  function DescriptionText(n: Node): string {
    RemoveAccents(LowerStr(n.description))
  }

  // ---------------------------------------------------------- word matches

  /** The characters of the regex class `\w`. */
  predicate IsWordChar(c: char) {
    'a' <= c <= 'z' || 'A' <= c <= 'Z' || '0' <= c <= '9' || c == '_'
  }

  predicate WordCharAt(s: string, k: int) {
    0 <= k < |s| && IsWordChar(s[k])
  }

  /** The regex assertion `\b` at position k: a word character on exactly
      one side. */
  predicate Boundary(s: string, k: int) {
    WordCharAt(s, k - 1) != WordCharAt(s, k)
  }

  /** `new RegExp("\\b" + escapeRegex(w) + "\\b").test(s)`: `w` occurs
      literally, with a word boundary on both sides. */
  predicate HasWord(s: string, w: string) {
    HasWordFrom(s, w, 0)
  }

  /** An occurrence of `w` at position `i` or later bounded on both sides. */
  predicate HasWordFrom(s: string, w: string, i: nat)
    decreases |s| - i
  {
    i <= |s| && ((OccursAt(s, w, i) && Boundary(s, i) && Boundary(s, i + |w|)) || HasWordFrom(s, w, i + 1))
  }

  // ---------------------------------------------------------- fuzzy match

  /** `fuzzyIncludes`: plain containment for needles of at most two
      characters; otherwise the greedy walk must match the whole needle with
      at most half its length in jumps wider than two characters. */
  predicate FuzzyMatch(haystack: string, needle: string) {
    if |needle| <= 2 then Contains(haystack, needle)
    else
      var p := Leftmost(haystack, needle);
      |p| == |needle| && Gaps(p) <= |needle| / 2
  }

  method FuzzyIncludes(haystack: string, needle: string) returns (r: bool)
    ensures r == FuzzyMatch(haystack, needle)
  {
    if |needle| <= 2 {
      return Contains(haystack, needle);
    }
    var index := 0;
    var lastMatchIndex := -1;
    var gapCount := 0;
    for i := 0 to |haystack|
      invariant index == |Leftmost(haystack[..i], needle)| < |needle|
      invariant index == 0 ==> lastMatchIndex == -1
      invariant index > 0 ==> lastMatchIndex == Leftmost(haystack[..i], needle)[index - 1]
      invariant gapCount == Gaps(Leftmost(haystack[..i], needle))
    {
      LeftmostStep(haystack, needle, i);
      ghost var q := Leftmost(haystack[..i], needle);
      if haystack[i] == needle[index] {
        assert (q + [i])[..|q|] == q;
        if lastMatchIndex >= 0 && i - lastMatchIndex > 2 {
          gapCount := gapCount + 1;
        }
        lastMatchIndex := i;
        index := index + 1;
        if index == |needle| {
          LeftmostStable(haystack, needle, i + 1);
          return gapCount <= |needle| / 2;
        }
      }
    }
    assert haystack[..|haystack|] == haystack;
    return false;
  }

  /** For needles longer than two characters the fuzzy test accepts exactly
      the subsequences of the haystack whose greedy walk has few wide gaps. */
  lemma FuzzyMatchIsBoundedSubsequence(haystack: string, needle: string)
    requires |needle| > 2
    ensures FuzzyMatch(haystack, needle) <==>
      IsSubsequence(needle, haystack) && Gaps(Leftmost(haystack, needle)) <= |needle| / 2
  {
    LeftmostFullIffSubsequence(haystack, needle);
  }

  // ----------------------------------------------------------------- tiers

  /** The nine tiers of a token match, best first, and the failing case. */
  datatype Tier = Exact | Prefix | TitleWord | TitleSubstring | TagWord | TagSubstring
                | InDescription | FuzzyTitle | FuzzyTag | NoTier

  /** The first tier whose test the token passes. */
  function Classify(token: string, title: string, tag: string, description: string): Tier {
    if title == token then Exact
    else if StartsWith(title, token) then Prefix
    else if HasWord(title, token) then TitleWord
    else if Contains(title, token) then TitleSubstring
    else if HasWord(tag, token) then TagWord
    else if Contains(tag, token) then TagSubstring
    else if Contains(description, token) then InDescription
    else if FuzzyMatch(title, token) then FuzzyTitle
    else if FuzzyMatch(tag, token) then FuzzyTag
    else NoTier
  }

  function Points(t: Tier): int {
    match t
    case Exact => 1000
    case Prefix => 800
    case TitleWord => 600
    case TitleSubstring => 400
    case TagWord => 300
    case TagSubstring => 200
    case InDescription => 150
    case FuzzyTitle => 100
    case FuzzyTag => 50
    case NoTier => 0
  }

  function Quality(t: Tier): real {
    match t
    case Exact => 1.0
    case Prefix => 0.9
    case TitleWord => 0.8
    case TitleSubstring => 0.7
    case TagWord => 0.6
    case TagSubstring => 0.5
    case InDescription => 0.4
    case FuzzyTitle => 0.3
    case FuzzyTag => 0.2
    case NoTier => 0.0
  }

  /** Position of a tier in the priority order. */
  function Priority(t: Tier): nat {
    match t
    case Exact => 0
    case Prefix => 1
    case TitleWord => 2
    case TitleSubstring => 3
    case TagWord => 4
    case TagSubstring => 5
    case InDescription => 6
    case FuzzyTitle => 7
    case FuzzyTag => 8
    case NoTier => 9
  }

  /** Earlier tiers are worth strictly more points and strictly more
      quality. */
  lemma PointsFollowPriority(s: Tier, t: Tier)
    requires Priority(s) < Priority(t)
    ensures Points(s) >= Points(t) + 50 && Quality(s) >= Quality(t) + 0.1
  {
  }

  // ----------------------------------------------------------------- score

  /** The tier each token reaches against one node's title, tag and
      description texts. */
  function NodeTier(n: Node): string -> Tier {
    token => Classify(token, TitleText(n), TagText(n), DescriptionText(n))
  }

  /** The text part of a score: Miss when some non-empty token passes no
      tier, else the summed points and qualities. */
  datatype TextTotal = Miss | Hit(points: int, quality: real)

  function TextScan(tokens: seq<string>, tier: string -> Tier): TextTotal
    decreases |tokens|
  {
    if |tokens| == 0 then Hit(0, 0.0)
    else
      match TextScan(tokens[..|tokens| - 1], tier)
      case Miss => Miss
      case Hit(p, q) =>
        var token := tokens[|tokens| - 1];
        if token == "" then Hit(p, q)
        else if tier(token) == NoTier then Miss
        else Hit(p + Points(tier(token)), q + Quality(tier(token)))
  }

  /** The match is a hard AND: the text scan fails exactly when some
      non-empty token passes none of the nine tiers. */
  lemma {:induction false} TextScanMissIff(tokens: seq<string>, tier: string -> Tier)
    ensures TextScan(tokens, tier) == Miss <==>
      exists k :: 0 <= k < |tokens| && tokens[k] != "" && tier(tokens[k]) == NoTier
    decreases |tokens|
  {
    if |tokens| > 0 {
      var init := tokens[..|tokens| - 1];
      TextScanMissIff(init, tier);
      if exists k :: 0 <= k < |init| && init[k] != "" && tier(init[k]) == NoTier {
        var k :| 0 <= k < |init| && init[k] != "" && tier(init[k]) == NoTier;
        assert tokens[k] == init[k];
      }
      if exists k :: 0 <= k < |tokens| && tokens[k] != "" && tier(tokens[k]) == NoTier {
        var k :| 0 <= k < |tokens| && tokens[k] != "" && tier(tokens[k]) == NoTier;
        if k < |init| {
          assert init[k] == tokens[k];
        }
      }
    }
  }

  /** Once a prefix of the tokens misses, the whole scan misses. */
  lemma {:induction false} MissPersists(tokens: seq<string>, tier: string -> Tier, i: nat)
    requires i <= |tokens| && TextScan(tokens[..i], tier) == Miss
    ensures TextScan(tokens, tier) == Miss
    decreases |tokens| - i
  {
    if i < |tokens| {
      assert tokens[..i + 1][..i] == tokens[..i];
      MissPersists(tokens, tier, i + 1);
    } else {
      assert tokens[..i] == tokens;
    }
  }

  /** With non-empty tokens, a hit earns between 50 and 1000 points and
      between 0.2 and 1 of quality per token. */
  lemma {:induction false} TextScanBounds(tokens: seq<string>, tier: string -> Tier)
    requires forall k :: 0 <= k < |tokens| ==> tokens[k] != ""
    ensures match TextScan(tokens, tier)
      case Miss => true
      case Hit(p, q) =>
        50 * |tokens| <= p <= 1000 * |tokens|
        && 0.2 * (|tokens| as real) <= q <= |tokens| as real
    decreases |tokens|
  {
    if |tokens| > 0 {
      TextScanBounds(tokens[..|tokens| - 1], tier);
    }
  }

  function Min(a: int, b: int): int {
    if a < b then a else b
  }

  function FrequencyScore(n: Node): real {
    Min(500, n.usage * 50) as real
  }

  /** The "<id>:<hour>" and "<id>:<weekday>" counter keys. */
  function HourKey(id: string, clock: Clock): string {
    id + ":" + NatToString(clock.hour)
  }

  function DayKey(id: string, clock: Clock): string {
    id + ":" + NatToString(clock.day)
  }

  /** Whether a last access is recorded (a stored 0 counts as none). */
  predicate Accessed(n: Node, freq: Frequency) {
    n.id in freq.lastAccess && freq.lastAccess[n.id] != 0
  }

  function RecencyScore(n: Node, freq: Frequency, clock: Clock): real {
    if Accessed(n, freq) then 300.0 * clock.decay(clock.time - freq.lastAccess[n.id]) else 0.0
  }

  function TemporalScore(n: Node, freq: Frequency, clock: Clock): real {
    var hk := HourKey(n.id, clock);
    var dk := DayKey(n.id, clock);
    (if hk in freq.timeOfDay then Min(100, freq.timeOfDay[hk] * 20) as real else 0.0)
    + (if dk in freq.weekday then Min(100, freq.weekday[dk] * 15) as real else 0.0)
  }

  function StaticBonus(n: Node): real {
    if n.source == StaticSource then 50.0 else 0.0
  }

  /** The usage-driven bonuses, before they are scaled by match quality. */
  function Weight(n: Node, freq: Frequency, clock: Clock): real {
    FrequencyScore(n) * 0.8 + RecencyScore(n, freq, clock) * 0.7 + TemporalScore(n, freq, clock) * 0.5
  }

  /** The final steps of `scoreNode` on a hit: the points plus the
      quality-scaled frequency, recency and temporal scores plus the static
      bonus minus ten per depth level, boosted by a fifth for strong
      multi-token matches, floored at 0. */
  function Finish(points: int, q: real, many: bool, frequency: real, recency: real, temporal: real,
                  bonus: real, depth: int): (s: real)
    ensures s >= 0.0
  {
    var final := points as real + frequency * q * 0.8 + recency * q * 0.7
      + temporal * q * 0.5 + bonus - (depth * 10) as real;
    var boosted := if q >= 0.9 && many then final * 1.2 else final;
    if boosted > 0.0 then boosted else 0.0
  }

  /** Before the boost and the floor, a score is linear in the quality with
      the weight as slope. */
  lemma FinishLinear(points: int, q: real, frequency: real, recency: real, temporal: real, bonus: real, depth: int)
    ensures var w := points as real + (frequency * 0.8 + recency * 0.7 + temporal * 0.5) * q
        + bonus - (depth * 10) as real;
      Finish(points, q, false, frequency, recency, temporal, bonus, depth) == if w > 0.0 then w else 0.0
  {
    Distribute(frequency, recency, temporal, q);
  }

  /** More points and at least the quality, under a non-negative weight,
      never finish lower, and finish strictly higher unless floored. */
  lemma FinishMonotone(pa: int, qa: real, pb: int, qb: real, frequency: real, recency: real, temporal: real,
                       bonus: real, depth: int)
    requires pa > pb && qa >= qb && frequency * 0.8 + recency * 0.7 + temporal * 0.5 >= 0.0
    ensures Finish(pa, qa, false, frequency, recency, temporal, bonus, depth)
         >= Finish(pb, qb, false, frequency, recency, temporal, bonus, depth)
    ensures Finish(pa, qa, false, frequency, recency, temporal, bonus, depth) > 0.0 ==>
      Finish(pa, qa, false, frequency, recency, temporal, bonus, depth)
      > Finish(pb, qb, false, frequency, recency, temporal, bonus, depth)
  {
    FinishLinear(pa, qa, frequency, recency, temporal, bonus, depth);
    FinishLinear(pb, qb, frequency, recency, temporal, bonus, depth);
    MulNonNegative(frequency * 0.8 + recency * 0.7 + temporal * 0.5, qa - qb);
  }

  lemma Distribute(f: real, r: real, t: real, q: real)
    ensures f * q * 0.8 + r * q * 0.7 + t * q * 0.5 == (f * 0.8 + r * 0.7 + t * 0.5) * q
  {
  }

  /** `scoreNode` as a whole: zero when the text scan misses, else the
      finished score of the summed points and the mean quality. */
  function Score(tokens: seq<string>, n: Node, freq: Frequency, clock: Clock): (s: real)
    requires |tokens| > 0
    ensures s >= 0.0
  {
    match TextScan(tokens, NodeTier(n))
    case Miss => 0.0
    case Hit(points, quality) =>
      Finish(points, quality / (|tokens| as real), |tokens| > 1, FrequencyScore(n), RecencyScore(n, freq, clock),
             TemporalScore(n, freq, clock), StaticBonus(n), n.depth)
  }

  /** If any token passes none of the tiers, the node scores 0. */
  lemma HardAnd(tokens: seq<string>, n: Node, freq: Frequency, clock: Clock, k: nat)
    requires k < |tokens| && tokens[k] != ""
    requires Classify(tokens[k], TitleText(n), TagText(n), DescriptionText(n)) == NoTier
    ensures Score(tokens, n, freq, clock) == 0.0
  {
    TextScanMissIff(tokens, NodeTier(n));
  }

  lemma MulNonNegative(a: real, b: real)
    requires a >= 0.0 && b >= 0.0
    ensures a * b >= 0.0
  {
  }

  /** For a one-token query, of two nodes that differ only in their texts,
      the one matched by an earlier tier never scores lower, and scores
      strictly higher whenever it scores at all. Requires non-negative usage
      history, so that the bonuses only add. */
  lemma BetterTierRanksHigher(token: string, a: Node, b: Node, freq: Frequency, clock: Clock)
    requires token != ""
    requires a.id == b.id && a.usage == b.usage && a.source == b.source && a.depth == b.depth
    requires Weight(a, freq, clock) >= 0.0
    requires Priority(NodeTier(a)(token)) < Priority(NodeTier(b)(token))
    ensures Score([token], a, freq, clock) >= Score([token], b, freq, clock)
    ensures Score([token], a, freq, clock) > 0.0 ==> Score([token], a, freq, clock) > Score([token], b, freq, clock)
  {
    var ta := NodeTier(a)(token);
    var tb := NodeTier(b)(token);
    PointsFollowPriority(ta, tb);
    ScoreOneToken(token, a, freq, clock);
    ScoreOneToken(token, b, freq, clock);
    SameHistory(a, b, freq, clock);
    if tb != NoTier {
      FinishMonotone(Points(ta), Quality(ta) / 1.0, Points(tb), Quality(tb) / 1.0,
                     FrequencyScore(a), RecencyScore(a, freq, clock), TemporalScore(a, freq, clock),
                     StaticBonus(a), a.depth);
    }
  }

  /** The score of a one-token query: 0 on a miss, otherwise the finish
      of the token's tier. */
  lemma ScoreOneToken(token: string, n: Node, freq: Frequency, clock: Clock)
    requires token != ""
    ensures var t := NodeTier(n)(token);
      Score([token], n, freq, clock) ==
        if t == NoTier then 0.0
        else Finish(Points(t), Quality(t) / 1.0, false, FrequencyScore(n), RecencyScore(n, freq, clock),
                    TemporalScore(n, freq, clock), StaticBonus(n), n.depth)
  {
    var t := NodeTier(n)(token);
    assert [token][..0] == [];
    assert TextScan([token], NodeTier(n)) == if t == NoTier then Miss else Hit(Points(t), Quality(t));
  }

  /** Nodes with the same id, usage, source and depth get the same
      bonuses. */
  lemma SameHistory(a: Node, b: Node, freq: Frequency, clock: Clock)
    requires a.id == b.id && a.usage == b.usage && a.source == b.source && a.depth == b.depth
    ensures FrequencyScore(a) == FrequencyScore(b)
    ensures RecencyScore(a, freq, clock) == RecencyScore(b, freq, clock)
    ensures TemporalScore(a, freq, clock) == TemporalScore(b, freq, clock)
    ensures StaticBonus(a) == StaticBonus(b)
  {
  }

  /** The tier of one token, tried in priority order: the body of the token
      loop of `scoreNode`. */
  method TokenTier(token: string, title: string, tag: string, description: string) returns (t: Tier)
    ensures t == Classify(token, title, tag, description)
  {
    if title == token {
      t := Exact;
    } else if StartsWith(title, token) {
      t := Prefix;
    } else if HasWord(title, token) {
      t := TitleWord;
    } else if Contains(title, token) {
      t := TitleSubstring;
    } else if HasWord(tag, token) {
      t := TagWord;
    } else if Contains(tag, token) {
      t := TagSubstring;
    } else if Contains(description, token) {
      t := InDescription;
    } else {
      var inTitle := FuzzyIncludes(title, token);
      if inTitle {
        t := FuzzyTitle;
      } else {
        var inTag := FuzzyIncludes(tag, token);
        t := if inTag then FuzzyTag else NoTier;
      }
    }
  }

  /** The token loop of `scoreNode`: an early miss at the first token that
      passes no tier, otherwise the summed points and quality. */
  method ScanTokens(tokens: seq<string>, node: Node) returns (total: TextTotal)
    ensures total == TextScan(tokens, NodeTier(node))
  {
    var title := TitleText(node);
    var tag := TagText(node);
    var description := DescriptionText(node);
    var textScore := 0;
    var matchQuality := 0.0;
    for i := 0 to |tokens|
      invariant TextScan(tokens[..i], NodeTier(node)) == Hit(textScore, matchQuality)
    {
      var token := tokens[i];
      assert tokens[..i + 1][..i] == tokens[..i];
      if token != "" {
        var t := TokenTier(token, title, tag, description);
        assert t == NodeTier(node)(token);
        if t == NoTier {
          MissPersists(tokens, NodeTier(node), i + 1);
          return Miss;
        }
        textScore := textScore + Points(t);
        matchQuality := matchQuality + Quality(t);
      }
    }
    assert tokens[..|tokens|] == tokens;
    total := Hit(textScore, matchQuality);
  }

  /** `scoreNode`: 0 when some token passes no tier, otherwise the text
      points and quality combined with the usage, recency, time-of-day,
      static and depth terms. */
  method ScoreNode(tokens: seq<string>, node: Node, freq: Frequency, clock: Clock) returns (score: real)
    requires |tokens| > 0
    ensures score == Score(tokens, node, freq, clock)
  {
    var total := ScanTokens(tokens, node);
    if total.Miss? {
      return 0.0;
    }
    var textScore := total.points;
    var matchQuality := total.quality;
    var q := matchQuality / (|tokens| as real);
    var frequencyScore := Min(500, node.usage * 50) as real;
    var recencyScore := 0.0;
    if Accessed(node, freq) {
      recencyScore := 300.0 * clock.decay(clock.time - freq.lastAccess[node.id]);
    }
    var temporalScore := 0.0;
    var timeKey := HourKey(node.id, clock);
    var dayKey := DayKey(node.id, clock);
    if timeKey in freq.timeOfDay {
      temporalScore := temporalScore + Min(100, freq.timeOfDay[timeKey] * 20) as real;
    }
    if dayKey in freq.weekday {
      temporalScore := temporalScore + Min(100, freq.weekday[dayKey] * 15) as real;
    }
    assert recencyScore == RecencyScore(node, freq, clock);
    assert temporalScore == TemporalScore(node, freq, clock);
    var staticBonus := if node.source == StaticSource then 50.0 else 0.0;
    score := Finish(textScore, q, |tokens| > 1, frequencyScore, recencyScore, temporalScore, staticBonus, node.depth);
  }

  /** `computeContextScore`: the ordering key of the default (empty-query)
      list. */
  function ContextScore(n: Node, freq: Frequency, clock: Clock): real {
    var hk := HourKey(n.id, clock);
    var dk := DayKey(n.id, clock);
    (n.usage * 100) as real
    + (if Accessed(n, freq) then 500.0 * clock.decay(clock.time - freq.lastAccess[n.id]) else 0.0)
    + (if hk in freq.timeOfDay then (freq.timeOfDay[hk] * 50) as real else 0.0)
    + (if dk in freq.weekday then (freq.weekday[dk] * 30) as real else 0.0)
    + (if n.source == StaticSource then 20.0 else 0.0)
    - (n.depth * 5) as real
  }

  // -------------------------------------------------------------- ordering

  /** `normalizeCategory`: trimmed, lower-cased, accents stripped. */
  function NormalizeCategory(category: string): string {
    RemoveAccents(LowerStr(Trim(category)))
  }

  /** `isDeprecated`: the module normalizes to "deprecado" or the status is
      "legacy". */
  predicate IsDeprecated(n: Node) {
    NormalizeCategory(n.moduleName) == DeprecatedCategory || n.status == LegacyStatus
  }

  /** `compareByCategoryAndPath`: deprecated entries after the others, then
      by category, trimmed path label and trimmed title. */
  function CompareByCategoryAndPath(a: Node, b: Node): (r: int)
    ensures IsDeprecated(a) && !IsDeprecated(b) ==> r == 1
    ensures !IsDeprecated(a) && IsDeprecated(b) ==> r == -1
  {
    var categoryA := NormalizeCategory(a.moduleName);
    var categoryB := NormalizeCategory(b.moduleName);
    if IsDeprecated(a) != IsDeprecated(b) then (if IsDeprecated(a) then 1 else -1)
    else
      var categoryCompare := Collate(categoryA, categoryB);
      if categoryCompare != 0 then categoryCompare
      else
        var pathCompare := Collate(Trim(a.pathLabel), Trim(b.pathLabel));
        if pathCompare != 0 then pathCompare
        else Collate(Trim(a.title), Trim(b.title))
  }

  /** A node with its score, or with its context score in the default list. */
  datatype Scored = Scored(score: real, node: Node)

  function Abs(x: real): real {
    if x < 0.0 then -x else x
  }

  /** `compareByScore` (and `compareByContextScore`, its twin): higher score
      first; scores within 0.1 of each other fall back to category order. */
  function CompareByScore(a: Scored, b: Scored): real {
    if Abs(b.score - a.score) < 0.1 then CompareByCategoryAndPath(a.node, b.node) as real
    else b.score - a.score
  }

  function ScoredDeprecated(x: Scored): bool {
    IsDeprecated(x.node)
  }

  /** `splitAndSort`: the active entries sorted, then the deprecated ones
      sorted. */
  function SplitAndSort(items: seq<Scored>): (r: seq<Scored>)
    ensures |r| == |items|
    ensures multiset(r) == multiset(items)
    ensures LateLast(r, ScoredDeprecated)
  {
    var active := SortBy(Drop(items, ScoredDeprecated), CompareByScore);
    var deprecated := SortBy(Keep(items, ScoredDeprecated), CompareByScore);
    KeepDropMultiset(items, ScoredDeprecated);
    KeepDropLength(items, ScoredDeprecated);
    PermutationAgrees(active, Drop(items, ScoredDeprecated), ScoredDeprecated, false);
    PermutationAgrees(deprecated, Keep(items, ScoredDeprecated), ScoredDeprecated, true);
    ConcatLateLast(active, deprecated, ScoredDeprecated);
    active + deprecated
  }

  function NodeOf(x: Scored): Node {
    x.node
  }

  function NodesOf(xs: seq<Scored>): (ns: seq<Node>)
    ensures |ns| == |xs| && forall i :: 0 <= i < |xs| ==> ns[i] == xs[i].node
  {
    Map(xs, NodeOf)
  }

  lemma NodesOfLateLast(xs: seq<Scored>)
    requires LateLast(xs, ScoredDeprecated)
    ensures LateLast(NodesOf(xs), IsDeprecated)
  {
    var ns := NodesOf(xs);
    forall i, j | 0 <= i < j < |ns| && IsDeprecated(ns[i]) ensures IsDeprecated(ns[j]) {
      assert ScoredDeprecated(xs[i]);
    }
  }

  // ----------------------------------------------------- ranked pipelines

  /** The nodes with a positive score, with their scores, in input order. */
  function ScoredNodes(tokens: seq<string>, nodes: seq<Node>, freq: Frequency, clock: Clock): (r: seq<Scored>)
    requires |tokens| > 0
    ensures |r| <= |nodes|
    decreases |nodes|
  {
    if |nodes| == 0 then []
    else
      var prev := ScoredNodes(tokens, nodes[..|nodes| - 1], freq, clock);
      var n := nodes[|nodes| - 1];
      var s := Score(tokens, n, freq, clock);
      if s <= 0.0 then prev else prev + [Scored(s, n)]
  }

  lemma {:induction false} ScoredNodesMembers(tokens: seq<string>, nodes: seq<Node>, freq: Frequency, clock: Clock)
    requires |tokens| > 0
    ensures forall x :: x in ScoredNodes(tokens, nodes, freq, clock) ==>
      x.node in nodes && x.score == Score(tokens, x.node, freq, clock) && x.score > 0.0
    ensures forall n :: n in nodes && Score(tokens, n, freq, clock) > 0.0 ==>
      Scored(Score(tokens, n, freq, clock), n) in ScoredNodes(tokens, nodes, freq, clock)
    decreases |nodes|
  {
    if |nodes| > 0 {
      var init := nodes[..|nodes| - 1];
      ScoredNodesMembers(tokens, init, freq, clock);
      assert nodes == init + [nodes[|nodes| - 1]];
      forall n | n in nodes && Score(tokens, n, freq, clock) > 0.0
        ensures Scored(Score(tokens, n, freq, clock), n) in ScoredNodes(tokens, nodes, freq, clock)
      {
        if n != nodes[|nodes| - 1] {
          assert n in init;
        }
      }
    }
  }

  /** The query's ranked node list before the cap: positive scores only,
      active entries before deprecated ones. */
  function RankedNodes(tokens: seq<string>, nodes: seq<Node>, freq: Frequency, clock: Clock): seq<Node>
    requires |tokens| > 0
  {
    NodesOf(SplitAndSort(ScoredNodes(tokens, nodes, freq, clock)))
  }

  /** A node is ranked exactly when it is one of the input nodes and scores
      above zero. */
  lemma RankedNodesMembers(tokens: seq<string>, nodes: seq<Node>, freq: Frequency, clock: Clock)
    requires |tokens| > 0
    ensures forall n :: n in RankedNodes(tokens, nodes, freq, clock) <==>
      n in nodes && Score(tokens, n, freq, clock) > 0.0
  {
    ScoredNodesMembers(tokens, nodes, freq, clock);
    RankedNodesSound(tokens, nodes, freq, clock);
    RankedNodesComplete(tokens, nodes, freq, clock);
  }

  lemma RankedNodesSound(tokens: seq<string>, nodes: seq<Node>, freq: Frequency, clock: Clock)
    requires |tokens| > 0
    ensures forall n :: n in RankedNodes(tokens, nodes, freq, clock) ==>
      exists x :: x in ScoredNodes(tokens, nodes, freq, clock) && x.node == n
  {
    var scored := ScoredNodes(tokens, nodes, freq, clock);
    var sorted := SplitAndSort(scored);
    var ranked := NodesOf(sorted);
    forall n | n in ranked ensures exists x :: x in scored && x.node == n {
      var i :| 0 <= i < |ranked| && ranked[i] == n;
      assert sorted[i] in multiset(scored);
    }
  }

  lemma RankedNodesComplete(tokens: seq<string>, nodes: seq<Node>, freq: Frequency, clock: Clock)
    requires |tokens| > 0
    ensures forall x :: x in ScoredNodes(tokens, nodes, freq, clock) ==>
      x.node in RankedNodes(tokens, nodes, freq, clock)
  {
    var scored := ScoredNodes(tokens, nodes, freq, clock);
    var sorted := SplitAndSort(scored);
    var ranked := NodesOf(sorted);
    forall x | x in scored ensures x.node in ranked {
      assert x in multiset(sorted);
      var i :| 0 <= i < |sorted| && sorted[i] == x;
      assert ranked[i] == x.node;
    }
  }

  /** The ranked list is no longer than the input and keeps every
      deprecated node after every active one. */
  lemma RankedNodesOrder(tokens: seq<string>, nodes: seq<Node>, freq: Frequency, clock: Clock)
    requires |tokens| > 0
    ensures |RankedNodes(tokens, nodes, freq, clock)| <= |nodes|
    ensures LateLast(RankedNodes(tokens, nodes, freq, clock), IsDeprecated)
  {
    NodesOfLateLast(SplitAndSort(ScoredNodes(tokens, nodes, freq, clock)));
  }

  /** A node that some non-empty token cannot match at all is never
      ranked. */
  lemma MissingTokenExcludes(tokens: seq<string>, nodes: seq<Node>, freq: Frequency, clock: Clock, n: Node, k: nat)
    requires k < |tokens| && tokens[k] != ""
    requires Classify(tokens[k], TitleText(n), TagText(n), DescriptionText(n)) == NoTier
    ensures n !in RankedNodes(tokens, nodes, freq, clock)
  {
    HardAnd(tokens, n, freq, clock, k);
    RankedNodesMembers(tokens, nodes, freq, clock);
  }

  /** Every node paired with its context score, in input order. */
  function Annotate(nodes: seq<Node>, freq: Frequency, clock: Clock): (r: seq<Scored>)
    ensures |r| == |nodes|
    ensures NodesOf(r) == nodes
  {
    seq(|nodes|, i requires 0 <= i < |nodes| => Scored(ContextScore(nodes[i], freq, clock), nodes[i]))
  }

  /** The default list before the cap: every node, ordered by context score,
      active entries before deprecated ones. */
  function DefaultRanking(nodes: seq<Node>, freq: Frequency, clock: Clock): (r: seq<Node>)
    ensures |r| == |nodes|
  {
    NodesOf(SplitAndSort(Annotate(nodes, freq, clock)))
  }

  /** The default list is a permutation of the nodes with every deprecated
      node after every active one. */
  lemma DefaultRankingProperties(nodes: seq<Node>, freq: Frequency, clock: Clock)
    ensures multiset(DefaultRanking(nodes, freq, clock)) == multiset(nodes)
    ensures LateLast(DefaultRanking(nodes, freq, clock), IsDeprecated)
  {
    var annotated := Annotate(nodes, freq, clock);
    MapPermutation(SplitAndSort(annotated), annotated, NodeOf);
    NodesOfLateLast(SplitAndSort(annotated));
  }

  /** `mapNodeToResult`: copies the identifying fields, defaults the
      optional ones, and labels the entry by its path label, else by its
      tags joined with the hierarchy separator, else by its title. */
  function MapNodeToResult(n: Node): (r: Result)
    ensures r.id == n.id && r.title == n.title && r.description == n.description && r.url == n.url && r.action == n.action
    ensures r.tag == n.tag && r.moduleName == n.moduleName && r.usage == n.usage
    ensures n.pathLabel != "" ==> r.pathLabel == n.pathLabel
    ensures n.pathLabel == "" && |n.tag| > 0 ==> r.pathLabel == Join(n.tag, HierarchySeparator)
    ensures n.pathLabel == "" && |n.tag| == 0 ==> r.pathLabel == n.title
  {
    var hierarchy := if |n.tag| > 0 then Join(n.tag, HierarchySeparator) else n.title;
    Result(n.id, n.title, n.description, n.url, n.action,
           if n.pathLabel != "" then n.pathLabel else hierarchy, n.tag, n.moduleName, n.usage)
  }

  function Present(ns: seq<Node>): (r: seq<Result>)
    ensures |r| == |ns| && forall i :: 0 <= i < |ns| ==> r[i] == MapNodeToResult(ns[i])
  {
    seq(|ns|, i requires 0 <= i < |ns| => MapNodeToResult(ns[i]))
  }

  // ------------------------------------------------------------ cache key

  /** The normalized query part of a cache key. */
  function NormalizeQuery(query: string): string {
    Trim(RemoveAccents(LowerStr(query)))
  }

  /** The normalized category part of a cache key; missing or blank
      categories become "all". */
  function NormalizeKeyCategory(category: string): (c: string)
    ensures c != ""
  {
    var c := Trim(RemoveAccents(LowerStr(if category == "" then "all" else category)));
    if c == "" then "all" else c
  }

  /** `buildCacheKey`: "<category>::<query>". */
  function BuildCacheKey(query: string, category: string): (key: string)
    ensures |key| >= 3
  {
    NormalizeKeyCategory(category) + "::" + NormalizeQuery(query)
  }

  /** Within one category, two queries share a cache key exactly when they
      normalize to the same text; with colon-free categories, two keys agree
      exactly when both parts agree. */
  lemma CacheKeyInjective(q1: string, c1: string, q2: string, c2: string)
    requires ':' !in NormalizeKeyCategory(c1) && ':' !in NormalizeKeyCategory(c2)
    ensures BuildCacheKey(q1, c1) == BuildCacheKey(q2, c2) <==>
      NormalizeKeyCategory(c1) == NormalizeKeyCategory(c2) && NormalizeQuery(q1) == NormalizeQuery(q2)
  {
    KeyPartsInjective(NormalizeKeyCategory(c1), NormalizeQuery(q1), NormalizeKeyCategory(c2), NormalizeQuery(q2));
  }

  /** A colon-free prefix, "::" and a suffix determine prefix and suffix. */
  lemma KeyPartsInjective(a: string, x: string, b: string, y: string)
    requires ':' !in a && ':' !in b
    ensures a + "::" + x == b + "::" + y <==> a == b && x == y
  {
    var k1 := a + "::" + x;
    var k2 := b + "::" + y;
    if k1 == k2 {
      FirstColon(a, x);
      FirstColon(b, y);
      assert |a| == |b|;
      assert a == k1[..|a|] && b == k2[..|b|];
      assert x == k1[|a| + 2..] && y == k2[|b| + 2..];
    }
  }

  /** In a key built from a colon-free category, the first colon ends the
      category. */
  lemma FirstColon(a: string, x: string)
    requires ':' !in a
    ensures var k := a + "::" + x;
      |a| < |k| && k[|a|] == ':' && forall i :: 0 <= i < |a| ==> k[i] != ':'
  {
  }

  // ----------------------------------------------------------------- cache

  datatype CacheEntry = CacheEntry(results: seq<Result>, timestamp: int, version: Option<int>)

  /** What `getCachedResults` answers: a hit unless the key is empty or
      absent, a version is given and differs, or the entry is older than
      the time-to-live. */
  function Lookup(store: map<string, CacheEntry>, key: string, version: Option<int>, now: int, ttl: int)
    : Option<seq<Result>>
  {
    if key == "" || key !in store then None
    else if version.Some? && store[key].version != version then None
    else if now - store[key].timestamp > ttl then None
    else Some(store[key].results)
  }

  /** The store after `getCachedResults`: a stale or mismatched entry is
      deleted. */
  function AfterLookup(store: map<string, CacheEntry>, key: string, version: Option<int>, now: int, ttl: int)
    : map<string, CacheEntry>
  {
    if key == "" || key !in store then store
    else if (version.Some? && store[key].version != version) || now - store[key].timestamp > ttl then store - {key}
    else store
  }

  /** A hit leaves the store alone; a miss leaves no entry under the key;
      other keys are never touched. */
  lemma LookupOutcome(store: map<string, CacheEntry>, key: string, version: Option<int>, now: int, ttl: int)
    ensures Lookup(store, key, version, now, ttl).Some? ==> AfterLookup(store, key, version, now, ttl) == store
    ensures key != "" && Lookup(store, key, version, now, ttl).None? ==> key !in AfterLookup(store, key, version, now, ttl)
    ensures forall k :: k != key ==> (k in AfterLookup(store, key, version, now, ttl) <==> k in store)
  {
  }

  /** An entry just stored is served back, under the same or no version,
      for as long as its age stays within the time-to-live; a different
      version always misses. */
  lemma LookupAfterStore(store: map<string, CacheEntry>, key: string, version: Option<int>,
                         results: seq<Result>, stored: int, now: int, ttl: int, other: int)
    requires key != ""
    ensures var s := store[key := CacheEntry(results, stored, version)];
      (now - stored <= ttl ==>
         Lookup(s, key, version, now, ttl) == Some(results) && Lookup(s, key, None, now, ttl) == Some(results))
      && (now - stored > ttl ==> Lookup(s, key, version, now, ttl) == None)
      && (Some(other) != version ==> Lookup(s, key, Some(other), now, ttl) == None)
  {
  }

  /** `invalidateCache`: no predicate clears the store; a predicate deletes
      exactly the entries it accepts. */
  function Invalidated(store: map<string, CacheEntry>, filter: Option<(string, CacheEntry) -> bool>)
    : map<string, CacheEntry>
  {
    if filter.None? then map[]
    else map k | k in store && !filter.value(k, store[k]) :: store[k]
  }

  /** `getDefaultResults` for an engine capped at `cap` results: the
      default order, cut to the cap. */
  function DefaultResults(nodes: seq<Node>, freq: Frequency, clock: Clock, cap: nat): (r: seq<Result>)
    ensures |r| == if |nodes| < cap then |nodes| else cap
    ensures forall i :: 0 <= i < |r| ==> r[i] == MapNodeToResult(DefaultRanking(nodes, freq, clock)[i])
  {
    if |nodes| == 0 then []
    else Present(Take(DefaultRanking(nodes, freq, clock), cap))
  }

  /** A freshly ranked answer: the ranked nodes cut to the cap, presented. */
  function FreshResults(tokens: seq<string>, nodes: seq<Node>, freq: Frequency, clock: Clock, cap: nat): seq<Result>
    requires |tokens| > 0
  {
    Present(Take(RankedNodes(tokens, nodes, freq, clock), cap))
  }

  /** The nodes behind a fresh answer: at most `cap` of them, each an input
      node with a positive score, every deprecated one after every active
      one. */
  lemma FreshResultsNodes(tokens: seq<string>, nodes: seq<Node>, freq: Frequency, clock: Clock, cap: nat)
    requires |tokens| > 0
    ensures var ns := Take(RankedNodes(tokens, nodes, freq, clock), cap);
      FreshResults(tokens, nodes, freq, clock, cap) == Present(ns)
      && |ns| <= cap && |ns| <= |nodes| && LateLast(ns, IsDeprecated)
      && forall n :: n in ns ==> n in nodes && Score(tokens, n, freq, clock) > 0.0
  {
    var ranked := RankedNodes(tokens, nodes, freq, clock);
    RankedNodesMembers(tokens, nodes, freq, clock);
    RankedNodesOrder(tokens, nodes, freq, clock);
    TakeKeepsLateLast(ranked, cap, IsDeprecated);
    var ns := Take(ranked, cap);
    forall n | n in ns ensures n in ranked {
      var i :| 0 <= i < |ns| && ns[i] == n;
      assert ranked[i] == n;
    }
  }

  /** The nodes behind the default answer: exactly min(|nodes|, cap) of
      them, distinct positions of the input, every deprecated one after
      every active one. */
  lemma DefaultResultsNodes(nodes: seq<Node>, freq: Frequency, clock: Clock, cap: nat)
    ensures var ns := Take(DefaultRanking(nodes, freq, clock), cap);
      DefaultResults(nodes, freq, clock, cap) == Present(ns)
      && LateLast(ns, IsDeprecated) && multiset(ns) <= multiset(nodes)
  {
    var ranked := DefaultRanking(nodes, freq, clock);
    DefaultRankingProperties(nodes, freq, clock);
    TakeKeepsLateLast(ranked, cap, IsDeprecated);
    var ns := Take(ranked, cap);
    assert ranked == ns + ranked[|ns|..];
    assert multiset(ranked) == multiset(ns) + multiset(ranked[|ns|..]);
  }

  /** The answer of one `rankResults` call together with the cache store
      it leaves. */
  datatype Ranked = Ranked(results: seq<Result>, store: map<string, CacheEntry>)

  /** What `rankResults` does. An empty query gives the default list and
      an empty node list gives nothing, neither touching the cache. */
  function RankOutcome(query: string, nodes: seq<Node>, context: RankingContext, freq: Frequency, clock: Clock,
                       now: int, store: map<string, CacheEntry>, ttl: int, cap: nat): Ranked
  {
    var tokens := Tokenize(query);
    if tokens == [] then Ranked(DefaultResults(nodes, freq, clock, cap), store)
    else if nodes == [] then Ranked([], store)
    else QueryOutcome(tokens, nodes, context, freq, clock, now, store, ttl, cap)
  }

  /** A query with tokens over some nodes: an eligible context whose entry
      is live gets that entry; otherwise the ranked list is computed,
      capped, and stored under the context's key when the context is
      eligible and has one. */
  function QueryOutcome(tokens: seq<string>, nodes: seq<Node>, context: RankingContext, freq: Frequency,
                        clock: Clock, now: int, store: map<string, CacheEntry>, ttl: int, cap: nat): Ranked
    requires |tokens| > 0
  {
    var key := context.cacheKey;
    var version := context.cacheVersion;
    var cached := if context.cacheEligible then Lookup(store, key, version, now, ttl) else None;
    if cached.Some? then Ranked(cached.value, store)
    else
      var looked := if context.cacheEligible then AfterLookup(store, key, version, now, ttl) else store;
      var results := FreshResults(tokens, nodes, freq, clock, cap);
      Ranked(results, if context.cacheEligible && key != "" then looked[key := CacheEntry(results, now, version)] else looked)
  }

  /** Every answer respects the cap when the stored lists do, and so does
      every list left in the store. */
  lemma RankOutcomeBounded(query: string, nodes: seq<Node>, context: RankingContext, freq: Frequency, clock: Clock,
                           now: int, store: map<string, CacheEntry>, ttl: int, cap: nat)
    requires forall k :: k in store ==> |store[k].results| <= cap
    ensures var o := RankOutcome(query, nodes, context, freq, clock, now, store, ttl, cap);
      |o.results| <= cap && forall k :: k in o.store ==> |o.store[k].results| <= cap
  {
    var tokens := Tokenize(query);
    if tokens != [] && nodes != [] {
      QueryOutcomeBounded(tokens, nodes, context, freq, clock, now, store, ttl, cap);
    }
  }

  lemma QueryOutcomeBounded(tokens: seq<string>, nodes: seq<Node>, context: RankingContext, freq: Frequency,
                            clock: Clock, now: int, store: map<string, CacheEntry>, ttl: int, cap: nat)
    requires |tokens| > 0
    requires forall k :: k in store ==> |store[k].results| <= cap
    ensures var o := QueryOutcome(tokens, nodes, context, freq, clock, now, store, ttl, cap);
      |o.results| <= cap && forall k :: k in o.store ==> |o.store[k].results| <= cap
  {
    var key := context.cacheKey;
    var version := context.cacheVersion;
    LookupCapped(store, key, version, now, ttl, cap);
    FreshResultsCapped(tokens, nodes, freq, clock, cap);
  }

  /** A cache hit returns a capped list, and the lookup leaves a capped
      store. */
  lemma LookupCapped(store: map<string, CacheEntry>, key: string, version: Option<int>, now: int, ttl: int, cap: nat)
    requires forall k :: k in store ==> |store[k].results| <= cap
    ensures Lookup(store, key, version, now, ttl).Some? ==> |Lookup(store, key, version, now, ttl).value| <= cap
    ensures var after := AfterLookup(store, key, version, now, ttl);
      forall k :: k in after ==> |after[k].results| <= cap
  {
  }

  /** A fresh answer holds at most `cap` results. */
  lemma FreshResultsCapped(tokens: seq<string>, nodes: seq<Node>, freq: Frequency, clock: Clock, cap: nat)
    requires |tokens| > 0
    ensures |FreshResults(tokens, nodes, freq, clock, cap)| <= cap
  {
    var ns := RankedNodes(tokens, nodes, freq, clock);
    assert |Take(ns, cap)| <= cap;
  }

  /** A list that presents some nodes with every deprecated one after
      every active one, as every answer of `rankResults` does. */
  ghost predicate PresentsLateLast(rs: seq<Result>) {
    exists ns :: rs == Present(ns) && LateLast(ns, IsDeprecated)
  }

  /** Every list in the store keeps deprecated results last. */
  ghost predicate StoreLateLast(store: map<string, CacheEntry>) {
    forall k :: k in store ==> PresentsLateLast(store[k].results)
  }

  /** When the stored lists keep deprecated results last, so does every
      answer of a query with tokens, cached or fresh, and every list the
      store keeps afterwards. */
  lemma QueryOutcomeLateLast(tokens: seq<string>, nodes: seq<Node>, context: RankingContext, freq: Frequency,
                             clock: Clock, now: int, store: map<string, CacheEntry>, ttl: int, cap: nat)
    requires |tokens| > 0 && StoreLateLast(store)
    ensures var o := QueryOutcome(tokens, nodes, context, freq, clock, now, store, ttl, cap);
      PresentsLateLast(o.results) && StoreLateLast(o.store)
  {
    var key := context.cacheKey;
    var version := context.cacheVersion;
    FreshLateLast(tokens, nodes, freq, clock, cap);
    AfterLookupLateLast(store, key, version, now, ttl);
    var looked := if context.cacheEligible then AfterLookup(store, key, version, now, ttl) else store;
    var entry := CacheEntry(FreshResults(tokens, nodes, freq, clock, cap), now, version);
    PutLateLast(looked, key, entry);
  }

  /** A fresh answer keeps deprecated results last. */
  lemma FreshLateLast(tokens: seq<string>, nodes: seq<Node>, freq: Frequency, clock: Clock, cap: nat)
    requires |tokens| > 0
    ensures PresentsLateLast(FreshResults(tokens, nodes, freq, clock, cap))
  {
    FreshResultsNodes(tokens, nodes, freq, clock, cap);
    var ns := Take(RankedNodes(tokens, nodes, freq, clock), cap);
    assert FreshResults(tokens, nodes, freq, clock, cap) == Present(ns) && LateLast(ns, IsDeprecated);
  }

  /** The lookup only deletes, so its hits and the store it leaves keep
      deprecated results last. */
  lemma AfterLookupLateLast(store: map<string, CacheEntry>, key: string, version: Option<int>, now: int, ttl: int)
    requires StoreLateLast(store)
    ensures Lookup(store, key, version, now, ttl).Some? ==> PresentsLateLast(Lookup(store, key, version, now, ttl).value)
    ensures StoreLateLast(AfterLookup(store, key, version, now, ttl))
  {
  }

  /** Storing a list that keeps deprecated results last keeps the store so. */
  lemma PutLateLast(store: map<string, CacheEntry>, key: string, entry: CacheEntry)
    requires StoreLateLast(store) && PresentsLateLast(entry.results)
    ensures StoreLateLast(store[key := entry])
  {
  }

  /** Every answer of `rankResults` keeps deprecated results last, and so
      does every list it leaves in the store, provided the stored lists
      did so before. */
  lemma RankOutcomeLateLast(query: string, nodes: seq<Node>, context: RankingContext, freq: Frequency, clock: Clock,
                            now: int, store: map<string, CacheEntry>, ttl: int, cap: nat)
    requires StoreLateLast(store)
    ensures var o := RankOutcome(query, nodes, context, freq, clock, now, store, ttl, cap);
      PresentsLateLast(o.results) && StoreLateLast(o.store)
  {
    var tokens := Tokenize(query);
    if tokens == [] {
      DefaultResultsNodes(nodes, freq, clock, cap);
    } else if nodes == [] {
      assert Present([]) == [] && LateLast([], IsDeprecated);
    } else {
      QueryOutcomeLateLast(tokens, nodes, context, freq, clock, now, store, ttl, cap);
    }
  }

  /** The ranking engine created by `createRankingEngine`: its result cap,
      its cache time-to-live, and the cache store it mutates. */
  class Engine {
    const maxResults: nat
    const ttl: int
    var store: map<string, CacheEntry>

    /** Every cached list respects the result cap and keeps deprecated
        results last: only `rankResults` stores lists. */
    ghost predicate Valid()
      reads this
    {
      && (forall k :: k in store ==> |store[k].results| <= maxResults)
      && StoreLateLast(store)
    }

    /** Options left undefined take the defaults: 40 results, two minutes. */
    constructor(maxResultsOption: Option<nat>, ttlOption: Option<int>)
      ensures Valid() && store == map[]
      ensures maxResults == (if maxResultsOption.Some? then maxResultsOption.value else DefaultMaxResults)
      ensures ttl == (if ttlOption.Some? then ttlOption.value else DefaultCacheTtl)
    {
      maxResults := if maxResultsOption.Some? then maxResultsOption.value else DefaultMaxResults;
      ttl := if ttlOption.Some? then ttlOption.value else DefaultCacheTtl;
      store := map[];
    }

    method GetCachedResults(key: string, version: Option<int>, now: int) returns (cached: Option<seq<Result>>)
      requires Valid()
      modifies this
      ensures Valid()
      ensures cached == Lookup(old(store), key, version, now, ttl)
      ensures store == AfterLookup(old(store), key, version, now, ttl)
    {
      if key == "" || key !in store {
        return None;
      }
      var entry := store[key];
      if version.Some? && entry.version != version {
        store := store - {key};
        return None;
      }
      if now - entry.timestamp > ttl {
        store := store - {key};
        return None;
      }
      return Some(entry.results);
    }

    method SetCachedResults(key: string, version: Option<int>, results: seq<Result>, now: int)
      requires Valid() && |results| <= maxResults && PresentsLateLast(results)
      modifies this
      ensures Valid()
      ensures store == if key == "" then old(store) else old(store)[key := CacheEntry(results, now, version)]
    {
      if key == "" {
        return;
      }
      store := store[key := CacheEntry(results, now, version)];
    }

    method InvalidateCache(filter: Option<(string, CacheEntry) -> bool>)
      requires Valid()
      modifies this
      ensures Valid()
      ensures store == Invalidated(old(store), filter)
    {
      if |store| == 0 {
        return;
      }
      if filter.None? {
        store := map[];
        return;
      }
      var p := filter.value;
      ghost var start := store;
      var keys := store.Keys;
      while keys != {}
        invariant keys <= start.Keys
        invariant forall k :: k in store <==> k in start && (k in keys || !p(k, start[k]))
        invariant forall k :: k in store ==> store[k] == start[k]
        decreases keys
      {
        var k :| k in keys;
        if p(k, store[k]) {
          store := store - {k};
        }
        keys := keys - {k};
      }
    }

    /** The body of the cleanup timer: every entry stamped before
      `now - ttl` is deleted. */
    method Sweep(now: int)
      requires Valid()
      modifies this
      ensures Valid()
      ensures store == map k | k in old(store) && old(store)[k].timestamp >= now - ttl :: old(store)[k]
    {
      var expiry := now - ttl;
      ghost var start := store;
      var keys := store.Keys;
      while keys != {}
        invariant keys <= start.Keys
        invariant forall k :: k in store <==> k in start && (k in keys || start[k].timestamp >= expiry)
        invariant forall k :: k in store ==> store[k] == start[k]
        decreases keys
      {
        var k :| k in keys;
        if store[k].timestamp < expiry {
          store := store - {k};
        }
        keys := keys - {k};
      }
    }

    /** `rankResults`: the results and the new store are those
        `RankOutcome` describes. */
    method RankResults(query: string, nodes: seq<Node>, context: RankingContext,
                       freq: Frequency, clock: Clock, now: int) returns (results: seq<Result>)
      requires Valid()
      modifies this
      ensures Valid() && PresentsLateLast(results)
      ensures Ranked(results, store) == RankOutcome(query, nodes, context, freq, clock, now, old(store), ttl, maxResults)
    {
      RankOutcomeLateLast(query, nodes, context, freq, clock, now, store, ttl, maxResults);
      var tokens := Tokenize(query);
      if |tokens| == 0 {
        return DefaultResults(nodes, freq, clock, maxResults);
      }
      if |nodes| == 0 {
        return [];
      }
      results := RankQuery(tokens, nodes, context, freq, clock, now);
    }

    /** The part of `rankResults` after the early returns: the cache
        lookup, the scoring loop, the sort, the cap and the cache store. */
    method RankQuery(tokens: seq<string>, nodes: seq<Node>, context: RankingContext,
                     freq: Frequency, clock: Clock, now: int) returns (results: seq<Result>)
      requires Valid() && |tokens| > 0
      modifies this
      ensures Valid() && PresentsLateLast(results)
      ensures Ranked(results, store) == QueryOutcome(tokens, nodes, context, freq, clock, now, old(store), ttl, maxResults)
    {
      QueryOutcomeLateLast(tokens, nodes, context, freq, clock, now, store, ttl, maxResults);
      if context.cacheEligible {
        var cached := GetCachedResults(context.cacheKey, context.cacheVersion, now);
        if cached.Some? {
          return cached.value;
        }
      }
      var scored := ScoreAll(tokens, nodes, freq, clock);
      if |scored| == 0 {
        if context.cacheEligible && context.cacheKey != "" {
          assert Present([]) == [] && LateLast([], IsDeprecated);
          SetCachedResults(context.cacheKey, context.cacheVersion, [], now);
        }
        return [];
      }
      var combined := SplitAndSort(scored);
      results := Present(Take(NodesOf(combined), maxResults));
      FreshResultsNodes(tokens, nodes, freq, clock, maxResults);
      if context.cacheEligible && context.cacheKey != "" {
        SetCachedResults(context.cacheKey, context.cacheVersion, results, now);
      }
    }
  }

  /** The scoring loop of `rankResults`: every node with a positive score,
      with its score, in input order. */
  method ScoreAll(tokens: seq<string>, nodes: seq<Node>, freq: Frequency, clock: Clock) returns (scored: seq<Scored>)
    requires |tokens| > 0
    ensures scored == ScoredNodes(tokens, nodes, freq, clock)
  {
    scored := [];
    for i := 0 to |nodes|
      invariant scored == ScoredNodes(tokens, nodes[..i], freq, clock)
    {
      assert nodes[..i + 1][..i] == nodes[..i];
      var score := ScoreNode(tokens, nodes[i], freq, clock);
      if score > 0.0 {
        scored := scored + [Scored(score, nodes[i])];
      }
    }
    assert nodes[..|nodes|] == nodes;
  }

  /** The engine's caching contract as a caller sees it: on a fresh engine,
      a second eligible query within the time-to-live returns the first
      answer even though the nodes changed in between, and after
      `invalidateCache()` the same query is ranked afresh on the changed
      nodes. */
  method CacheRoundTrip(engine: Engine, query: string, nodes: seq<Node>, changed: seq<Node>,
                        context: RankingContext, freq: Frequency, clock: Clock, now: int, later: int)
    returns (first: seq<Result>, second: seq<Result>, third: seq<Result>)
    requires engine.Valid() && engine.store == map[]
    requires Tokenize(query) != [] && nodes != [] && changed != []
    requires context.cacheEligible && context.cacheKey != ""
    requires now <= later <= now + engine.ttl
    modifies engine
    ensures second == first
    ensures third == FreshResults(Tokenize(query), changed, freq, clock, engine.maxResults)
  {
    first := engine.RankResults(query, nodes, context, freq, clock, now);
    LookupAfterStore(map[], context.cacheKey, context.cacheVersion, first, now, later, engine.ttl, 0);
    second := engine.RankResults(query, changed, context, freq, clock, later);
    engine.InvalidateCache(None);
    third := engine.RankResults(query, changed, context, freq, clock, later);
  }
}
