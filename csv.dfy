/** The quote-toggling line parser and the row loop shared by the route
    importers. The same `parseCSVLine` appears in scripts/utils.js,
    scripts/routes-loader.js and manage-routes-old.js, and as
    `parseCSVLineValues` in scripts/content-script.js: every quote flips the
    quoted mode and is dropped, a comma outside quotes closes a field, and
    every field is trimmed. Each importer then walks the lines after the
    header, skips the blank ones and those with too few fields, and keeps the
    records its own builder accepts. */
module Csv {
  import opened Text
  import opened Sorting

  /** The loop variables of the line parser after a prefix of the line. */
  datatype LineState = LineState(values: seq<string>, current: string, inQuotes: bool)

  /** One character of the line parser's loop. */
  function Step(st: LineState, c: char): LineState {
    if c == '"' then st.(inQuotes := !st.inQuotes)
    else if c == ',' && !st.inQuotes then LineState(st.values + [Trim(st.current)], "", false)
    else st.(current := st.current + [c])
  }

  /** The loop state after reading all of `line`, one character at a time. */
  function Scan(line: string): LineState
    decreases |line|
  {
    if |line| == 0 then LineState([], "", false)
    else Step(Scan(line[..|line| - 1]), line[|line| - 1])
  }

  /** The fields of a line: the closed ones and the trimmed rest. */
  function Fields(line: string): seq<string> {
    Scan(line).values + [Trim(Scan(line).current)]
  }

  /** `parseCSVLine` / `parseCSVLineValues`. */
  method ParseLine(line: string) returns (values: seq<string>)
    ensures values == Fields(line)
    ensures |values| >= 1
  {
    values := [];
    var current := "";
    var inQuotes := false;
    for i := 0 to |line|
      invariant LineState(values, current, inQuotes) == Scan(line[..i])
    {
      assert line[..i + 1][..i] == line[..i];
      var c := line[i];
      if c == '"' {
        inQuotes := !inQuotes;
      } else if c == ',' && !inQuotes {
        values := values + [Trim(current)];
        current := "";
      } else {
        current := current + [c];
      }
    }
    assert line[..|line|] == line;
    values := values + [Trim(current)];
  }

  /** A field as the parser leaves it: trimmed and free of quotes. */
  predicate Clean(field: string) {
    IsTrimmed(field) && '"' !in field
  }

  lemma StepShape(st: LineState, c: char)
    requires forall k :: 0 <= k < |st.values| ==> Clean(st.values[k])
    requires '"' !in st.current
    ensures forall k :: 0 <= k < |Step(st, c).values| ==> Clean(Step(st, c).values[k])
    ensures '"' !in Step(st, c).current
  {
    if c == '"' {
    } else if c == ',' && !st.inQuotes {
      var vs := st.values + [Trim(st.current)];
      TrimFree(st.current, '"');
      forall k | 0 <= k < |vs| ensures Clean(vs[k]) {
        if k < |st.values| {
          assert vs[k] == st.values[k];
        } else {
          assert vs[k] == Trim(st.current);
        }
      }
    } else {
      assert Step(st, c).current == st.current + [c];
    }
  }

  /** Every closed field is trimmed, and no quote character survives. */
  lemma {:induction false} ScanShape(line: string)
    ensures forall k :: 0 <= k < |Scan(line).values| ==> Clean(Scan(line).values[k])
    ensures '"' !in Scan(line).current
    decreases |line|
  {
    if |line| > 0 {
      var init := line[..|line| - 1];
      ScanShape(init);
      StepShape(Scan(init), line[|line| - 1]);
    }
  }

  /** The fields are trimmed and hold no quote: each quote only toggles the
      mode and is dropped. */
  lemma FieldsShape(line: string)
    ensures forall k :: 0 <= k < |Fields(line)| ==> Clean(Fields(line)[k])
  {
    ScanShape(line);
    TrimFree(Scan(line).current, '"');
  }

  /** Number of quote characters. */
  function QuoteCount(s: string): nat
    decreases |s|
  {
    if |s| == 0 then 0
    else QuoteCount(s[..|s| - 1]) + (if s[|s| - 1] == '"' then 1 else 0)
  }

  /** Number of commas preceded by an even number of quotes, that is, the
      commas that stand outside quotes. */
  function UnquotedCommas(s: string): nat
    decreases |s|
  {
    if |s| == 0 then 0
    else
      var init := s[..|s| - 1];
      UnquotedCommas(init) + (if s[|s| - 1] == ',' && QuoteCount(init) % 2 == 0 then 1 else 0)
  }

  /** One character flips the mode exactly when it is a quote, and closes a
      field exactly when it is a comma outside quotes: the two counts of
      `ScanCounts` advance in step with the parser. */
  lemma StepCounts(st: LineState, c: char, q: nat, u: nat)
    requires st.inQuotes <==> q % 2 == 1
    requires |st.values| == u
    ensures Step(st, c).inQuotes <==> (q + (if c == '"' then 1 else 0)) % 2 == 1
    ensures |Step(st, c).values| == u + (if c == ',' && q % 2 == 0 then 1 else 0)
  {
  }

  /** The parser is inside quotes exactly after an odd number of quotes, and
      it has closed one field per unquoted comma. */
  lemma {:induction false} ScanCounts(line: string)
    ensures Scan(line).inQuotes <==> QuoteCount(line) % 2 == 1
    ensures |Scan(line).values| == UnquotedCommas(line)
    decreases |line|
  {
    if |line| > 0 {
      var init := line[..|line| - 1];
      ScanCounts(init);
      StepCounts(Scan(init), line[|line| - 1], QuoteCount(init), UnquotedCommas(init));
    }
  }

  /** The field count is the number of unquoted commas plus one. */
  lemma FieldCount(line: string)
    ensures |Fields(line)| == UnquotedCommas(line) + 1
  {
    ScanCounts(line);
  }

  /** `s` with its quote characters removed. */
  function DropQuotes(s: string): (r: string)
    ensures |r| == |s| - QuoteCount(s)
    decreases |s|
  {
    if |s| == 0 then ""
    else DropQuotes(s[..|s| - 1]) + (if s[|s| - 1] == '"' then "" else [s[|s| - 1]])
  }

  lemma {:induction false} DropQuotesPlain(s: string)
    requires '"' !in s
    ensures DropQuotes(s) == s
    decreases |s|
  {
    if |s| > 0 {
      DropQuotesPlain(s[..|s| - 1]);
    }
  }

  /** Reading a comma-free stretch only grows the current field by its
      unquoted characters and flips the mode once per quote. */
  lemma {:induction false} ScanAppend(prefix: string, p: string)
    requires ',' !in p
    ensures Scan(prefix + p)
      == LineState(Scan(prefix).values, Scan(prefix).current + DropQuotes(p),
                   Scan(prefix).inQuotes != (QuoteCount(p) % 2 == 1))
    decreases |p|
  {
    if |p| > 0 {
      var p' := p[..|p| - 1];
      var c := p[|p| - 1];
      ScanAppend(prefix, p');
      assert (prefix + p)[..|prefix + p| - 1] == prefix + p';
      assert Scan(prefix + p) == Step(Scan(prefix + p'), c);
      assert DropQuotes(p) == DropQuotes(p') + (if c == '"' then "" else [c]);
      assert QuoteCount(p) == QuoteCount(p') + (if c == '"' then 1 else 0);
    } else {
      assert prefix + p == prefix;
    }
  }

  /** The state after a joined line whose pieces hold no comma and an even
      number of quotes each: every piece but the last is closed. */
  predicate AfterJoin(st: LineState, parts: seq<string>)
    requires |parts| >= 1
  {
    && |st.values| == |parts| - 1
    && (forall k :: 0 <= k < |parts| - 1 ==> st.values[k] == Trim(DropQuotes(parts[k])))
    && st.current == DropQuotes(parts[|parts| - 1])
    && !st.inQuotes
  }

  predicate Unbroken(piece: string) {
    ',' !in piece && QuoteCount(piece) % 2 == 0
  }

  /** A comma outside quotes closes the current field. */
  lemma ScanComma(line: string)
    requires !Scan(line).inQuotes
    ensures Scan(line + ",") == LineState(Scan(line).values + [Trim(Scan(line).current)], "", false)
  {
    assert (line + ",")[..|line|] == line;
  }

  lemma AfterJoinNext(st0: LineState, parts: seq<string>, st: LineState)
    requires |parts| >= 2
    requires AfterJoin(st0, parts[..|parts| - 1])
    requires st == LineState(st0.values + [Trim(st0.current)], DropQuotes(parts[|parts| - 1]), false)
    ensures AfterJoin(st, parts)
  {
    var n := |parts|;
    assert |st0.values| == n - 2;
    assert st0.current == DropQuotes(parts[n - 2]);
    forall k | 0 <= k < n - 1
      ensures st.values[k] == Trim(DropQuotes(parts[k]))
    {
      if k < n - 2 {
        assert st.values[k] == st0.values[k];
        assert parts[..n - 1][k] == parts[k];
      } else {
        assert k == |st0.values|;
      }
    }
  }

  lemma {:induction false} ScanJoin(parts: seq<string>)
    requires |parts| >= 1
    requires forall k :: 0 <= k < |parts| ==> Unbroken(parts[k])
    ensures AfterJoin(Scan(Join(parts, ",")), parts)
    decreases |parts|
  {
    var n := |parts|;
    if n == 1 {
      ScanAppend("", parts[0]);
      assert "" + parts[0] == parts[0];
    } else {
      var init := parts[..n - 1];
      assert forall k :: 0 <= k < |init| ==> Unbroken(init[k]);
      ScanJoin(init);
      JoinSnoc(parts, ",");
      var j := Join(init, ",");
      ScanComma(j);
      ScanAppend(j + ",", parts[n - 1]);
      assert "" + DropQuotes(parts[n - 1]) == DropQuotes(parts[n - 1]);
      AfterJoinNext(Scan(j), parts, Scan(Join(parts, ",")));
    }
  }

  /** Parsing a comma-joined line gives back its pieces, with their quotes
      dropped and trimmed, when no piece holds a comma and every piece holds
      an even number of quotes. */
  lemma FieldsOfJoin(parts: seq<string>)
    requires |parts| >= 1
    requires forall k :: 0 <= k < |parts| ==> Unbroken(parts[k])
    ensures |Fields(Join(parts, ","))| == |parts|
    ensures forall k :: 0 <= k < |parts| ==> Fields(Join(parts, ","))[k] == Trim(DropQuotes(parts[k]))
  {
    ScanJoin(parts);
    var st := Scan(Join(parts, ","));
    var fields := Fields(Join(parts, ","));
    assert fields == st.values + [Trim(st.current)];
    forall k | 0 <= k < |parts|
      ensures fields[k] == Trim(DropQuotes(parts[k]))
    {
      if k < |parts| - 1 {
        assert fields[k] == st.values[k];
      } else {
        assert k == |st.values|;
      }
    }
  }

  /** `cell` reads back as `v`: it holds no comma, an even number of quotes,
      and is `v` once its quotes are dropped and it is trimmed. */
  predicate ReadsAs(cell: string, v: string) {
    Unbroken(cell) && Trim(DropQuotes(cell)) == v
  }

  /** Parsing a joined line whose cells read back as `vals` gives `vals`. */
  lemma FieldsOfJoinAs(parts: seq<string>, vals: seq<string>)
    requires |parts| == |vals| >= 1
    requires forall k :: 0 <= k < |parts| ==> ReadsAs(parts[k], vals[k])
    ensures Fields(Join(parts, ",")) == vals
  {
    FieldsOfJoin(parts);
  }

  /** `s.replace(/^"|"$/g, "")`: one leading and one trailing quote removed. */
  function StripQuotes(s: string): string {
    var a := if |s| > 0 && s[0] == '"' then s[1..] else s;
    if |a| > 0 && a[|a| - 1] == '"' then a[..|a| - 1] else a
  }

  /** Text without quotes passes through unchanged, and a quoted text loses
      exactly its two outer quotes. */
  lemma StripQuotesProperties(s: string)
    ensures '"' !in s ==> StripQuotes(s) == s
    ensures StripQuotes("\"" + s + "\"") == s
    ensures |StripQuotes(s)| <= |s| && |s| - |StripQuotes(s)| <= 2
  {
    var w := "\"" + s + "\"";
    assert w[1..] == s + "\"";
  }

  /** The lines of an imported text: `text.trim().split(separator)`. */
  function Lines(text: string, separator: string): seq<string>
    requires |separator| > 0
  {
    Split(Trim(text), separator)
  }

  /** What the import loop makes of one data line: nothing for a blank line,
      a line with fewer than `minFields` fields or a record the builder
      refuses, otherwise the built record. */
  function RowOf<R>(line: string, minFields: nat, build: seq<string> -> Option<R>): seq<R> {
    if Trim(line) == "" then []
    else
      var values := Fields(line);
      if |values| < minFields then [] else Kept(build(values))
  }

  /** The record a builder accepted, or nothing. */
  function Kept<R>(o: Option<R>): seq<R> {
    match o
    case None => []
    case Some(r) => [r]
  }

  /** The records of the data lines, in order. */
  function Rows<R>(lines: seq<string>, minFields: nat, build: seq<string> -> Option<R>): seq<R>
    decreases |lines|
  {
    if |lines| == 0 then []
    else Rows(lines[..|lines| - 1], minFields, build) + RowOf(lines[|lines| - 1], minFields, build)
  }

  /** The import loop over the data lines. */
  method ParseRows<R>(lines: seq<string>, minFields: nat, build: seq<string> -> Option<R>)
    returns (routes: seq<R>)
    ensures routes == Rows(lines, minFields, build)
  {
    routes := [];
    for i := 0 to |lines|
      invariant routes == Rows(lines[..i], minFields, build)
    {
      assert lines[..i + 1][..i] == lines[..i];
      var row := ReadRow(lines[i], minFields, build);
      routes := routes + row;
    }
    assert lines[..|lines|] == lines;
  }

  /** One pass of the import loop: a blank line, a line with too few fields
      and a line the builder rejects add nothing. */
  method ReadRow<R>(line: string, minFields: nat, build: seq<string> -> Option<R>) returns (row: seq<R>)
    ensures row == RowOf(line, minFields, build)
  {
    row := [];
    if Trim(line) == "" {
      return;
    }
    var values := ParseLine(line);
    if |values| < minFields {
      return;
    }
    match build(values)
    case None =>
    case Some(r) =>
      row := [r];
  }

  /** Line `line` is kept and builds `r`. */
  ghost predicate Builds<R>(line: string, minFields: nat, build: seq<string> -> Option<R>, r: R) {
    Trim(line) != "" && |Fields(line)| >= minFields && build(Fields(line)) == Some(r)
  }

  /** Some line of `lines` builds `r`. */
  ghost predicate BuiltFrom<R>(lines: seq<string>, minFields: nat, build: seq<string> -> Option<R>, r: R) {
    exists k :: 0 <= k < |lines| && Builds(lines[k], minFields, build, r)
  }

  /** Every record comes from a non-blank line with enough fields that the
      builder accepted. */
  lemma {:induction false} RowsSound<R>(lines: seq<string>, minFields: nat, build: seq<string> -> Option<R>)
    ensures forall j :: 0 <= j < |Rows(lines, minFields, build)| ==>
      BuiltFrom(lines, minFields, build, Rows(lines, minFields, build)[j])
    decreases |lines|
  {
    if |lines| > 0 {
      var init := lines[..|lines| - 1];
      RowsSound(init, minFields, build);
      var rows := Rows(lines, minFields, build);
      var head := Rows(init, minFields, build);
      assert rows == head + RowOf(lines[|lines| - 1], minFields, build);
      forall j | 0 <= j < |rows|
        ensures BuiltFrom(lines, minFields, build, rows[j])
      {
        if j < |head| {
          BuiltFromLonger(lines, minFields, build, head[j]);
          assert rows[j] == head[j];
        } else {
          RowOfSound(lines[|lines| - 1], minFields, build);
          assert rows[j] == RowOf(lines[|lines| - 1], minFields, build)[j - |head|];
        }
      }
    }
  }

  /** A record built from the lines before the last is built from the
      lines. */
  lemma BuiltFromLonger<R>(lines: seq<string>, minFields: nat, build: seq<string> -> Option<R>, r: R)
    requires |lines| > 0 && BuiltFrom(lines[..|lines| - 1], minFields, build, r)
    ensures BuiltFrom(lines, minFields, build, r)
  {
    var init := lines[..|lines| - 1];
    var k :| 0 <= k < |init| && Builds(init[k], minFields, build, r);
    InitAt(lines, k);
    BuildsAt(lines, minFields, build, r, k);
  }

  lemma InitAt<T>(s: seq<T>, k: nat)
    requires k < |s| - 1
    ensures s[..|s| - 1][k] == s[k]
  {
  }

  lemma BuildsAt<R>(lines: seq<string>, minFields: nat, build: seq<string> -> Option<R>, r: R, k: nat)
    requires k < |lines| && Builds(lines[k], minFields, build, r)
    ensures BuiltFrom(lines, minFields, build, r)
  {
  }

  /** The record of one line is one its builder accepted. */
  lemma RowOfSound<R>(line: string, minFields: nat, build: seq<string> -> Option<R>)
    ensures forall j :: 0 <= j < |RowOf(line, minFields, build)| ==>
      Builds(line, minFields, build, RowOf(line, minFields, build)[j])
  {
    if Trim(line) != "" && |Fields(line)| >= minFields {
      var o := build(Fields(line));
      assert RowOf(line, minFields, build) == Kept(o);
      KeptSound(o);
    }
  }

  lemma KeptSound<R>(o: Option<R>)
    ensures forall j :: 0 <= j < |Kept(o)| ==> o == Some(Kept(o)[j])
  {
  }

  /** When every line is non-blank, has enough fields and builds a record,
      the rows are exactly those records. */
  lemma {:induction false} RowsAll<R>(lines: seq<string>, minFields: nat, build: seq<string> -> Option<R>,
                                      records: seq<R>)
    requires |records| == |lines|
    requires forall k :: 0 <= k < |lines| ==> Builds(lines[k], minFields, build, records[k])
    ensures Rows(lines, minFields, build) == records
    decreases |lines|
  {
    if |lines| > 0 {
      var n := |lines|;
      var init := lines[..n - 1];
      var firsts := records[..n - 1];
      forall k | 0 <= k < |init| ensures Builds(init[k], minFields, build, firsts[k]) {
        assert init[k] == lines[k] && firsts[k] == records[k];
      }
      RowsAll(init, minFields, build, firsts);
      assert Builds(lines[n - 1], minFields, build, records[n - 1]);
      assert RowOf(lines[n - 1], minFields, build) == [records[n - 1]];
      LastSplit(records);
    }
  }

  /** `f` applied inside an optional value. */
  function MapOption<R, S>(o: Option<R>, f: R -> S): (r: Option<S>)
    ensures r.Some? <==> o.Some?
  {
    match o
    case None => None
    case Some(x) => Some(f(x))
  }

  /** Two importers whose builders agree up to `f` read the same lines into
      records that agree up to `f`. */
  lemma {:induction false} RowsMap<R, S>(lines: seq<string>, minFields: nat, b1: seq<string> -> Option<R>,
                                         b2: seq<string> -> Option<S>, f: R -> S)
    requires forall v :: b2(v) == MapOption(b1(v), f)
    ensures Map(Rows(lines, minFields, b1), f) == Rows(lines, minFields, b2)
    decreases |lines|
  {
    if |lines| > 0 {
      var init := lines[..|lines| - 1];
      var last := lines[|lines| - 1];
      RowsMap(init, minFields, b1, b2, f);
      MapAppend(Rows(init, minFields, b1), RowOf(last, minFields, b1), f);
      RowOfMap(last, minFields, b1, b2, f);
      assert Rows(lines, minFields, b1) == Rows(init, minFields, b1) + RowOf(last, minFields, b1);
      assert Rows(lines, minFields, b2) == Rows(init, minFields, b2) + RowOf(last, minFields, b2);
    }
  }

  lemma RowOfMap<R, S>(line: string, minFields: nat, b1: seq<string> -> Option<R>,
                       b2: seq<string> -> Option<S>, f: R -> S)
    requires forall v :: b2(v) == MapOption(b1(v), f)
    ensures Map(RowOf(line, minFields, b1), f) == RowOf(line, minFields, b2)
  {
    if Trim(line) != "" && |Fields(line)| >= minFields {
      var values := Fields(line);
      KeptMap(b1(values), b2(values), f);
    }
  }

  lemma KeptMap<R, S>(o1: Option<R>, o2: Option<S>, f: R -> S)
    requires o2 == MapOption(o1, f)
    ensures Map(Kept(o1), f) == Kept(o2)
  {
    if o1.Some? {
      assert Map(Kept(o1), f) == [f(o1.value)];
    }
  }

  /** The route record that scripts/routes-loader.js and
      manage-routes-old.js build from a row. */
  datatype Route = Route(domain: string, id: string, moduleName: string, title: string, url: string,
                         tag: seq<string>, description: string, status: string)

  /** `values[i]`, where a missing field reads as "" (`undefined` is falsy
      and every use is `values[i] || ...` or a truthiness test). */
  function At(values: seq<string>, i: nat): string {
    if i < |values| then values[i] else ""
  }

  /** `s || fallback` on a string. */
  function OrElse(s: string, fallback: string): (r: string)
    ensures r == s || r == fallback
    ensures fallback != "" ==> r != ""
  {
    if s != "" then s else fallback
  }

  /** `t.trim()` is truthy. */
  predicate HasText(t: string) {
    Trim(t) != ""
  }

  /** `.filter(t => t.trim())`: the pieces that are not blank, kept untrimmed. */
  function NotBlank(parts: seq<string>): (r: seq<string>)
    ensures |r| <= |parts|
    ensures forall k :: 0 <= k < |r| ==> Trim(r[k]) != "" && r[k] in parts
  {
    KeepMembers(parts, HasText);
    Keep(parts, HasText)
  }

  lemma NotBlankAll(parts: seq<string>)
    requires forall k :: 0 <= k < |parts| ==> Trim(parts[k]) != ""
    ensures NotBlank(parts) == parts
  {
    KeepEvery(parts, HasText);
  }

  /** The `tag` column: an empty cell gives no tags, otherwise the outer
      quotes are stripped and the `|`-separated pieces that are not blank are
      kept. */
  function TagColumn(cell: string): (tags: seq<string>)
    ensures forall k :: 0 <= k < |tags| ==> Trim(tags[k]) != ""
  {
    if cell == "" then [] else NotBlank(Split(StripQuotes(cell), "|"))
  }

  /** A tag that survives the `tag` column unchanged. */
  predicate PlainTag(t: string) {
    Trim(t) != "" && '|' !in t && '"' !in t
  }

  lemma PlainTagsNonEmpty(tags: seq<string>)
    requires forall k :: 0 <= k < |tags| ==> PlainTag(tags[k])
    ensures forall k :: 0 <= k < |tags| ==> tags[k] != ""
  {
    forall k | 0 <= k < |tags| ensures tags[k] != "" {
      assert |Trim(tags[k])| <= |tags[k]|;
    }
  }

  /** The joined tags are a non-empty cell without quotes. */
  lemma JoinedTagsCell(tags: seq<string>)
    requires |tags| > 0
    requires forall k :: 0 <= k < |tags| ==> tags[k] != "" && '"' !in tags[k]
    ensures Join(tags, "|") != "" && StripQuotes(Join(tags, "|")) == Join(tags, "|")
  {
    JoinEnds(tags, "|");
    JoinFree(tags, "|", '"');
    StripQuotesProperties(Join(tags, "|"));
  }

  /** Joining tags with `|` and reading the column back gives the tags. */
  lemma TagColumnOfJoin(tags: seq<string>)
    requires forall k :: 0 <= k < |tags| ==> PlainTag(tags[k])
    ensures TagColumn(Join(tags, "|")) == tags
  {
    if |tags| > 0 {
      PlainTagsNonEmpty(tags);
      JoinedTagsCell(tags);
      SplitJoin(tags, '|');
      NotBlankAll(tags);
    }
  }

  /** The record of a row: `domain`, `id` and `title` must be present, a
      missing `status` reads as "active". */
  function BuildRoute(values: seq<string>): (r: Option<Route>)
    ensures r.Some? <==> At(values, 0) != "" && At(values, 1) != "" && At(values, 3) != ""
    ensures r.Some? ==>
      && r.value.domain == At(values, 0) && r.value.id == At(values, 1)
      && r.value.title == At(values, 3) && r.value.status != ""
      && (forall k :: 0 <= k < |r.value.tag| ==> Trim(r.value.tag[k]) != "")
  {
    var route := Route(At(values, 0), At(values, 1), At(values, 2), At(values, 3), At(values, 4),
                       TagColumn(At(values, 5)), At(values, 6), OrElse(At(values, 7), "active"));
    if route.domain != "" && route.id != "" && route.title != "" then Some(route) else None
  }

  /** A route the importers keep: domain, id, title and status present, and
      no blank tag. */
  predicate Complete(r: Route) {
    r.domain != "" && r.id != "" && r.title != "" && r.status != ""
    && forall t :: 0 <= t < |r.tag| ==> Trim(r.tag[t]) != ""
  }

  /** Every route read from the lines is complete. */
  lemma RouteRowsComplete(lines: seq<string>, minFields: nat)
    ensures forall k :: 0 <= k < |Rows(lines, minFields, BuildRoute)| ==> Complete(Rows(lines, minFields, BuildRoute)[k])
  {
    var rows := Rows(lines, minFields, BuildRoute);
    RowsSound(lines, minFields, BuildRoute);
    forall k | 0 <= k < |rows|
      ensures Complete(rows[k])
    {
      BuiltComplete(lines, minFields, rows[k]);
    }
  }

  lemma BuiltComplete(lines: seq<string>, minFields: nat, r: Route)
    requires BuiltFrom(lines, minFields, BuildRoute, r)
    ensures Complete(r)
  {
    var k :| 0 <= k < |lines| && Builds(lines[k], minFields, BuildRoute, r);
    assert BuildRoute(Fields(lines[k])) == Some(r);
  }

  lemma LastSplit<T>(s: seq<T>)
    requires |s| > 0
    ensures s == s[..|s| - 1] + [s[|s| - 1]]
  {
  }
}
