/** manage.js, CSV side: the route manager exports its table with
    `routesToCSV`, quoting the free-text cells with `escapeCSV`, and reads a
    file back with `parseCSV`, whose line parser understands a doubled quote
    inside a quoted field. */
module ManageCsv {
  import opened Text
  import opened Sorting
  import Csv
  import Utils
  import ManageRoutesOld

  /** A route as the manager stores it: the tags stay one `|`-separated
      string. A missing `tags` or `description` reads as "". */
  datatype ManagedRoute = ManagedRoute(domain: string, id: string, moduleName: string, title: string,
                                       url: string, tags: string, description: string, status: string)

  // ------------------------------------------------------------- escaping

  /** A value that `escapeCSV` wraps in quotes. */
  predicate NeedsQuotes(v: string) {
    ',' in v || '"' in v || '\n' in v
  }

  /** `value.replace(/"/g, '""')`: every quote doubled. */
  function DoubleQuotes(v: string): (r: string)
    ensures |r| >= |v|
    ensures '"' !in v ==> r == v
    decreases |v|
  {
    if |v| == 0 then ""
    else (if v[0] == '"' then ['"', '"'] else [v[0]]) + DoubleQuotes(v[1..])
  }

  /** `escapeCSV`: "" for anything but a string; a value holding a comma, a
      quote or a newline is quoted with its quotes doubled; any other value
      is written as it is. */
  function EscapeCsv(value: Utils.Arg): (r: string)
    ensures value.NotString? ==> r == ""
    ensures value.Str? && !NeedsQuotes(value.s) ==> r == value.s
    ensures value.Str? && NeedsQuotes(value.s) ==> |r| >= |value.s| + 2 && r[0] == '"' && r[|r| - 1] == '"'
  {
    match value
    case NotString => ""
    case Str(v) => if NeedsQuotes(v) then ['"'] + DoubleQuotes(v) + ['"'] else v
  }

  /** Doubling quotes brings in no newline. */
  lemma {:induction false} DoubleQuotesNewline(v: string)
    ensures '\n' in DoubleQuotes(v) <==> '\n' in v
    decreases |v|
  {
    if |v| > 0 {
      DoubleQuotesNewline(v[1..]);
      assert v == [v[0]] + v[1..];
    }
  }

  /** Escaping keeps a value free of newlines. */
  lemma EscapeNewline(v: string)
    requires '\n' !in v
    ensures '\n' !in EscapeCsv(Utils.Str(v))
  {
    DoubleQuotesNewline(v);
  }

  /** `escapeCSV` of a string. */
  function Escape(v: string): string {
    EscapeCsv(Utils.Str(v))
  }

  // ---------------------------------------------------------- line parser

  /** The variables of the `parseCSVLine` loop. */
  datatype LineState = LineState(fields: seq<string>, current: string, inQuotes: bool)

  const Start := LineState([], "", false)

  /** The fields the loop returns when it still has `s` to read from state
      `st`: inside quotes a doubled quote stands for one quote, any other
      quote switches quoting, an unquoted comma ends the field, and every
      other character joins it. Fields are not trimmed. */
  function Scan(s: string, st: LineState): (fields: seq<string>)
    ensures |fields| >= |st.fields| + 1
    decreases |s|
  {
    if |s| == 0 then st.fields + [st.current]
    else if s[0] == '"' then
      if st.inQuotes && |s| > 1 && s[1] == '"' then Scan(s[2..], st.(current := st.current + ['"']))
      else Scan(s[1..], st.(inQuotes := !st.inQuotes))
    else if s[0] == ',' && !st.inQuotes then Scan(s[1..], st.(fields := st.fields + [st.current], current := ""))
    else Scan(s[1..], st.(current := st.current + [s[0]]))
  }

  /** `parseCSVLine(line)`. */
  function ParseCsvLine(line: string): seq<string> {
    Scan(line, Start)
  }

  /** The character loop of `parseCSVLine`. */
  method ParseLine(line: string) returns (fields: seq<string>)
    ensures fields == ParseCsvLine(line)
    ensures |fields| >= 1
  {
    fields := [];
    var current := "";
    var inQuotes := false;
    var i := 0;
    while i < |line|
      invariant 0 <= i <= |line|
      invariant Scan(line[i..], LineState(fields, current, inQuotes)) == ParseCsvLine(line)
      decreases |line| - i
    {
      var c := line[i];
      if c == '"' {
        if inQuotes && i + 1 < |line| && line[i + 1] == '"' {
          assert line[i..][2..] == line[i + 2..];
          current := current + ['"'];
          i := i + 1;
        } else {
          assert line[i..][1..] == line[i + 1..];
          inQuotes := !inQuotes;
        }
      } else if c == ',' && !inQuotes {
        assert line[i..][1..] == line[i + 1..];
        fields := fields + [current];
        current := "";
      } else {
        assert line[i..][1..] == line[i + 1..];
        current := current + [c];
      }
      i := i + 1;
    }
    fields := fields + [current];
  }

  /** One step of the loop on an ordinary character. */
  lemma ScanChar(ch: char, t: string, st: LineState)
    requires ch != '"' && (ch != ',' || st.inQuotes)
    ensures Scan([ch] + t, st) == Scan(t, st.(current := st.current + [ch]))
  {
    assert ([ch] + t)[1..] == t;
  }

  /** One step on a doubled quote inside quotes. */
  lemma ScanPair(t: string, st: LineState)
    requires st.inQuotes
    ensures Scan(['"', '"'] + t, st) == Scan(t, st.(current := st.current + ['"']))
  {
    assert (['"', '"'] + t)[2..] == t;
  }

  /** One step on a quote that is not doubled, or that is met outside
      quotes. */
  lemma ScanToggle(t: string, st: LineState)
    requires !st.inQuotes || t == [] || t[0] != '"'
    ensures Scan(['"'] + t, st) == Scan(t, st.(inQuotes := !st.inQuotes))
  {
    assert (['"'] + t)[1..] == t;
  }

  /** One step on a comma outside quotes. */
  lemma ScanComma(t: string, st: LineState)
    requires !st.inQuotes
    ensures Scan([','] + t, st) == Scan(t, st.(fields := st.fields + [st.current], current := ""))
  {
    assert ([','] + t)[1..] == t;
  }

  /** A text without quotes or commas, read outside quotes, joins the
      current field. */
  lemma {:induction false} ScanPlain(w: string, rest: string, f: seq<string>, c: string)
    requires ',' !in w && '"' !in w
    ensures Scan(w + rest, LineState(f, c, false)) == Scan(rest, LineState(f, c + w, false))
    decreases |w|
  {
    if |w| > 0 {
      assert w + rest == [w[0]] + (w[1..] + rest);
      assert w[0] in w;
      ScanChar(w[0], w[1..] + rest, LineState(f, c, false));
      ScanPlain(w[1..], rest, f, c + [w[0]]);
      assert c + [w[0]] + w[1..] == c + w;
    } else {
      assert w + rest == rest && c + w == c;
    }
  }

  /** Inside quotes, a text with its quotes doubled followed by a closing
      quote reads as the text itself, and quoting ends. */
  lemma {:induction false} ScanQuoted(w: string, rest: string, f: seq<string>, c: string)
    requires rest == [] || rest[0] != '"'
    ensures Scan(DoubleQuotes(w) + ['"'] + rest, LineState(f, c, true)) == Scan(rest, LineState(f, c + w, false))
    decreases |w|
  {
    var s := DoubleQuotes(w) + ['"'] + rest;
    if |w| == 0 {
      assert s == ['"'] + rest;
      ScanToggle(rest, LineState(f, c, true));
      assert c + w == c;
    } else {
      QuotedStep(w, rest, f, c);
      ScanQuoted(w[1..], rest, f, c + [w[0]]);
      assert c + [w[0]] + w[1..] == c + w;
    }
  }

  /** Inside quotes, the first character of the text joins the current
      field, a quote being read from its doubled form. */
  lemma QuotedStep(w: string, rest: string, f: seq<string>, c: string)
    requires |w| > 0
    ensures Scan(DoubleQuotes(w) + ['"'] + rest, LineState(f, c, true))
         == Scan(DoubleQuotes(w[1..]) + ['"'] + rest, LineState(f, c + [w[0]], true))
  {
    var s := DoubleQuotes(w) + ['"'] + rest;
    var tail := DoubleQuotes(w[1..]) + ['"'] + rest;
    if w[0] == '"' {
      assert s == ['"', '"'] + tail;
      ScanPair(tail, LineState(f, c, true));
    } else {
      assert s == [w[0]] + tail;
      ScanChar(w[0], tail, LineState(f, c, true));
    }
  }

  /** An escaped value, followed by the end of the line or a comma, reads
      back as the value. */
  lemma ScanCell(v: string, rest: string, f: seq<string>)
    requires rest == [] || rest[0] == ','
    ensures Scan(Escape(v) + rest, LineState(f, "", false)) == Scan(rest, LineState(f, v, false))
  {
    if NeedsQuotes(v) {
      ScanQuotedCell(v, rest, f);
    } else {
      ScanPlain(v, rest, f, "");
      assert "" + v == v;
    }
  }

  /** A quoted value: the opening quote starts quoting, and the rest reads
      back as the value. */
  lemma ScanQuotedCell(v: string, rest: string, f: seq<string>)
    requires NeedsQuotes(v)
    requires rest == [] || rest[0] == ','
    ensures Scan(Escape(v) + rest, LineState(f, "", false)) == Scan(rest, LineState(f, v, false))
  {
    var tail := DoubleQuotes(v) + ['"'] + rest;
    assert Escape(v) + rest == ['"'] + tail;
    ScanToggle(tail, LineState(f, "", false));
    ScanQuoted(v, rest, f, "");
    assert "" + v == v;
  }

  /** `parseCSVLine(escapeCSV(v))` is `[v]` for every string `v`. */
  lemma EscapeRoundTrip(v: string)
    ensures ParseCsvLine(EscapeCsv(Utils.Str(v))) == [v]
  {
    ScanCell(v, [], []);
    assert Escape(v) + [] == Escape(v);
  }

  /** Escaped values joined with commas read back as the values, after the
      fields already read. */
  lemma {:induction false} ScanCells(vals: seq<string>, f: seq<string>)
    requires |vals| >= 1
    ensures Scan(Join(Map(vals, Escape), ","), LineState(f, "", false)) == f + vals
    decreases |vals|
  {
    if |vals| == 1 {
      var cells := Map(vals, Escape);
      ScanCell(vals[0], [], f);
      assert cells[0] + [] == cells[0];
    } else {
      var tail := Join(Map(vals[1..], Escape), ",");
      JoinCells(vals);
      ScanCell(vals[0], "," + tail, f);
      ScanComma(tail, LineState(f, vals[0], false));
      ScanCells(vals[1..], f + [vals[0]]);
      assert f + [vals[0]] + vals[1..] == f + vals;
    }
  }

  /** The first cell of a row, a comma, and the rest of the row. */
  lemma JoinCells(vals: seq<string>)
    requires |vals| >= 2
    ensures Join(Map(vals, Escape), ",") == Escape(vals[0]) + ("," + Join(Map(vals[1..], Escape), ","))
  {
    var cells := Map(vals, Escape);
    assert cells[1..] == Map(vals[1..], Escape);
  }

  /** A row of escaped cells parses back into the values. */
  lemma ParseCsvLineOfJoin(vals: seq<string>)
    requires |vals| >= 1
    ensures ParseCsvLine(Join(Map(vals, Escape), ",")) == vals
  {
    ScanCells(vals, []);
  }

  /** Outside quotes, a text without quotes is read as its comma-separated
      pieces, the first one appended to the current field. */
  lemma {:induction false} ScanUnquoted(s: string, f: seq<string>, c: string)
    requires '"' !in s
    ensures var parts := Split(s, ",");
      Scan(s, LineState(f, c, false)) == f + [c + parts[0]] + parts[1..]
    decreases |s|
  {
    if |s| > 0 {
      var rest := Split(s[1..], ",");
      assert s == [s[0]] + s[1..];
      if s[0] == ',' {
        assert s[..1] == ",";
        assert Split(s, ",") == [""] + rest;
        ScanComma(s[1..], LineState(f, c, false));
        ScanUnquoted(s[1..], f + [c], "");
        assert "" + rest[0] == rest[0] && c + "" == c;
        assert [rest[0]] + rest[1..] == rest;
        assert f + [c] + [rest[0]] + rest[1..] == f + [c] + rest;
      } else {
        assert s[..1] != ",";
        ScanChar(s[0], s[1..], LineState(f, c, false));
        ScanUnquoted(s[1..], f, c + [s[0]]);
        assert c + [s[0]] + rest[0] == c + ([s[0]] + rest[0]);
      }
    } else {
      assert c + s == c;
    }
  }

  /** On a line without quotes the parser is `line.split(",")`. */
  lemma QuoteFreeLine(line: string)
    requires '"' !in line
    ensures ParseCsvLine(line) == Split(line, ",")
  {
    ScanUnquoted(line, [], "");
    var parts := Split(line, ",");
    assert "" + parts[0] == parts[0];
    assert [parts[0]] + parts[1..] == parts;
  }

  // ------------------------------------------------------------ export

  /** The cells of a route's row: title, tags and description escaped, the
      other fields written as they are. */
  function RowCells(r: ManagedRoute): seq<string> {
    [r.domain, r.id, r.moduleName, Escape(r.title), r.url, Escape(r.tags), Escape(r.description), r.status]
  }

  /** The fields of a route in column order. */
  function RowValues(r: ManagedRoute): seq<string> {
    [r.domain, r.id, r.moduleName, r.title, r.url, r.tags, r.description, r.status]
  }

  function RouteRow(r: ManagedRoute): string {
    Join(RowCells(r), ",")
  }

  /** `routesToCSV`: the header line, a newline, then the rows joined with
      newlines. */
  function RoutesToCsv(routes: seq<ManagedRoute>): string {
    ManageRoutesOld.Header + "\n" + Join(Map(routes, RouteRow), "\n")
  }

  // ------------------------------------------------------------ import

  /** The route a row of at least eight fields gives: every field trimmed,
      nothing checked. */
  function BuildRoute(fields: seq<string>): ManagedRoute
    requires |fields| >= 8
  {
    ManagedRoute(Trim(fields[0]), Trim(fields[1]), Trim(fields[2]), Trim(fields[3]),
                 Trim(fields[4]), Trim(fields[5]), Trim(fields[6]), Trim(fields[7]))
  }

  /** What one data line adds: its route when it has eight fields or more. */
  function RowOf(line: string): seq<ManagedRoute> {
    var fields := ParseCsvLine(line);
    if |fields| >= 8 then [BuildRoute(fields)] else []
  }

  /** The routes of the data lines, in order. */
  function RowsOf(lines: seq<string>): (routes: seq<ManagedRoute>)
    ensures |routes| <= |lines|
    decreases |lines|
  {
    if |lines| == 0 then []
    else RowsOf(lines[..|lines| - 1]) + RowOf(lines[|lines| - 1])
  }

  /** `parseCSV`: the trimmed text split on newlines; fewer than two lines
      give no routes; the header line is skipped. */
  function ParseCsv(text: string): seq<ManagedRoute> {
    var lines := Csv.Lines(text, "\n");
    if |lines| < 2 then [] else RowsOf(lines[1..])
  }

  /** The `parseCSV` loop over the data lines. */
  method ReadRows(lines: seq<string>) returns (routes: seq<ManagedRoute>)
    ensures routes == RowsOf(lines)
  {
    routes := [];
    for i := 0 to |lines|
      invariant routes == RowsOf(lines[..i])
    {
      assert lines[..i + 1][..i] == lines[..i];
      var fields := ParseLine(lines[i]);
      if |fields| >= 8 {
        routes := routes + [BuildRoute(fields)];
      }
    }
    assert lines[..|lines|] == lines;
  }

  /** `parseCSV`. */
  method LoadCsv(text: string) returns (routes: seq<ManagedRoute>)
    ensures routes == ParseCsv(text)
  {
    var lines := Csv.Lines(text, "\n");
    if |lines| < 2 {
      return [];
    }
    routes := ReadRows(lines[1..]);
  }

  /** Every imported field is trimmed. */
  predicate TrimmedRoute(r: ManagedRoute) {
    && IsTrimmed(r.domain) && IsTrimmed(r.id) && IsTrimmed(r.moduleName) && IsTrimmed(r.title)
    && IsTrimmed(r.url) && IsTrimmed(r.tags) && IsTrimmed(r.description) && IsTrimmed(r.status)
  }

  /** A built route has its fields trimmed. */
  lemma BuildTrimmed(fields: seq<string>)
    requires |fields| >= 8
    ensures TrimmedRoute(BuildRoute(fields))
  {
    var r := BuildRoute(fields);
    assert IsTrimmed(r.domain) && IsTrimmed(r.id) && IsTrimmed(r.moduleName) && IsTrimmed(r.title);
    assert IsTrimmed(r.url) && IsTrimmed(r.tags) && IsTrimmed(r.description) && IsTrimmed(r.status);
  }

  predicate AllTrimmed(routes: seq<ManagedRoute>) {
    forall j :: 0 <= j < |routes| ==> TrimmedRoute(routes[j])
  }

  lemma AppendTrimmed(a: seq<ManagedRoute>, b: seq<ManagedRoute>)
    requires AllTrimmed(a) && AllTrimmed(b)
    ensures AllTrimmed(a + b)
  {
    forall j | 0 <= j < |a + b| ensures TrimmedRoute((a + b)[j]) {
      if j < |a| {
        assert (a + b)[j] == a[j];
      } else {
        assert (a + b)[j] == b[j - |a|];
      }
    }
  }

  lemma RowOfTrimmed(line: string)
    ensures AllTrimmed(RowOf(line))
  {
    var fields := ParseCsvLine(line);
    if |fields| >= 8 {
      BuildTrimmed(fields);
    }
  }

  lemma {:induction false} RowsOfTrimmed(lines: seq<string>)
    ensures AllTrimmed(RowsOf(lines))
    decreases |lines|
  {
    if |lines| > 0 {
      RowsOfTrimmed(lines[..|lines| - 1]);
      RowOfTrimmed(lines[|lines| - 1]);
      AppendTrimmed(RowsOf(lines[..|lines| - 1]), RowOf(lines[|lines| - 1]));
    }
  }

  /** `parseCSV` returns at most one route per data line, each with its
      fields trimmed. */
  lemma ParseCsvShape(text: string)
    ensures |ParseCsv(text)| < |Csv.Lines(text, "\n")|
    ensures forall j :: 0 <= j < |ParseCsv(text)| ==> TrimmedRoute(ParseCsv(text)[j])
  {
    var lines := Csv.Lines(text, "\n");
    if |lines| >= 2 {
      RowsOfTrimmed(lines[1..]);
    }
  }

  // -------------------------------------------------------- round trip

  /** A value with neither a comma, a quote nor a newline: written as it is. */
  predicate Bare(v: string) {
    ',' !in v && '"' !in v && '\n' !in v
  }

  /** A route that survives export and import unchanged: every field is
      trimmed and has no newline, and the cells written as they are hold no
      comma and no quote. Title, tags and description may hold both. */
  predicate Exportable(r: ManagedRoute) {
    && TrimmedRoute(r)
    && Bare(r.domain) && Bare(r.id) && Bare(r.moduleName) && Bare(r.url) && Bare(r.status)
    && '\n' !in r.title && '\n' !in r.tags && '\n' !in r.description
  }

  lemma RowCellsEscaped(r: ManagedRoute)
    requires Exportable(r)
    ensures RowCells(r) == Map(RowValues(r), Escape)
  {
    assert Escape(r.domain) == r.domain && Escape(r.id) == r.id && Escape(r.moduleName) == r.moduleName;
    assert Escape(r.url) == r.url && Escape(r.status) == r.status;
  }

  /** An exportable route's row parses back into the route. */
  lemma RowReadsBack(r: ManagedRoute)
    requires Exportable(r)
    ensures RowOf(RouteRow(r)) == [r]
  {
    RowCellsEscaped(r);
    ParseCsvLineOfJoin(RowValues(r));
    TrimmedBuilds(r);
  }

  /** Building from a trimmed route's own fields gives the route. */
  lemma TrimmedBuilds(r: ManagedRoute)
    requires TrimmedRoute(r)
    ensures BuildRoute(RowValues(r)) == r
  {
    var v := RowValues(r);
    assert v[0] == r.domain && v[1] == r.id && v[2] == r.moduleName && v[3] == r.title;
    assert v[4] == r.url && v[5] == r.tags && v[6] == r.description && v[7] == r.status;
    TrimKeepsTrimmed(r.domain);
    TrimKeepsTrimmed(r.id);
    TrimKeepsTrimmed(r.moduleName);
    TrimKeepsTrimmed(r.title);
    TrimKeepsTrimmed(r.url);
    TrimKeepsTrimmed(r.tags);
    TrimKeepsTrimmed(r.description);
    TrimKeepsTrimmed(r.status);
  }

  lemma RowNoNewline(r: ManagedRoute)
    requires Exportable(r)
    ensures '\n' !in RouteRow(r)
  {
    EscapeNewline(r.title);
    EscapeNewline(r.tags);
    EscapeNewline(r.description);
    ManageRoutesOld.EightFree(r.domain, r.id, r.moduleName, Escape(r.title), r.url, Escape(r.tags),
                              Escape(r.description), r.status, '\n');
    JoinFree(RowCells(r), ",", '\n');
  }

  /** A row ends with the status, or with the comma before an empty one. */
  lemma RowLast(r: ManagedRoute)
    requires Exportable(r)
    ensures |RouteRow(r)| > 0 && !IsWhite(RouteRow(r)[|RouteRow(r)| - 1])
  {
    var cells := RowCells(r);
    JoinSnoc(cells, ",");
    assert RouteRow(r) == Join(cells[..7], ",") + "," + r.status;
  }

  /** Lines that each give one route give those routes, in order. */
  lemma {:induction false} RowsOfEach(lines: seq<string>, routes: seq<ManagedRoute>)
    requires |lines| == |routes|
    requires forall k :: 0 <= k < |lines| ==> RowOf(lines[k]) == [routes[k]]
    ensures RowsOf(lines) == routes
    decreases |lines|
  {
    if |lines| > 0 {
      var n := |lines|;
      RowsOfEach(lines[..n - 1], routes[..n - 1]);
      assert RowsOf(lines) == routes[..n - 1] + [routes[n - 1]];
      Csv.LastSplit(routes);
    }
  }

  /** An export of at least one route is the header and the rows joined
      with newlines. */
  lemma ExportJoin(routes: seq<ManagedRoute>)
    requires |routes| > 0
    ensures RoutesToCsv(routes) == Join([ManageRoutesOld.Header] + Map(routes, RouteRow), "\n")
  {
    var parts := [ManageRoutesOld.Header] + Map(routes, RouteRow);
    assert parts[1..] == Map(routes, RouteRow);
  }

  /** Such an export starts with the header and ends with the last row, so
      trimming leaves it as it is. */
  lemma ExportTrimmed(routes: seq<ManagedRoute>)
    requires |routes| > 0
    requires Exportable(routes[|routes| - 1])
    ensures Trim(RoutesToCsv(routes)) == RoutesToCsv(routes)
  {
    var rows := Map(routes, RouteRow);
    var parts := [ManageRoutesOld.Header] + rows;
    var text := RoutesToCsv(routes);
    ExportJoin(routes);
    ManageRoutesOld.HeaderEnds();
    var lastRow := rows[|rows| - 1];
    RowLast(routes[|routes| - 1]);
    JoinSnoc(parts, "\n");
    assert parts[|parts| - 1] == lastRow;
    var front := Join(parts[..|parts| - 1], "\n") + "\n";
    assert text == front + lastRow;
    assert text[|text| - 1] == lastRow[|lastRow| - 1];
    TrimKeepsTrimmed(text);
  }

  /** The lines of an export of at least one route: the header, then one
      row per route. */
  lemma ExportLines(routes: seq<ManagedRoute>)
    requires |routes| > 0
    requires forall k :: 0 <= k < |routes| ==> Exportable(routes[k])
    ensures Csv.Lines(RoutesToCsv(routes), "\n") == [ManageRoutesOld.Header] + Map(routes, RouteRow)
  {
    var parts := [ManageRoutesOld.Header] + Map(routes, RouteRow);
    ManageRoutesOld.HeaderNoNewline();
    forall k | 0 <= k < |parts| ensures '\n' !in parts[k] {
      if k > 0 {
        RowNoNewline(routes[k - 1]);
      }
    }
    SplitJoin(parts, '\n');
    ExportJoin(routes);
    ExportTrimmed(routes);
  }

  /** An export with no routes is the header and a newline, which imports
      as nothing. */
  lemma ExportNothing()
    ensures ParseCsv(RoutesToCsv([])) == []
  {
    var h := ManageRoutesOld.Header;
    ManageRoutesOld.HeaderNoNewline();
    ManageRoutesOld.HeaderEnds();
    var text := RoutesToCsv([]);
    assert text == h + "\n";
    assert TrimStart(text) == text;
    assert text[..|text| - 1] == h;
    assert TrimEnd(text) == TrimEnd(h);
    TrimKeepsTrimmed(h);
    SplitNoSeparator(h, '\n');
  }

  /** Exporting routes and importing the file gives the same routes back,
      when their fields are trimmed and free of newlines and the cells
      written without quoting hold no comma and no quote. */
  lemma ParseCsvOfRoutesToCsv(routes: seq<ManagedRoute>)
    requires forall k :: 0 <= k < |routes| ==> Exportable(routes[k])
    ensures ParseCsv(RoutesToCsv(routes)) == routes
  {
    if |routes| == 0 {
      ExportNothing();
    } else {
      ExportLines(routes);
      var lines := Csv.Lines(RoutesToCsv(routes), "\n");
      assert lines[1..] == Map(routes, RouteRow);
      var rows := Map(routes, RouteRow);
      forall k | 0 <= k < |rows| ensures RowOf(rows[k]) == [routes[k]] {
        RowReadsBack(routes[k]);
      }
      RowsOfEach(rows, routes);
    }
  }
}
