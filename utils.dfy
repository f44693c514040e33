/** scripts/utils.js: text helpers shared by the administration pages, the
    chip selector behind the module and tag inputs, and the CSV reader that
    keeps the tags as one `|`-separated string. */
module Utils {
  import opened Text
  import opened Sorting
  import opened Csv
  import RoutesLoader

  /** An argument that may or may not be a string (`typeof text`). */
  datatype Arg = Str(s: string) | NotString

  /** `removeAccents`: "" for anything but a string, otherwise the text with
      its combining marks removed. */
  function RemoveAccentsOf(a: Arg): (r: string)
    ensures a.NotString? ==> r == ""
    ensures a.Str? ==> |r| <= |a.s| && forall i :: 0 <= i < |r| ==> !IsCombiningMark(r[i])
  {
    match a
    case NotString => ""
    case Str(s) =>
      RemoveAccentsLeavesNoMark(s);
      RemoveAccents(s)
  }

  /** `word.charAt(0).toUpperCase() + word.slice(1).toLowerCase()`. */
  function Capitalize(w: string): (r: string)
    ensures |r| == |w|
  {
    if |w| == 0 then "" else [Upper(w[0])] + LowerStr(w[1..])
  }

  /** `normalizeText`: "" for anything but a string; otherwise the trimmed
      text split on runs of white space, each word capitalized, joined by
      single spaces. A trimmed text that is empty splits into one empty
      word; one that is not splits into exactly its words. */
  function NormalizeText(a: Arg): string {
    match a
    case NotString => ""
    case Str(s) =>
      var t := Trim(s);
      var words := if t == "" then [""] else Words(t);
      Join(Map(words, Capitalize), " ")
  }

  lemma CapitalizeSolid(w: string)
    requires Solid(w)
    ensures Solid(Capitalize(w))
  {
    var r := Capitalize(w);
    forall i | 0 <= i < |r| ensures !IsWhite(r[i]) {
      if i == 0 {
        assert r[0] == Upper(w[0]);
      } else {
        assert r[i] == Lower(w[i]);
      }
    }
  }

  /** Capitalizing twice is capitalizing once. */
  lemma CapitalizeIdempotent(w: string)
    ensures Capitalize(Capitalize(w)) == Capitalize(w)
  {
    if |w| > 0 {
      var r := Capitalize(w);
      assert r[1..] == LowerStr(w[1..]);
      LowerIdempotent(w[1..]);
    }
  }

  lemma {:induction false} SplitWhiteSolid(p: string)
    requires Solid(p)
    ensures SplitWhite(p) == [p]
    decreases |p|
  {
    if |p| > 0 {
      SplitWhiteSolid(p[1..]);
      assert [p[0]] + p[1..] == p;
    }
  }

  lemma {:induction false} SplitWhiteAfter(p: string, t: string)
    requires Solid(p)
    ensures SplitWhite(p + " " + t) == [p] + SplitWhite(t)
    decreases |p|
  {
    var s := p + " " + t;
    if |p| == 0 {
      assert s[1..] == t;
    } else {
      assert s[1..] == p[1..] + " " + t;
      SplitWhiteAfter(p[1..], t);
      assert [p[0]] + p[1..] == p;
    }
  }

  /** Splitting space-joined words on white space gives the words back. */
  lemma {:induction false} SplitWhiteJoin(parts: seq<string>)
    requires |parts| >= 1
    requires forall k :: 0 <= k < |parts| ==> Solid(parts[k])
    ensures SplitWhite(Join(parts, " ")) == parts
    decreases |parts|
  {
    if |parts| == 1 {
      SplitWhiteSolid(parts[0]);
    } else {
      SplitWhiteJoin(parts[1..]);
      SplitWhiteAfter(parts[0], Join(parts[1..], " "));
      assert [parts[0]] + parts[1..] == parts;
    }
  }

  lemma WordsOfJoin(parts: seq<string>)
    requires forall k :: 0 <= k < |parts| ==> parts[k] != "" && Solid(parts[k])
    ensures Words(Join(parts, " ")) == parts
  {
    if |parts| == 0 {
      assert SplitWhite("") == [""];
    } else {
      SplitWhiteJoin(parts);
      NonEmptyAll(parts);
    }
  }

  /** The capitalized words of a trimmed, non-blank text. */
  lemma CapitalizedWords(t: string)
    requires t != "" && IsTrimmed(t)
    ensures var cs := Map(Words(t), Capitalize);
      && |cs| > 0
      && (forall k :: 0 <= k < |cs| ==> cs[k] != "" && Solid(cs[k]))
      && Map(cs, Capitalize) == cs
  {
    WordsAreSolid(t);
    WordsEmptyIffBlank(t);
    var ws := Words(t);
    var cs := Map(ws, Capitalize);
    forall k | 0 <= k < |cs| ensures cs[k] != "" && Solid(cs[k]) {
      CapitalizeSolid(ws[k]);
    }
    forall k | 0 <= k < |cs| ensures Capitalize(cs[k]) == cs[k] {
      CapitalizeIdempotent(ws[k]);
    }
  }

  /** The normalized text is trimmed, and its words are the capitalized
      words of the trimmed input. */
  lemma NormalizeTextWords(s: string)
    ensures IsTrimmed(NormalizeText(Str(s)))
    ensures Words(NormalizeText(Str(s))) == Map(Words(Trim(s)), Capitalize)
  {
    var t := Trim(s);
    if t == "" {
      assert Words(t) == [] by {
        assert SplitWhite(t) == [""];
      }
    } else {
      CapitalizedWords(t);
      var cs := Map(Words(t), Capitalize);
      JoinEnds(cs, " ");
      WordsOfJoin(cs);
    }
  }

  /** Capitalized words joined by single spaces normalize to themselves. */
  lemma NormalizeJoined(cs: seq<string>)
    requires |cs| > 0
    requires forall k :: 0 <= k < |cs| ==> cs[k] != "" && Solid(cs[k])
    requires Map(cs, Capitalize) == cs
    ensures NormalizeText(Str(Join(cs, " "))) == Join(cs, " ")
  {
    var out := Join(cs, " ");
    JoinedTrimmed(cs);
    WordsOfJoin(cs);
    NormalizeFixed(out, cs);
  }

  /** A trimmed, non-blank text whose words are already capitalized
      normalizes to itself. */
  lemma NormalizeFixed(out: string, ws: seq<string>)
    requires out != "" && Trim(out) == out && Words(out) == ws
    requires Map(ws, Capitalize) == ws && Join(ws, " ") == out
    ensures NormalizeText(Str(out)) == out
  {
  }

  /** Solid non-empty words joined by spaces form a trimmed, non-empty
      text. */
  lemma JoinedTrimmed(cs: seq<string>)
    requires |cs| > 0
    requires forall k :: 0 <= k < |cs| ==> cs[k] != "" && Solid(cs[k])
    ensures Join(cs, " ") != "" && IsTrimmed(Join(cs, " "))
  {
    var first := cs[0];
    var last := cs[|cs| - 1];
    JoinEnds(cs, " ");
    assert !IsWhite(first[0]) && !IsWhite(last[|last| - 1]);
  }

  /** Normalizing a normalized text changes nothing (the blur handler may
      run on text already normalized while typing). */
  lemma NormalizeTextIdempotent(a: Arg)
    ensures NormalizeText(Str(NormalizeText(a))) == NormalizeText(a)
  {
    match a
    case NotString =>
      assert Trim("") == "";
    case Str(s) =>
      var t := Trim(s);
      if t == "" {
        assert NormalizeText(a) == "";
        assert Trim("") == "";
      } else {
        CapitalizedWords(t);
        NormalizeJoined(Map(Words(t), Capitalize));
      }
  }

  /** `getCurrentValues`: the trimmed, non-empty pieces of the input between
      commas. */
  function CurrentValues(input: string): (r: seq<string>)
    ensures forall k :: 0 <= k < |r| ==> r[k] != "" && IsTrimmed(r[k]) && ',' !in r[k]
  {
    PiecesShape(input, ',');
    if input == "" then [] else Pieces(input, ',')
  }

  /** The selected set of a multiple selector: the lower-cased values. */
  function LowerSet(vs: seq<string>): set<string> {
    set v | v in vs :: LowerStr(v)
  }

  /** The selected set of a single selector: empty for a blank input,
      otherwise the trimmed, lower-cased input alone. */
  function SingleSelection(input: string): (r: set<string>)
    ensures r == {} <==> Trim(input) == ""
    ensures r != {} ==> r == {LowerStr(Trim(input))}
  {
    var v := LowerStr(Trim(input));
    if v != "" then {v} else {}
  }

  /** The values after `toggleMultipleValue(value)`: every value equal to
      `value` up to case removed when there is one, otherwise `value`
      appended. */
  function Toggled(current: seq<string>, value: string): seq<string> {
    if exists v :: v in current && LowerStr(v) == LowerStr(value) then
      Keep(current, v => LowerStr(v) != LowerStr(value))
    else current + [value]
  }

  /** The input text `toggleMultipleValue` writes. */
  function ToggleInput(input: string, value: string): string {
    Join(Toggled(CurrentValues(input), value), ", ")
  }

  /** The chip selector: the text of its input and the set of selected
      values, lower-cased. The DOM rendering is not modelled. */
  class SmartSelector {
    var input: string
    var selectedValues: set<string>
    const allowMultiple: bool

    constructor(initial: string, multiple: bool)
      ensures input == initial && selectedValues == {} && allowMultiple == multiple
    {
      input := initial;
      selectedValues := {};
      allowMultiple := multiple;
    }

    method SyncMultipleSelection()
      modifies this
      ensures input == old(input)
      ensures selectedValues == LowerSet(CurrentValues(input))
    {
      selectedValues := LowerSet(CurrentValues(input));
    }

    method SyncSingleSelection()
      modifies this
      ensures input == old(input)
      ensures selectedValues == SingleSelection(input)
    {
      var value := LowerStr(Trim(input));
      selectedValues := if value != "" then {value} else {};
    }

    method ToggleMultipleValue(value: string)
      modifies this
      ensures input == ToggleInput(old(input), value)
      ensures selectedValues == LowerSet(CurrentValues(input))
    {
      var currentValues := CurrentValues(input);
      var normalizedValue := LowerStr(value);
      var nextValues;
      if exists v :: v in currentValues && LowerStr(v) == normalizedValue {
        nextValues := Keep(currentValues, v => LowerStr(v) != normalizedValue);
      } else {
        nextValues := currentValues + [value];
      }
      input := Join(nextValues, ", ");
      SyncMultipleSelection();
    }

    method SelectSingleValue(value: string)
      modifies this
      ensures input == value
      ensures selectedValues == SingleSelection(value)
    {
      input := value;
      SyncSingleSelection();
    }

    method SetValue(value: string)
      modifies this
      ensures input == value
      ensures allowMultiple ==> selectedValues == LowerSet(CurrentValues(value))
      ensures !allowMultiple ==> selectedValues == SingleSelection(value)
    {
      input := value;
      if allowMultiple {
        SyncMultipleSelection();
      } else {
        SyncSingleSelection();
      }
    }

    method Destroy()
      modifies this
      ensures input == old(input) && selectedValues == {}
    {
      selectedValues := {};
    }
  }

  /** A non-empty trimmed piece after at most one space trims to itself. */
  lemma TrimAfterSpace(x: string, p: string)
    requires x == "" || x == " "
    requires p != "" && IsTrimmed(p)
    ensures Trim(x + p) == p
  {
    TrimKeepsTrimmed(p);
    if x == " " {
      assert (x + p)[1..] == p;
      assert TrimStart(x + p) == TrimStart(p);
    } else {
      assert x + p == p;
    }
  }

  lemma {:induction false} SplitCommaSpace(x: string, parts: seq<string>)
    requires x == "" || x == " "
    requires |parts| >= 1
    requires forall k :: 0 <= k < |parts| ==> parts[k] != "" && IsTrimmed(parts[k]) && ',' !in parts[k]
    ensures TrimAll(Split(x + Join(parts, ", "), [','])) == parts
    decreases |parts|
  {
    var head := x + parts[0];
    HeadCommaFree(x, parts[0]);
    TrimAfterSpace(x, parts[0]);
    if |parts| == 1 {
      assert x + Join(parts, ", ") == head;
      SplitNoSeparator(head, ',');
      OnePiece(head, parts);
    } else {
      var tail := Join(parts[1..], ", ");
      assert Join(parts, ", ") == parts[0] + ", " + tail;
      var whole := x + Join(parts, ", ");
      Regroup(x, parts[0], tail);
      assert whole == head + [','] + (" " + tail);
      SplitAfterPiece(head, ',', " " + tail);
      CleanTail(parts);
      SplitCommaSpace(" ", parts[1..]);
      Assemble(whole, head, " " + tail, parts);
    }
  }

  lemma OnePiece(s: string, parts: seq<string>)
    requires |parts| == 1 && Split(s, [',']) == [s] && Trim(s) == parts[0]
    ensures TrimAll(Split(s, [','])) == parts
  {
    assert TrimAll([s]) == [Trim(s)];
  }

  /** The trimmed pieces of a text that splits into `head` and the pieces of
      `rest`. */
  lemma Assemble(s: string, head: string, rest: string, parts: seq<string>)
    requires |parts| >= 1
    requires Split(s, [',']) == [head] + Split(rest, [','])
    requires Trim(head) == parts[0] && TrimAll(Split(rest, [','])) == parts[1..]
    ensures TrimAll(Split(s, [','])) == parts
  {
    TrimAllCons(head, Split(rest, [',']));
    LastStep(parts, Trim(head), TrimAll(Split(rest, [','])));
  }

  lemma HeadCommaFree(x: string, p: string)
    requires x == "" || x == " "
    requires ',' !in p
    ensures ',' !in x + p
  {
    var head := x + p;
    assert forall i :: 0 <= i < |head| ==> head[i] == (if i < |x| then x[i] else p[i - |x|]);
  }

  lemma CleanTail(parts: seq<string>)
    requires |parts| >= 1
    requires forall k :: 0 <= k < |parts| ==> parts[k] != "" && IsTrimmed(parts[k]) && ',' !in parts[k]
    ensures forall k :: 0 <= k < |parts[1..]| ==> parts[1..][k] != "" && IsTrimmed(parts[1..][k]) && ',' !in parts[1..][k]
  {
    forall k | 0 <= k < |parts[1..]|
      ensures parts[1..][k] != "" && IsTrimmed(parts[1..][k]) && ',' !in parts[1..][k]
    {
      assert parts[1..][k] == parts[k + 1];
    }
  }

  lemma Regroup(x: string, a: string, t: string)
    ensures x + (a + ", " + t) == (x + a) + [','] + (" " + t)
  {
    assert ", " == [','] + " ";
  }

  lemma TrimAllCons(a: string, rest: seq<string>)
    ensures TrimAll([a] + rest) == [Trim(a)] + TrimAll(rest)
  {
  }

  lemma LastStep(parts: seq<string>, first: string, rest: seq<string>)
    requires |parts| >= 1 && first == parts[0] && rest == parts[1..]
    ensures [first] + rest == parts
  {
  }

  /** Values written back with ", " read back as the same values. */
  lemma CurrentValuesOfJoin(parts: seq<string>)
    requires forall k :: 0 <= k < |parts| ==> parts[k] != "" && IsTrimmed(parts[k]) && ',' !in parts[k]
    ensures CurrentValues(Join(parts, ", ")) == parts
  {
    if |parts| > 0 {
      SplitCommaSpace("", parts);
      assert "" + Join(parts, ", ") == Join(parts, ", ");
      NonEmptyAll(parts);
      JoinEnds(parts, ", ");
    }
  }

  /** When `value` is present, toggling keeps exactly the other values;
      otherwise it appends `value`. */
  lemma ToggledMembers(current: seq<string>, value: string)
    ensures (exists v :: v in current && LowerStr(v) == LowerStr(value)) ==>
      forall v :: v in Toggled(current, value) <==> v in current && LowerStr(v) != LowerStr(value)
    ensures (forall v :: v in current ==> LowerStr(v) != LowerStr(value)) ==>
      Toggled(current, value) == current + [value]
  {
    KeepMembers(current, v => LowerStr(v) != LowerStr(value));
  }

  /** The input written by a toggle reads back as the toggled values, as
      long as an appended value is itself a clean value. */
  lemma ToggleReadsBack(input: string, value: string)
    requires value != "" && IsTrimmed(value) && ',' !in value
    ensures CurrentValues(ToggleInput(input, value)) == Toggled(CurrentValues(input), value)
  {
    var current := CurrentValues(input);
    ToggledMembers(current, value);
    var next := Toggled(current, value);
    forall k | 0 <= k < |next| ensures next[k] != "" && IsTrimmed(next[k]) && ',' !in next[k] {
      if k < |current| || exists v :: v in current && LowerStr(v) == LowerStr(value) {
        assert next[k] in next;
      }
    }
    CurrentValuesOfJoin(next);
  }

  /** Toggling a selected value deselects it (in every spelling) and leaves
      the other values selected; toggling an unselected clean value selects
      it. */
  lemma ToggleSelection(input: string, value: string)
    requires value != "" && IsTrimmed(value) && ',' !in value
    ensures var before := CurrentValues(input);
      var after := LowerSet(CurrentValues(ToggleInput(input, value)));
      && (LowerStr(value) in LowerSet(before) ==>
            LowerStr(value) !in after
            && forall v :: v in before && LowerStr(v) != LowerStr(value) ==> LowerStr(v) in after)
      && (LowerStr(value) !in LowerSet(before) ==> after == LowerSet(before) + {LowerStr(value)})
  {
    var before := CurrentValues(input);
    ToggleReadsBack(input, value);
    ToggledMembers(before, value);
    var next := Toggled(before, value);
    if LowerStr(value) in LowerSet(before) {
      var w :| w in before && LowerStr(w) == LowerStr(value);
      forall v | v in before && LowerStr(v) != LowerStr(value) ensures LowerStr(v) in LowerSet(next) {
        assert v in next;
      }
    } else {
      assert next == before + [value];
    }
  }

  /** The route record of scripts/utils.js: the tags stay one string. */
  datatype TextRoute = TextRoute(domain: string, id: string, moduleName: string, title: string, url: string,
                                 tags: string, description: string, status: string)

  /** The record of a row: `domain`, `id` and `title` must be present; the
      tags cell loses its outer quotes; a missing status reads as "active". */
  function BuildTextRoute(values: seq<string>): (r: Option<TextRoute>)
    ensures r.Some? <==> At(values, 0) != "" && At(values, 1) != "" && At(values, 3) != ""
    ensures r.Some? ==>
      && r.value.domain == At(values, 0) && r.value.id == At(values, 1)
      && r.value.title == At(values, 3) && r.value.status != ""
      && |r.value.tags| <= |At(values, 5)|
  {
    StripQuotesProperties(At(values, 5));
    var route := TextRoute(At(values, 0), At(values, 1), At(values, 2), At(values, 3), At(values, 4),
                           if At(values, 5) != "" then StripQuotes(At(values, 5)) else "",
                           At(values, 6), OrElse(At(values, 7), "active"));
    if route.domain != "" && route.id != "" && route.title != "" then Some(route) else None
  }

  /** `parseCSV`: no routes unless there is a line after the header; every
      data row needs eight fields. */
  function ParseCsv(text: string): seq<TextRoute> {
    var lines := Lines(text, "\n");
    if |lines| <= 1 then [] else Rows(lines[1..], 8, BuildTextRoute)
  }

  /** The loop of `parseCSV`. */
  method LoadCsv(text: string) returns (routes: seq<TextRoute>)
    ensures routes == ParseCsv(text)
  {
    var lines := Lines(text, "\n");
    if |lines| <= 1 {
      return [];
    }
    routes := ParseRows(lines[1..], 8, BuildTextRoute);
  }

  /** The same record with its tag string split the way the route loader
      splits a stored tag string. */
  function AsTagList(r: TextRoute): Route {
    Route(r.domain, r.id, r.moduleName, r.title, r.url, RoutesLoader.NodeTags(RoutesLoader.TagText(r.tags)),
          r.description, r.status)
  }

  lemma BuildersAgree(values: seq<string>)
    ensures BuildRoute(values) == MapOption(BuildTextRoute(values), AsTagList)
  {
    var cell := At(values, 5);
    if cell != "" && StripQuotes(cell) == "" {
      assert Split("", "|") == [""];
    }
  }

  /** This reader and the route loader's read the same text into the same
      routes, once the tag string is split into its non-blank pieces. */
  lemma ParseCsvAgrees(text: string)
    ensures Map(ParseCsv(text), AsTagList) == RoutesLoader.ParseCsv(text)
  {
    forall values ensures BuildRoute(values) == MapOption(BuildTextRoute(values), AsTagList) {
      BuildersAgree(values);
    }
    var lines := Lines(text, "\n");
    if |lines| > 1 {
      RowsMap(lines[1..], 8, BuildTextRoute, BuildRoute, AsTagList);
    }
  }
}
