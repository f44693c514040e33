/** Character and string primitives shared by the whole model: the
    JavaScript notions of white space, case mapping, accent stripping,
    trimming, substring search, splitting and joining, as the navigator's
    scripts use them on `string` values. */
module Text {

  datatype Option<T> = None | Some(value: T)

  /** The characters JavaScript's `trim` removes and its regex class `\s`
      matches: the WhiteSpace and LineTerminator code points. */
  predicate IsWhite(c: char) {
    c == ' ' || c == '\t' || c == '\n' || c == '\r' || c == '\U{000B}' || c == '\U{000C}'
    || c == '\U{00A0}' || c == '\U{1680}' || ('\U{2000}' <= c <= '\U{200A}')
    || c == '\U{2028}' || c == '\U{2029}' || c == '\U{202F}' || c == '\U{205F}'
    || c == '\U{3000}' || c == '\U{FEFF}'
  }

  /** `toLowerCase` / `toUpperCase` on one character (ASCII letters only). */
  function Lower(c: char): char {
    if 'A' <= c <= 'Z' then (c as int + 32) as char else c
  }

  function Upper(c: char): char {
    if 'a' <= c <= 'z' then (c as int - 32) as char else c
  }

  function LowerStr(s: string): (r: string)
    ensures |r| == |s|
  {
    seq(|s|, i requires 0 <= i < |s| => Lower(s[i]))
  }

  function UpperStr(s: string): (r: string)
    ensures |r| == |s|
  {
    seq(|s|, i requires 0 <= i < |s| => Upper(s[i]))
  }

  lemma {:induction false} LowerIdempotent(s: string)
    ensures LowerStr(LowerStr(s)) == LowerStr(s)
  {
    assert forall i :: 0 <= i < |s| ==> Lower(Lower(s[i])) == Lower(s[i]);
  }

  /** The combining diacritical marks U+0300..U+036F that `removeAccents`
      deletes after Unicode NFD decomposition. */
  predicate IsCombiningMark(c: char) {
    '\U{0300}' <= c <= '\U{036F}'
  }

  /** `removeAccents` after decomposition: every combining mark deleted. */
  function RemoveAccents(s: string): (r: string)
    ensures |r| <= |s|
    decreases |s|
  {
    if |s| == 0 then ""
    else (if IsCombiningMark(s[0]) then "" else [s[0]]) + RemoveAccents(s[1..])
  }

  lemma {:induction false} RemoveAccentsLeavesNoMark(s: string)
    ensures forall i :: 0 <= i < |RemoveAccents(s)| ==> !IsCombiningMark(RemoveAccents(s)[i])
    decreases |s|
  {
    if |s| > 0 {
      RemoveAccentsLeavesNoMark(s[1..]);
    }
  }

  lemma {:induction false} RemoveAccentsKeepsPlain(s: string)
    requires forall i :: 0 <= i < |s| ==> !IsCombiningMark(s[i])
    ensures RemoveAccents(s) == s
    decreases |s|
  {
    if |s| > 0 {
      RemoveAccentsKeepsPlain(s[1..]);
      assert s == [s[0]] + s[1..];
    }
  }

  /** Removing accents a second time changes nothing. */
  lemma RemoveAccentsIdempotent(s: string)
    ensures RemoveAccents(RemoveAccents(s)) == RemoveAccents(s)
  {
    RemoveAccentsLeavesNoMark(s);
    RemoveAccentsKeepsPlain(RemoveAccents(s));
  }

  function TrimStart(s: string): (r: string)
    ensures |r| <= |s| && r == s[|s| - |r|..]
    ensures |r| > 0 ==> !IsWhite(r[0])
    decreases |s|
  {
    if |s| > 0 && IsWhite(s[0]) then TrimStart(s[1..]) else s
  }

  function TrimEnd(s: string): (r: string)
    ensures |r| <= |s| && r == s[..|r|]
    ensures |r| > 0 ==> !IsWhite(r[|r| - 1])
    decreases |s|
  {
    if |s| > 0 && IsWhite(s[|s| - 1]) then TrimEnd(s[..|s| - 1]) else s
  }

  lemma {:induction false} TrimEndKeepsFirst(s: string)
    requires |s| > 0 && !IsWhite(s[0])
    ensures |TrimEnd(s)| > 0
    decreases |s|
  {
    if |s| > 1 && IsWhite(s[|s| - 1]) {
      TrimEndKeepsFirst(s[..|s| - 1]);
    }
  }

  /** `String.prototype.trim`. */
  function Trim(s: string): (r: string)
    ensures |r| <= |s|
    ensures IsTrimmed(r)
  {
    var a := TrimStart(s);
    var r := TrimEnd(a);
    assert |r| > 0 ==> r[0] == a[0];
    r
  }

  /** `trim` removes white space at the two ends and nothing else: its
      result is a stretch of the text with only white space before and
      after it. */
  lemma {:induction false} TrimRemovesOnlyEnds(s: string)
    ensures exists i :: WhiteAround(s, Trim(s), i)
  {
    assert Trim(s) == TrimEnd(TrimStart(s));
    TrimParts(s);
  }

  /** `TrimStart` drops only white space. */
  lemma {:induction false} TrimStartDropsWhite(s: string)
    ensures forall k :: 0 <= k < |s| - |TrimStart(s)| ==> IsWhite(s[k])
    decreases |s|
  {
    if |s| > 0 && IsWhite(s[0]) {
      TrimStartDropsWhite(s[1..]);
      forall k | 1 <= k < |s| - |TrimStart(s)| ensures IsWhite(s[k]) {
        assert s[k] == s[1..][k - 1];
      }
    }
  }

  /** `TrimEnd` drops only white space. */
  lemma {:induction false} TrimEndDropsWhite(s: string)
    ensures forall k :: |TrimEnd(s)| <= k < |s| ==> IsWhite(s[k])
    decreases |s|
  {
    if |s| > 0 && IsWhite(s[|s| - 1]) {
      TrimEndDropsWhite(s[..|s| - 1]);
      forall k | |TrimEnd(s)| <= k < |s| - 1 ensures IsWhite(s[k]) {
        assert s[k] == s[..|s| - 1][k];
      }
    }
  }

  /** Trimming the start and then the end leaves a stretch of the text
      with only white space around it. */
  lemma {:induction false} TrimParts(s: string)
    ensures WhiteAround(s, TrimEnd(TrimStart(s)), |s| - |TrimStart(s)|)
  {
    TrimStretch(s);
    TrimStartDropsWhite(s);
    TrimTailWhite(s);
  }

  /** Trimming both ends leaves the stretch after the white start. */
  lemma {:induction false} TrimStretch(s: string)
    ensures var a := TrimStart(s); var r := TrimEnd(a); var i := |s| - |a|;
      r == s[i..i + |r|]
  {
    var a := TrimStart(s);
    var r := TrimEnd(a);
    var i := |s| - |a|;
    assert a == s[i..] && r == a[..|r|];
  }

  /** Everything after that stretch is white. */
  lemma {:induction false} TrimTailWhite(s: string)
    ensures var a := TrimStart(s); var r := TrimEnd(a); var i := |s| - |a|;
      forall k :: i + |r| <= k < |s| ==> IsWhite(s[k])
  {
    var a := TrimStart(s);
    var r := TrimEnd(a);
    var i := |s| - |a|;
    TrimEndDropsWhite(a);
    assert a == s[i..];
    forall k | i + |r| <= k < |s| ensures IsWhite(s[k]) {
      assert a[k - i] == s[k];
    }
  }

  /** `r` is the stretch of `s` at `i`, with only white space before and
      after it. */
  predicate WhiteAround(s: string, r: string, i: int) {
    && 0 <= i <= |s| - |r| && r == s[i..i + |r|]
    && (forall k :: 0 <= k < i ==> IsWhite(s[k]))
    && (forall k :: i + |r| <= k < |s| ==> IsWhite(s[k]))
  }

  /** A string that starts with a non-white character does not trim to "". */
  lemma TrimNotEmpty(s: string)
    requires |s| > 0 && !IsWhite(s[0])
    ensures Trim(s) != ""
  {
    TrimEndKeepsFirst(s);
  }

  predicate IsTrimmed(s: string) {
    |s| == 0 || (!IsWhite(s[0]) && !IsWhite(s[|s| - 1]))
  }

  lemma TrimKeepsTrimmed(s: string)
    requires IsTrimmed(s)
    ensures Trim(s) == s
  {
  }

  /** A string with no white space at all is its own trim. */
  lemma TrimKeepsSolid(s: string)
    requires forall i :: 0 <= i < |s| ==> !IsWhite(s[i])
    ensures Trim(s) == s
  {
  }

  predicate OccursAt(s: string, t: string, i: int) {
    0 <= i && i + |t| <= |s| && s[i..i + |t|] == t
  }

  /** `s.includes(t)`: `t` occurs at some position of `s`. */
  predicate Contains(s: string, t: string)
    decreases |s|
  {
    StartsWith(s, t) || (|s| > 0 && Contains(s[1..], t))
  }

  /** `s.startsWith(t)`. */
  predicate StartsWith(s: string, t: string) {
    |t| <= |s| && s[..|t|] == t
  }

  /** Containment means an occurrence at some position. */
  lemma {:induction false} ContainsIff(s: string, t: string)
    ensures Contains(s, t) <==> exists i :: 0 <= i <= |s| && OccursAt(s, t, i)
    decreases |s|
  {
    if |s| > 0 {
      ContainsIff(s[1..], t);
      if exists i :: 0 <= i <= |s[1..]| && OccursAt(s[1..], t, i) {
        var i :| 0 <= i <= |s[1..]| && OccursAt(s[1..], t, i);
        assert s[i + 1..i + 1 + |t|] == s[1..][i..i + |t|];
        assert OccursAt(s, t, i + 1);
      }
      if exists i :: 0 <= i <= |s| && OccursAt(s, t, i) {
        var i :| 0 <= i <= |s| && OccursAt(s, t, i);
        if i > 0 {
          assert s[1..][i - 1..i - 1 + |t|] == s[i..i + |t|];
          assert OccursAt(s[1..], t, i - 1);
        } else {
          assert s[..|t|] == s[0..|t|];
        }
      }
      if StartsWith(s, t) {
        assert OccursAt(s, t, 0);
      }
    } else if |t| == 0 {
      assert OccursAt(s, t, 0);
    }
  }

  /** A one-character string is contained exactly when the character
      occurs. */
  lemma ContainsChar(s: string, c: char)
    ensures Contains(s, [c]) <==> c in s
  {
    ContainsIff(s, [c]);
    if c in s {
      var i :| 0 <= i < |s| && s[i] == c;
      assert OccursAt(s, [c], i);
    }
    if Contains(s, [c]) {
      var i :| 0 <= i <= |s| && OccursAt(s, [c], i);
      assert s[i..i + 1] == [c];
      assert s[i] == c;
    }
  }

  /** `s.split(sep)` for a non-empty separator: the pieces between the
      left-to-right, non-overlapping occurrences of `sep`. */
  function Split(s: string, sep: string): (parts: seq<string>)
    requires |sep| > 0
    ensures |parts| >= 1
    decreases |s|
  {
    if |s| < |sep| then [s]
    else if s[..|sep|] == sep then [""] + Split(s[|sep|..], sep)
    else
      var rest := Split(s[1..], sep);
      [[s[0]] + rest[0]] + rest[1..]
  }

  /** `parts.join(sep)`. */
  function Join(parts: seq<string>, sep: string): string
    decreases |parts|
  {
    if |parts| == 0 then ""
    else if |parts| == 1 then parts[0]
    else parts[0] + sep + Join(parts[1..], sep)
  }

  /** The last piece of a join comes after the last separator. */
  lemma {:induction false} JoinSnoc(parts: seq<string>, sep: string)
    requires |parts| >= 2
    ensures Join(parts, sep) == Join(parts[..|parts| - 1], sep) + sep + parts[|parts| - 1]
    decreases |parts|
  {
    if |parts| > 2 {
      JoinSnoc(parts[1..], sep);
      assert parts[1..][..|parts| - 2] == parts[..|parts| - 1][1..];
    }
  }

  /** A join begins with the first piece and ends with the last one. */
  lemma JoinEnds(parts: seq<string>, sep: string)
    requires |parts| >= 1 && parts[0] != "" && parts[|parts| - 1] != ""
    ensures |Join(parts, sep)| > 0
    ensures Join(parts, sep)[0] == parts[0][0]
    ensures Join(parts, sep)[|Join(parts, sep)| - 1] == parts[|parts| - 1][|parts[|parts| - 1]| - 1]
  {
    if |parts| >= 2 {
      JoinSnoc(parts, sep);
    }
  }

  /** A character in neither the pieces nor the separator is not in the join. */
  lemma {:induction false} JoinFree(parts: seq<string>, sep: string, c: char)
    requires c !in sep
    requires forall k :: 0 <= k < |parts| ==> c !in parts[k]
    ensures c !in Join(parts, sep)
    decreases |parts|
  {
    if |parts| > 1 {
      JoinFree(parts[1..], sep, c);
    }
  }

  lemma {:induction false} SplitNoSeparator(s: string, c: char)
    requires c !in s
    ensures Split(s, [c]) == [s]
    decreases |s|
  {
    if |s| >= 1 {
      SplitNoSeparator(s[1..], c);
      assert [s[0]] + s[1..] == s;
    }
  }

  lemma {:induction false} SplitAfterPiece(p: string, c: char, t: string)
    requires c !in p
    ensures Split(p + [c] + t, [c]) == [p] + Split(t, [c])
    decreases |p|
  {
    var s := p + [c] + t;
    if |p| == 0 {
      assert s[..1] == [c] && s[1..] == t;
    } else {
      assert s[1..] == p[1..] + [c] + t;
      SplitAfterPiece(p[1..], c, t);
      assert [p[0]] + p[1..] == p;
    }
  }

  /** Splitting a joined list on a one-character separator that occurs in
      none of the pieces gives the pieces back. */
  lemma {:induction false} SplitJoin(parts: seq<string>, c: char)
    requires |parts| >= 1
    requires forall k :: 0 <= k < |parts| ==> c !in parts[k]
    ensures Split(Join(parts, [c]), [c]) == parts
    decreases |parts|
  {
    if |parts| == 1 {
      SplitNoSeparator(parts[0], c);
    } else {
      SplitJoin(parts[1..], c);
      SplitAfterPiece(parts[0], c, Join(parts[1..], [c]));
      assert [parts[0]] + parts[1..] == parts;
    }
  }

  /** No piece of a split on `c` contains `c`. */
  lemma {:induction false} SplitPiecesFree(s: string, c: char)
    ensures forall k :: 0 <= k < |Split(s, [c])| ==> c !in Split(s, [c])[k]
    decreases |s|
  {
    if |s| >= 1 {
      SplitPiecesFree(s[1..], c);
      if s[..1] != [c] {
        assert s[0] != c;
      }
    }
  }

  /** Trimming only removes characters. */
  lemma TrimFree(s: string, c: char)
    requires c !in s
    ensures c !in Trim(s)
  {
    var a := TrimStart(s);
    assert forall i :: 0 <= i < |a| ==> a[i] == s[|s| - |a| + i];
    var r := TrimEnd(a);
    assert forall i :: 0 <= i < |r| ==> r[i] == a[i];
  }

  /** `.map(piece => piece.trim())`. */
  function TrimAll(parts: seq<string>): (r: seq<string>)
    ensures |r| == |parts| && forall k :: 0 <= k < |parts| ==> r[k] == Trim(parts[k])
  {
    seq(|parts|, k requires 0 <= k < |parts| => Trim(parts[k]))
  }

  /** `s.split(c).map(p => p.trim()).filter(Boolean)`: the trimmed,
      non-empty pieces between the occurrences of `c`. */
  function Pieces(s: string, c: char): seq<string> {
    NonEmpty(TrimAll(Split(s, [c])))
  }

  /** Filtering a list whose elements are all non-empty keeps it whole. */
  lemma {:induction false} NonEmptyAll(parts: seq<string>)
    requires forall k :: 0 <= k < |parts| ==> parts[k] != ""
    ensures NonEmpty(parts) == parts
    decreases |parts|
  {
    if |parts| > 0 {
      NonEmptyAll(parts[1..]);
      assert [parts[0]] + parts[1..] == parts;
    }
  }

  /** Every element `NonEmpty` keeps comes from its input. */
  lemma {:induction false} NonEmptyFrom(parts: seq<string>)
    ensures forall k :: 0 <= k < |NonEmpty(parts)| ==> NonEmpty(parts)[k] in parts
    decreases |parts|
  {
    if |parts| > 0 {
      NonEmptyFrom(parts[1..]);
      forall k | 0 <= k < |NonEmpty(parts)| ensures NonEmpty(parts)[k] in parts {
        var r := NonEmpty(parts[1..]);
        if parts[0] != "" && k > 0 {
          assert NonEmpty(parts)[k] == r[k - 1];
        } else if parts[0] == "" {
          assert NonEmpty(parts)[k] == r[k];
        }
      }
    }
  }

  /** Each piece is non-empty, trimmed and free of the separator. */
  lemma PiecesShape(s: string, c: char)
    ensures forall k :: 0 <= k < |Pieces(s, c)| ==>
      Pieces(s, c)[k] != "" && IsTrimmed(Pieces(s, c)[k]) && c !in Pieces(s, c)[k]
  {
    var split := Split(s, [c]);
    SplitPiecesFree(s, c);
    forall k | 0 <= k < |split| ensures c !in Trim(split[k]) {
      TrimFree(split[k], c);
    }
    NonEmptyFrom(TrimAll(split));
  }

  /** Joining non-empty, trimmed, separator-free pieces with the separator
      and splitting them again gives the pieces back. */
  lemma {:induction false} PiecesOfJoin(parts: seq<string>, c: char)
    requires forall k :: 0 <= k < |parts| ==> parts[k] != "" && IsTrimmed(parts[k]) && c !in parts[k]
    ensures Pieces(Join(parts, [c]), c) == parts
  {
    if |parts| == 0 {
      PiecesOfEmpty(c);
    } else {
      PiecesOfJoinNonEmpty(parts, c);
    }
  }

  lemma {:induction false} PiecesOfJoinNonEmpty(parts: seq<string>, c: char)
    requires |parts| > 0
    requires forall k :: 0 <= k < |parts| ==> parts[k] != "" && IsTrimmed(parts[k]) && c !in parts[k]
    ensures Pieces(Join(parts, [c]), c) == parts
  {
    SplitJoin(parts, c);
    TrimAllTrimmed(parts);
    NonEmptyAll(parts);
  }

  lemma PiecesOfEmpty(c: char)
    ensures Pieces(Join([], [c]), c) == []
  {
    assert Split("", [c]) == [""];
    assert Trim("") == "";
  }

  /** A character missing from a string is missing from its pieces. */
  lemma PiecesAvoid(s: string, c: char, x: char)
    requires x !in s
    ensures forall k :: 0 <= k < |Pieces(s, c)| ==> x !in Pieces(s, c)[k]
  {
    var split := Split(s, [c]);
    SplitAvoid(s, [c], x);
    forall k | 0 <= k < |split| ensures x !in Trim(split[k]) {
      TrimFree(split[k], x);
    }
    NonEmptyFrom(TrimAll(split));
  }

  lemma {:induction false} SplitAvoid(s: string, sep: string, x: char)
    requires |sep| > 0 && x !in s
    ensures forall k :: 0 <= k < |Split(s, sep)| ==> x !in Split(s, sep)[k]
    decreases |s|
  {
    if |s| >= |sep| {
      SplitAvoid(s[1..], sep, x);
      if s[..|sep|] == sep {
        SplitAvoid(s[|sep|..], sep, x);
      }
    }
  }

  lemma TrimAllTrimmed(parts: seq<string>)
    requires forall k :: 0 <= k < |parts| ==> IsTrimmed(parts[k])
    ensures TrimAll(parts) == parts
  {
    forall k | 0 <= k < |parts| ensures Trim(parts[k]) == parts[k] {
      TrimKeepsTrimmed(parts[k]);
    }
  }

  /** `s.split(/\s/)`: the pieces between single white-space characters. */
  function SplitWhite(s: string): (parts: seq<string>)
    ensures |parts| >= 1
    decreases |s|
  {
    if |s| == 0 then [""]
    else
      var rest := SplitWhite(s[1..]);
      if IsWhite(s[0]) then [""] + rest else [[s[0]] + rest[0]] + rest[1..]
  }

  /** `.filter(Boolean)` on a list of strings. */
  function NonEmpty(parts: seq<string>): (r: seq<string>)
    ensures |r| <= |parts|
    ensures forall k :: 0 <= k < |r| ==> r[k] != ""
    decreases |parts|
  {
    if |parts| == 0 then []
    else (if parts[0] == "" then [] else [parts[0]]) + NonEmpty(parts[1..])
  }

  /** `s.split(/\s+/).filter(Boolean)`: the maximal runs of non-white
      characters. Splitting on runs and dropping the empty pieces is the same
      as splitting on every white character and dropping the empty pieces. */
  function Words(s: string): seq<string> {
    NonEmpty(SplitWhite(s))
  }

  /** Nothing but white space (or nothing at all). */
  predicate Blank(s: string) {
    forall i :: 0 <= i < |s| ==> IsWhite(s[i])
  }

  predicate Solid(w: string) {
    forall i :: 0 <= i < |w| ==> !IsWhite(w[i])
  }

  lemma {:induction false} SplitWhitePiecesSolid(s: string)
    ensures forall k :: 0 <= k < |SplitWhite(s)| ==> Solid(SplitWhite(s)[k])
    decreases |s|
  {
    if |s| > 0 {
      SplitWhitePiecesSolid(s[1..]);
    }
  }

  lemma {:induction false} NonEmptyKeeps(parts: seq<string>)
    requires forall k :: 0 <= k < |parts| ==> Solid(parts[k])
    ensures forall k :: 0 <= k < |NonEmpty(parts)| ==> Solid(NonEmpty(parts)[k])
    ensures NonEmpty(parts) == [] <==> forall k :: 0 <= k < |parts| ==> parts[k] == ""
    decreases |parts|
  {
    if |parts| > 0 {
      NonEmptyKeeps(parts[1..]);
      if parts[0] == "" {
        assert forall k :: 1 <= k < |parts| ==> parts[k] == parts[1..][k - 1];
      }
    }
  }

  /** Every word is non-empty and free of white space. */
  lemma WordsAreSolid(s: string)
    ensures forall k :: 0 <= k < |Words(s)| ==> Words(s)[k] != "" && Solid(Words(s)[k])
  {
    SplitWhitePiecesSolid(s);
    NonEmptyKeeps(SplitWhite(s));
  }

  /** A string has no words exactly when it is all white space. */
  lemma {:induction false} WordsEmptyIffBlank(s: string)
    ensures Words(s) == [] <==> Blank(s)
    decreases |s|
  {
    SplitWhitePiecesSolid(s);
    NonEmptyKeeps(SplitWhite(s));
    if |s| > 0 {
      WordsEmptyIffBlank(s[1..]);
      SplitWhitePiecesSolid(s[1..]);
      NonEmptyKeeps(SplitWhite(s[1..]));
      var rest := SplitWhite(s[1..]);
      if !IsWhite(s[0]) {
        assert SplitWhite(s)[0] == [s[0]] + rest[0];
      } else {
        assert SplitWhite(s) == [""] + rest;
        assert forall k :: 1 <= k < |SplitWhite(s)| ==> SplitWhite(s)[k] == rest[k - 1];
        assert forall i :: 1 <= i < |s| ==> s[i] == s[1..][i - 1];
      }
    }
  }

  /** A decimal numeral: `${n}` for a non-negative integer. */
  function NatToString(n: nat): (r: string)
    ensures |r| >= 1
    ensures forall i :: 0 <= i < |r| ==> '0' <= r[i] <= '9'
  {
    if n < 10 then [Digit(n)] else NatToString(n / 10) + [Digit(n % 10)]
  }

  function Digit(d: nat): (c: char)
    requires d < 10
    ensures '0' <= c <= '9'
  {
    ('0' as int + d) as char
  }

  /** Comparison by character code, the order of `Array.prototype.sort`
      without a comparator: -1, 0 or 1. */
  function CompareStrings(a: string, b: string): (r: int)
    ensures -1 <= r <= 1
    ensures r == 0 <==> a == b
    decreases |a|
  {
    if |a| == 0 then (if |b| == 0 then 0 else -1)
    else if |b| == 0 then 1
    else if a[0] < b[0] then -1
    else if a[0] > b[0] then 1
    else
      var r := CompareStrings(a[1..], b[1..]);
      assert a == [a[0]] + a[1..] && b == [b[0]] + b[1..];
      r
  }

  /** Code-unit order is transitive. */
  lemma {:induction false} CompareStringsTransitive(a: string, b: string, c: string)
    requires CompareStrings(a, b) < 0 && CompareStrings(b, c) < 0
    ensures CompareStrings(a, c) < 0
    decreases |a|
  {
    if |a| > 0 && |b| > 0 && |c| > 0 && a[0] == b[0] && b[0] == c[0] {
      CompareStringsTransitive(a[1..], b[1..], c[1..]);
    }
  }

  /** Swapping the operands flips the comparison. */
  lemma {:induction false} CompareStringsFlip(a: string, b: string)
    ensures CompareStrings(b, a) == -CompareStrings(a, b)
    decreases |a|
  {
    if |a| > 0 && |b| > 0 && a[0] == b[0] {
      CompareStringsFlip(a[1..], b[1..]);
    }
  }

  /** Stands in for `a.localeCompare(b, "es", { sensitivity: "base" })`:
      case and accents are ignored, the rest compares by character code.
      No property of the model depends on this order. */
  function Collate(a: string, b: string): int {
    CompareStrings(RemoveAccents(LowerStr(a)), RemoveAccents(LowerStr(b)))
  }
}
