/**
 * The JavaScript string built-ins the locale builder relies on:
 * `trim` (used by normalizeHeader and on row keys), `split` on one
 * character followed by `filter(Boolean)` (the dotted-key segments), and
 * the two `replaceAll` calls that normalise line endings in a cell.
 */
module Strings {

  // ---------------------------------------------------------------------
  // String.prototype.trim
  // ---------------------------------------------------------------------

  /** The characters `trim` strips: ECMAScript WhiteSpace and LineTerminator. */
  predicate IsJsWhitespace(c: char) {
    || c == '\t' || c == '\n' || c == '\U{000B}' || c == '\U{000C}' || c == '\r'
    || c == ' ' || c == '\U{00A0}' || c == '\U{1680}'
    || ('\U{2000}' <= c <= '\U{200A}')
    || c == '\U{2028}' || c == '\U{2029}' || c == '\U{202F}' || c == '\U{205F}'
    || c == '\U{3000}' || c == '\U{FEFF}'
  }

  predicate IsBlank(s: string) {
    forall i :: 0 <= i < |s| ==> IsJsWhitespace(s[i])
  }

  /** `s` with its leading whitespace removed. */
  function TrimStart(s: string): string {
    if s != [] && IsJsWhitespace(s[0]) then TrimStart(s[1..]) else s
  }

  /** `s` with its trailing whitespace removed. */
  function TrimEnd(s: string): string {
    if s != [] && IsJsWhitespace(s[|s| - 1]) then TrimEnd(s[..|s| - 1]) else s
  }

  /** `String.prototype.trim`. */
  function Trim(s: string): string {
    TrimEnd(TrimStart(s))
  }

  /** TrimStart removes a blank prefix, and exactly as much as is blank. */
  lemma {:induction false} TrimStartRemovesBlankPrefix(s: string)
    ensures |TrimStart(s)| <= |s| && TrimStart(s) == s[|s| - |TrimStart(s)|..]
    ensures IsBlank(s[..|s| - |TrimStart(s)|])
    ensures TrimStart(s) == [] || !IsJsWhitespace(TrimStart(s)[0])
  {
    if s != [] && IsJsWhitespace(s[0]) {
      TrimStartRemovesBlankPrefix(s[1..]);
      var k := |s| - |TrimStart(s)|;
      assert s[..k] == [s[0]] + s[1..][..k - 1];
    }
  }

  /** TrimEnd removes a blank suffix, and exactly as much as is blank. */
  lemma {:induction false} TrimEndRemovesBlankSuffix(s: string)
    ensures |TrimEnd(s)| <= |s| && TrimEnd(s) == s[..|TrimEnd(s)|]
    ensures IsBlank(s[|TrimEnd(s)|..])
    ensures TrimEnd(s) == [] || !IsJsWhitespace(TrimEnd(s)[|TrimEnd(s)| - 1])
  {
    if s != [] && IsJsWhitespace(s[|s| - 1]) {
      TrimEndRemovesBlankSuffix(s[..|s| - 1]);
      var k := |TrimEnd(s)|;
      assert s[k..] == s[..|s| - 1][k..] + [s[|s| - 1]];
    }
  }

  /**
   * Trim leaves an infix that neither starts nor ends in whitespace (the
   * two lemmas above say only whitespace is cut off around it); it is
   * empty exactly when the string is all whitespace.
   */
  lemma TrimSpec(s: string)
    ensures exists i, j :: 0 <= i <= j <= |s| && Trim(s) == s[i..j]
    ensures Trim(s) == [] || (!IsJsWhitespace(Trim(s)[0]) && !IsJsWhitespace(Trim(s)[|Trim(s)| - 1]))
    ensures Trim(s) == [] <==> IsBlank(s)
  {
    var t := TrimStart(s);
    TrimStartRemovesBlankPrefix(s);
    TrimEndRemovesBlankSuffix(t);
    var r := TrimEnd(t);
    var i := |s| - |t|;
    assert r == s[i..i + |r|];
    if r != [] {
      assert r[0] == t[0];
    } else {
      assert t[|r|..] == t;
      assert s[..|s| - |t|] == s;
    }
  }

  /** Trimming keeps a string that has no surrounding whitespace as it is. */
  lemma TrimKeepsClean(s: string)
    requires s == [] || (!IsJsWhitespace(s[0]) && !IsJsWhitespace(s[|s| - 1]))
    ensures Trim(s) == s
  {
  }

  /** Trimming twice is trimming once. */
  lemma TrimIdempotent(s: string)
    ensures Trim(Trim(s)) == Trim(s)
  {
    TrimSpec(s);
    TrimKeepsClean(Trim(s));
  }

  // ---------------------------------------------------------------------
  // String.prototype.split on a single character, and its inverse join
  // ---------------------------------------------------------------------

  /** `parts.join(sep)`. */
  function Join(parts: seq<string>, sep: char): string
  {
    if |parts| == 0 then ""
    else if |parts| == 1 then parts[0]
    else parts[0] + [sep] + Join(parts[1..], sep)
  }

  /**
   * `s.split(sep)`: the maximal runs between occurrences of `sep`. Like
   * JavaScript it returns at least one piece (`"".split(".")` is `[""]`).
   */
  function Split(s: string, sep: char): (r: seq<string>)
    ensures |r| >= 1
    ensures forall i :: 0 <= i < |r| ==> sep !in r[i]
    ensures Join(r, sep) == s
  {
    if s == [] then [""]
    else
      var rest := Split(s[1..], sep);
      if s[0] == sep then
        assert [sep] + s[1..] == s;
        [""] + rest
      else
        var r := [[s[0]] + rest[0]] + rest[1..];
        assert |rest| > 1 ==> Join(rest, sep) == rest[0] + [sep] + Join(rest[1..], sep);
        assert r[1..] == rest[1..];
        assert [s[0]] + s[1..] == s;
        r
  }

  /** A piece free of the separator, followed by the separator, splits off as one piece. */
  lemma {:induction false} SplitCons(a: string, b: string, sep: char)
    requires sep !in a
    ensures Split(a + [sep] + b, sep) == [a] + Split(b, sep)
  {
    if a == [] {
      assert (a + [sep] + b)[1..] == b;
    } else {
      var s := a + [sep] + b;
      assert s[0] == a[0] && s[1..] == a[1..] + [sep] + b;
      SplitCons(a[1..], b, sep);
      var rest := Split(s[1..], sep);
      assert rest[0] == a[1..] && rest[1..] == Split(b, sep);
      assert [a[0]] + a[1..] == a;
      assert Split(s, sep) == [[a[0]] + rest[0]] + rest[1..];
    }
  }

  /** A string free of the separator is one piece. */
  lemma {:induction false} SplitSingle(a: string, sep: char)
    requires sep !in a
    ensures Split(a, sep) == [a]
  {
    if a != [] {
      SplitSingle(a[1..], sep);
      assert [a[0]] + a[1..] == a;
    }
  }

  /** Splitting undoes joining, when no piece holds the separator. */
  lemma {:induction false} SplitJoin(parts: seq<string>, sep: char)
    requires |parts| >= 1
    requires forall i :: 0 <= i < |parts| ==> sep !in parts[i]
    ensures Split(Join(parts, sep), sep) == parts
  {
    if |parts| == 1 {
      SplitSingle(parts[0], sep);
    } else {
      SplitJoin(parts[1..], sep);
      SplitCons(parts[0], Join(parts[1..], sep), sep);
      assert [parts[0]] + parts[1..] == parts;
    }
  }

  // ---------------------------------------------------------------------
  // The segments of a dotted key: split(".").filter(Boolean)
  // ---------------------------------------------------------------------

  /** `parts.filter(Boolean)` on strings: drops every empty string, keeps order. */
  function NonEmpty(parts: seq<string>): (r: seq<string>)
    ensures |r| <= |parts|
    ensures forall i :: 0 <= i < |r| ==> r[i] != "" && r[i] in parts
  {
    if parts == [] then []
    else if parts[0] == "" then NonEmpty(parts[1..])
    else [parts[0]] + NonEmpty(parts[1..])
  }

  /** Filtering keeps exactly the non-empty pieces, in their order. */
  lemma {:induction false} NonEmptyAppend(a: seq<string>, b: seq<string>)
    ensures NonEmpty(a + b) == NonEmpty(a) + NonEmpty(b)
  {
    if a != [] {
      NonEmptyAppend(a[1..], b);
      assert (a + b)[0] == a[0] && (a + b)[1..] == a[1..] + b;
      var h := if a[0] == "" then [] else [a[0]];
      assert NonEmpty(a) == h + NonEmpty(a[1..]);
      assert NonEmpty(a + b) == h + NonEmpty(a[1..] + b);
      assert h + (NonEmpty(a[1..]) + NonEmpty(b)) == (h + NonEmpty(a[1..])) + NonEmpty(b);
    } else {
      assert a + b == b;
    }
  }

  /** The path a dotted key denotes: its non-empty `.`-separated pieces. */
  function Segments(key: string): (r: seq<string>)
    ensures forall i :: 0 <= i < |r| ==> r[i] != "" && '.' !in r[i]
  {
    NonEmpty(Split(key, '.'))
  }

  /** The key obtained by joining non-empty, dot-free segments denotes exactly them. */
  lemma SegmentsOfJoin(path: seq<string>)
    requires |path| >= 1
    requires forall i :: 0 <= i < |path| ==> path[i] != "" && '.' !in path[i]
    ensures Segments(Join(path, '.')) == path
  {
    SplitJoin(path, '.');
    NonEmptyKeepsAll(path);
  }

  lemma {:induction false} NonEmptyKeepsAll(parts: seq<string>)
    requires forall i :: 0 <= i < |parts| ==> parts[i] != ""
    ensures NonEmpty(parts) == parts
  {
    if parts != [] {
      NonEmptyKeepsAll(parts[1..]);
    }
  }

  /** Empty path segments are ignored: `a..b`, `.a.b` and `a.b` denote the same path. */
  lemma EmptySegmentsIgnored(a: string, b: string)
    requires a != "" && '.' !in a && b != "" && '.' !in b
    ensures Segments(a + ".." + b) == [a, b]
    ensures Segments("." + a + "." + b) == [a, b]
    ensures Segments(a + "." + b) == [a, b]
  {
    assert Join([a, b], '.') == a + "." + b by {
      assert [a, b][1..] == [b];
    }
    assert Join(["", b], '.') == "." + b by {
      assert ["", b][1..] == [b];
    }
    assert Join([a, "", b], '.') == a + ".." + b by {
      assert [a, "", b][1..] == ["", b];
    }
    assert Join(["", a, b], '.') == "." + a + "." + b by {
      assert ["", a, b][1..] == [a, b];
    }
    SplitJoin([a, "", b], '.');
    SplitJoin(["", a, b], '.');
    SplitJoin([a, b], '.');
    assert NonEmpty([b]) == [b];
    assert NonEmpty([a, b]) == [a] + NonEmpty([b]);
    assert NonEmpty([a, "", b]) == [a] + NonEmpty(["", b]);
    assert NonEmpty(["", b]) == NonEmpty([b]);
    assert NonEmpty(["", a, b]) == NonEmpty([a, b]);
  }

  /** A key made only of dots, or empty, denotes the empty path. */
  lemma {:induction false} DotsOnlyHaveNoSegments(key: string)
    requires forall i :: 0 <= i < |key| ==> key[i] == '.'
    ensures Segments(key) == []
  {
    if key != [] {
      DotsOnlyHaveNoSegments(key[1..]);
      assert Split(key, '.') == [""] + Split(key[1..], '.');
    }
  }

  // ---------------------------------------------------------------------
  // Line-ending normalisation of a cell
  // ---------------------------------------------------------------------

  /** `s.replaceAll("\r", "")`. */
  function RemoveCarriageReturns(s: string): (r: string)
    ensures '\r' !in r
    ensures forall c :: c != '\r' ==> (c in r <==> c in s)
  {
    if s == [] then []
    else (if s[0] == '\r' then [] else [s[0]]) + RemoveCarriageReturns(s[1..])
  }

  /** `s.replaceAll("\n", "\\n")`: each line feed becomes a backslash followed by `n`. */
  function EscapeLineFeeds(s: string): (r: string)
    ensures '\n' !in r
    ensures '\r' in r <==> '\r' in s
  {
    if s == [] then []
    else (if s[0] == '\n' then ['\\', 'n'] else [s[0]]) + EscapeLineFeeds(s[1..])
  }

  /** The value stored for a cell: carriage returns dropped, line feeds escaped. */
  function NormalizeCell(s: string): (r: string)
    ensures '\r' !in r && '\n' !in r
  {
    EscapeLineFeeds(RemoveCarriageReturns(s))
  }

  /** Normalisation works character by character, so it distributes over concatenation. */
  lemma {:induction false} NormalizeCellAppend(a: string, b: string)
    ensures NormalizeCell(a + b) == NormalizeCell(a) + NormalizeCell(b)
  {
    RemoveCarriageReturnsAppend(a, b);
    EscapeLineFeedsAppend(RemoveCarriageReturns(a), RemoveCarriageReturns(b));
  }

  lemma {:induction false} RemoveCarriageReturnsAppend(a: string, b: string)
    ensures RemoveCarriageReturns(a + b) == RemoveCarriageReturns(a) + RemoveCarriageReturns(b)
  {
    if a != [] {
      RemoveCarriageReturnsAppend(a[1..], b);
      assert (a + b)[0] == a[0] && (a + b)[1..] == a[1..] + b;
      var h := if a[0] == '\r' then "" else [a[0]];
      assert RemoveCarriageReturns(a) == h + RemoveCarriageReturns(a[1..]);
      assert RemoveCarriageReturns(a + b) == h + RemoveCarriageReturns(a[1..] + b);
      assert h + (RemoveCarriageReturns(a[1..]) + RemoveCarriageReturns(b)) == (h + RemoveCarriageReturns(a[1..])) + RemoveCarriageReturns(b);
    } else {
      assert a + b == b;
    }
  }

  lemma {:induction false} EscapeLineFeedsAppend(a: string, b: string)
    ensures EscapeLineFeeds(a + b) == EscapeLineFeeds(a) + EscapeLineFeeds(b)
  {
    if a != [] {
      EscapeLineFeedsAppend(a[1..], b);
      assert (a + b)[0] == a[0] && (a + b)[1..] == a[1..] + b;
      var h := if a[0] == '\n' then "\\n" else [a[0]];
      assert EscapeLineFeeds(a) == h + EscapeLineFeeds(a[1..]);
      assert EscapeLineFeeds(a + b) == h + EscapeLineFeeds(a[1..] + b);
      assert h + (EscapeLineFeeds(a[1..]) + EscapeLineFeeds(b)) == (h + EscapeLineFeeds(a[1..])) + EscapeLineFeeds(b);
    } else {
      assert a + b == b;
    }
  }

  /**
   * Every character other than CR and LF passes through verbatim, so a cell
   * without line breaks (placeholders such as `{0}`, `%s`, `{{var}}`
   * included) is stored exactly as written.
   */
  lemma {:induction false} NormalizeCellKeepsPlainText(s: string)
    requires '\r' !in s && '\n' !in s
    ensures NormalizeCell(s) == s
  {
    if s != [] {
      NormalizeCellKeepsPlainText(s[1..]);
      assert NormalizeCell(s) == NormalizeCell([s[0]] + s[1..]) by {
        assert [s[0]] + s[1..] == s;
      }
      NormalizeCellAppend([s[0]], s[1..]);
      assert RemoveCarriageReturns([s[0]]) == [s[0]];
      assert EscapeLineFeeds([s[0]]) == [s[0]];
    }
  }

  /** A line break becomes exactly the two characters `\` `n`; a carriage return vanishes. */
  lemma LineBreakEscapes(a: string, b: string)
    ensures NormalizeCell(a + "\r\n" + b) == NormalizeCell(a) + "\\n" + NormalizeCell(b)
    ensures NormalizeCell(a + "\n" + b) == NormalizeCell(a) + "\\n" + NormalizeCell(b)
  {
    NormalizeCellAppend(a + "\r\n", b);
    NormalizeCellAppend(a, "\r\n");
    NormalizeCellAppend(a + "\n", b);
    NormalizeCellAppend(a, "\n");
    assert RemoveCarriageReturns("\r\n") == "\n";
    assert RemoveCarriageReturns("\n") == "\n";
    assert EscapeLineFeeds("\n") == "\\n";
  }

  /** Normalising a stored value again changes nothing. */
  lemma NormalizeCellIdempotent(s: string)
    ensures NormalizeCell(NormalizeCell(s)) == NormalizeCell(s)
  {
    NormalizeCellKeepsPlainText(NormalizeCell(s));
  }
}
