/**
 * The string primitives the pages rely on, with PHP 8.2 semantics: ASCII-only
 * case mapping (strtolower, strtoupper, stripos), substring search (strpos),
 * trim, empty() on a string, implode, str_replace("`", "``", ...),
 * is_numeric and the "true" set of FILTER_VALIDATE_BOOLEAN.
 * A PHP string is a sequence of bytes; here each char stands for one byte.
 */
module PhpText {
  import opened Wrappers

  /** strtolower on one byte: only A-Z change (PHP 8.2 ignores the locale). */
  function LowerChar(c: char): char {
    if 'A' <= c <= 'Z' then (c as int + 32) as char else c
  }

  /** strtoupper on one byte: only a-z change. */
  function UpperChar(c: char): char {
    if 'a' <= c <= 'z' then (c as int - 32) as char else c
  }

  function ToLower(s: string): string {
    seq(|s|, i requires 0 <= i < |s| => LowerChar(s[i]))
  }

  function ToUpper(s: string): string {
    seq(|s|, i requires 0 <= i < |s| => UpperChar(s[i]))
  }

  /** `needle` occurs in `s` starting at index `i`. */
  predicate OccursAt(s: string, needle: string, i: int) {
    0 <= i && i + |needle| <= |s| && s[i..i + |needle|] == needle
  }

  /** strpos($s, $needle) !== false */
  predicate Contains(s: string, needle: string) {
    exists i | 0 <= i <= |s| - |needle| :: OccursAt(s, needle, i)
  }

  /** A keyword that contains another keyword: every string containing the first contains the second. */
  lemma {:induction false} ContainsWithin(s: string, outer: string, inner: string, at: nat)
    requires OccursAt(outer, inner, at)
    ensures Contains(s, outer) ==> Contains(s, inner)
  {
    if Contains(s, outer) {
      assert Contains(outer, inner);
      ContainsTransitive(s, outer, inner);
    }
  }

  /** A needle with a character the string lacks does not occur in it. */
  lemma {:induction false} MissingCharNotContained(s: string, needle: string, k: nat)
    requires k < |needle| && needle[k] !in s
    ensures !Contains(s, needle)
  {
    forall i | 0 <= i <= |s| - |needle|
      ensures !OccursAt(s, needle, i)
    {
      assert s[i..i + |needle|][k] == s[i + k];
    }
  }

  /** stripos($s, $needle) !== false: ASCII case-insensitive search. */
  predicate ContainsNoCase(s: string, needle: string) {
    Contains(ToLower(s), ToLower(needle))
  }

  /** A substring of a substring is a substring. */
  lemma {:induction false} ContainsTransitive(s: string, mid: string, needle: string)
    requires Contains(s, mid) && Contains(mid, needle)
    ensures Contains(s, needle)
  {
    var i :| 0 <= i <= |s| - |mid| && OccursAt(s, mid, i);
    var j :| 0 <= j <= |mid| - |needle| && OccursAt(mid, needle, j);
    assert s[i..i + |mid|] == mid;
    forall k | 0 <= k < |needle|
      ensures s[i + j + k] == needle[k]
    {
      assert s[i + j + k] == s[i..i + |mid|][j + k];
      assert needle[k] == mid[j..j + |needle|][k];
    }
    assert s[i + j..i + j + |needle|] == needle;
    assert OccursAt(s, needle, i + j);
  }

  /** Strips the characters satisfying `strip` from the front. */
  function TrimStart(s: string, strip: char -> bool): (r: string)
    ensures |r| <= |s|
    ensures r == [] || !strip(r[0])
    decreases |s|
  {
    if |s| > 0 && strip(s[0]) then TrimStart(s[1..], strip) else s
  }

  /** Strips the characters satisfying `strip` from the back. */
  function TrimEnd(s: string, strip: char -> bool): (r: string)
    ensures |r| <= |s|
    ensures r == [] || !strip(r[|r| - 1])
    decreases |s|
  {
    if |s| > 0 && strip(s[|s| - 1]) then TrimEnd(s[..|s| - 1], strip) else s
  }

  /** Strips both ends; what remains neither starts nor ends with a stripped character. */
  function TrimBoth(s: string, strip: char -> bool): (r: string)
    ensures |r| <= |s|
    ensures r == [] || (!strip(r[0]) && !strip(r[|r| - 1]))
  {
    var t := TrimStart(s, strip);
    TrimEndIsPrefix(t, strip);
    TrimEnd(t, strip)
  }

  /** What TrimStart leaves is a suffix of its input. */
  lemma {:induction false} TrimStartIsSuffix(s: string, strip: char -> bool)
    ensures TrimStart(s, strip) == s[|s| - |TrimStart(s, strip)|..]
    decreases |s|
  {
    if |s| > 0 && strip(s[0]) {
      TrimStartIsSuffix(s[1..], strip);
    }
  }

  /** What TrimEnd leaves is a prefix of its input. */
  lemma {:induction false} TrimEndIsPrefix(s: string, strip: char -> bool)
    ensures TrimEnd(s, strip) == s[..|TrimEnd(s, strip)|]
    decreases |s|
  {
    if |s| > 0 && strip(s[|s| - 1]) {
      TrimEndIsPrefix(s[..|s| - 1], strip);
    }
  }

  /** The bytes PHP's trim() removes by default: space, \t, \n, \r, \0 and \x0B. */
  predicate IsTrimChar(c: char) {
    c == ' ' || c == '\t' || c == '\n' || c == '\r' || c == '\0' || c == '\U{0B}'
  }

  /** PHP trim($s) */
  function Trim(s: string): string {
    TrimBoth(s, IsTrimChar)
  }

  /** empty($s) for a string: true exactly for "" and "0". */
  predicate IsEmpty(s: string) {
    s == "" || s == "0"
  }

  /** implode($sep, $parts) */
  function Join(parts: seq<string>, sep: string): string {
    if |parts| == 0 then ""
    else if |parts| == 1 then parts[0]
    else parts[0] + sep + Join(parts[1..], sep)
  }

  /** str_replace("`", "``", $s): the escape for a backtick-quoted MySQL identifier. */
  function DoubleBackticks(s: string): (r: string)
    ensures |r| >= |s|
    ensures '`' !in s ==> r == s
  {
    if s == [] then []
    else (if s[0] == '`' then "``" else [s[0]]) + DoubleBackticks(s[1..])
  }

  /**
   * Reads a backtick-quoted identifier whose opening backtick has already been
   * consumed, the way MySQL does: "``" stands for one backtick and a single
   * backtick closes the identifier. Gives the identifier and the text after it.
   */
  function ReadQuotedBody(s: string): Option<(string, string)>
    decreases |s|
  {
    if s == [] then None
    else if s[0] == '`' then
      if |s| >= 2 && s[1] == '`' then
        match ReadQuotedBody(s[2..])
        case None => None
        case Some(p) => Some(("`" + p.0, p.1))
      else Some(("", s[1..]))
    else
      match ReadQuotedBody(s[1..])
      case None => None
      case Some(p) => Some(([s[0]] + p.0, p.1))
  }

  /**
   * Quoting is sound: whatever the name, "`" + DoubleBackticks(name) + "`" reads
   * back as exactly that name, and the text after the closing backtick is left
   * alone, as long as it does not itself start with a backtick.
   */
  lemma {:induction false} QuotedNameReadsBack(name: string, rest: string)
    requires rest == [] || rest[0] != '`'
    ensures ReadQuotedBody(DoubleBackticks(name) + "`" + rest) == Some((name, rest))
  {
    if name == [] {
      var text := DoubleBackticks(name) + "`" + rest;
      assert text == "`" + rest;
      assert text[1..] == rest;
    } else {
      QuotedNameReadsBack(name[1..], rest);
      var tail := DoubleBackticks(name[1..]) + "`" + rest;
      var head := if name[0] == '`' then "``" else [name[0]];
      assert DoubleBackticks(name) == head + DoubleBackticks(name[1..]);
      assert DoubleBackticks(name) + "`" + rest == head + tail;
      if name[0] == '`' {
        ReadEscapedBacktick(tail, name[1..], rest);
      } else {
        ReadPlainChar(name[0], tail, name[1..], rest);
      }
      assert [name[0]] + name[1..] == name;
    }
  }

  /** A doubled backtick reads as one backtick of the identifier. */
  lemma ReadEscapedBacktick(tail: string, ident: string, after: string)
    requires ReadQuotedBody(tail) == Some((ident, after))
    ensures ReadQuotedBody("``" + tail) == Some(("`" + ident, after))
  {
    var text := "``" + tail;
    assert text[2..] == tail;
  }

  /** Any other character reads as itself. */
  lemma ReadPlainChar(c: char, tail: string, ident: string, after: string)
    requires c != '`' && ReadQuotedBody(tail) == Some((ident, after))
    ensures ReadQuotedBody([c] + tail) == Some(([c] + ident, after))
  {
    var text := [c] + tail;
    assert text[1..] == tail;
  }

  predicate IsDigit(c: char) {
    '0' <= c <= '9'
  }

  /** The whitespace is_numeric accepts around a number: space, \t, \n, \r, \v, \f. */
  predicate IsNumericSpace(c: char) {
    c == ' ' || c == '\t' || c == '\n' || c == '\r' || c == '\U{0B}' || c == '\U{0C}'
  }

  function SkipSpaces(s: string, i: nat): (j: nat)
    requires i <= |s|
    ensures i <= j <= |s|
    decreases |s| - i
  {
    if i < |s| && IsNumericSpace(s[i]) then SkipSpaces(s, i + 1) else i
  }

  function SkipDigits(s: string, i: nat): (j: nat)
    requires i <= |s|
    ensures i <= j <= |s|
    ensures forall k :: i <= k < j ==> IsDigit(s[k])
    decreases |s| - i
  {
    if i < |s| && IsDigit(s[i]) then SkipDigits(s, i + 1) else i
  }

  function SkipSign(s: string, i: nat): (j: nat)
    requires i <= |s|
    ensures i <= j <= |s|
  {
    if i < |s| && (s[i] == '+' || s[i] == '-') then i + 1 else i
  }

  /** The end of an exponent `[eE][+-]?[0-9]+` starting at `i`, or `i` if there is none. */
  function SkipExponent(s: string, i: nat): (j: nat)
    requires i <= |s|
    ensures i <= j <= |s|
  {
    if i < |s| && (s[i] == 'e' || s[i] == 'E') then
      var k := SkipSign(s, i + 1);
      var m := SkipDigits(s, k);
      if m > k then m else i
    else i
  }

  /**
   * is_numeric($s) of PHP 8: optional surrounding whitespace, an optional sign,
   * digits with an optional fraction (at least one digit in all), and an
   * optional exponent.
   */
  predicate IsNumeric(s: string) {
    var a := SkipSign(s, SkipSpaces(s, 0));
    var b := SkipDigits(s, a);
    var hasDot := b < |s| && s[b] == '.';
    var c := if hasDot then SkipDigits(s, b + 1) else b;
    var digits := (b - a) + (if hasDot then c - (b + 1) else 0);
    digits > 0 && SkipSpaces(s, SkipExponent(s, c)) == |s|
  }

  lemma {:induction false} SkipDigitsToEnd(s: string, i: nat)
    requires i <= |s|
    requires forall k :: i <= k < |s| ==> IsDigit(s[k])
    ensures SkipDigits(s, i) == |s|
    decreases |s| - i
  {
    if i < |s| {
      SkipDigitsToEnd(s, i + 1);
    }
  }

  /** Every non-empty string of decimal digits, such as an auto-increment id, is numeric; "" is not. */
  lemma {:induction false} DigitStringsAreNumeric(s: string)
    requires forall k :: 0 <= k < |s| ==> IsDigit(s[k])
    ensures IsNumeric(s) <==> s != ""
  {
    if s != [] {
      assert !IsNumericSpace(s[0]) && !(s[0] == '+' || s[0] == '-');
      SkipDigitsToEnd(s, 0);
    }
  }

  /** is_numeric accepts an exponent and leading whitespace. */
  lemma ExponentAndSpaceAreNumeric()
    ensures IsNumeric("1e3") && IsNumeric(" 12")
  {
    var e := "1e3";
    assert SkipSpaces(e, 0) == 0 && SkipSign(e, 0) == 0;
    assert SkipDigits(e, 1) == 1 && SkipDigits(e, 0) == 1;
    assert SkipDigits(e, 3) == 3 && SkipDigits(e, 2) == 3;
    assert SkipExponent(e, 1) == 3 && SkipSpaces(e, 3) == 3;

    var sp := " 12";
    assert SkipSpaces(sp, 1) == 1 && SkipSpaces(sp, 0) == 1 && SkipSign(sp, 1) == 1;
    assert SkipDigits(sp, 3) == 3 && SkipDigits(sp, 2) == 3 && SkipDigits(sp, 1) == 3;
    assert SkipExponent(sp, 3) == 3 && SkipSpaces(sp, 3) == 3;
  }

  /** is_numeric accepts a sign and a fraction. */
  lemma SignAndFractionAreNumeric()
    ensures IsNumeric("-1") && IsNumeric("1.5")
  {
    var neg := "-1";
    assert SkipSpaces(neg, 0) == 0 && SkipSign(neg, 0) == 1;
    assert SkipDigits(neg, 2) == 2 && SkipDigits(neg, 1) == 2;
    assert SkipExponent(neg, 2) == 2 && SkipSpaces(neg, 2) == 2;

    var frac := "1.5";
    assert SkipSpaces(frac, 0) == 0 && SkipSign(frac, 0) == 0;
    assert SkipDigits(frac, 1) == 1 && SkipDigits(frac, 0) == 1;
    assert SkipDigits(frac, 3) == 3 && SkipDigits(frac, 2) == 3;
    assert SkipExponent(frac, 3) == 3 && SkipSpaces(frac, 3) == 3;
  }

  /** is_numeric of PHP 8 rejects hexadecimal and a space between digits. */
  lemma HexAndGapsAreNotNumeric()
    ensures !IsNumeric("0x1A") && !IsNumeric("1 2")
  {
    var hex := "0x1A";
    assert SkipSpaces(hex, 0) == 0 && SkipSign(hex, 0) == 0;
    assert SkipDigits(hex, 1) == 1 && SkipDigits(hex, 0) == 1;
    assert SkipExponent(hex, 1) == 1 && SkipSpaces(hex, 1) == 1;

    var gap := "1 2";
    assert SkipSpaces(gap, 0) == 0 && SkipSign(gap, 0) == 0;
    assert SkipDigits(gap, 1) == 1 && SkipDigits(gap, 0) == 1;
    assert SkipExponent(gap, 1) == 1;
    assert SkipSpaces(gap, 2) == 2 && SkipSpaces(gap, 1) == 2;
  }

  /** The whitespace FILTER_VALIDATE_BOOLEAN ignores around its input: space, \t, \r, \v, \n. */
  predicate IsFilterSpace(c: char) {
    c == ' ' || c == '\t' || c == '\r' || c == '\U{0B}' || c == '\n'
  }

  /**
   * filter_var($s, FILTER_VALIDATE_BOOLEAN) is true: after trimming, "1", "true",
   * "on" or "yes" in any letter case. Every other string gives false (or null).
   */
  predicate FilterValidatesTrue(s: string) {
    ToLower(TrimBoth(s, IsFilterSpace)) in {"1", "true", "on", "yes"}
  }
}
