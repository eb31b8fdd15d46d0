/** The string primitives of the browser that the query engine and the exporter
    rely on: lower-casing, trimming, substring search, first-occurrence replace,
    code-point ordering of strings and decimal rendering of numbers. */
module Text {

  datatype Option<T> = None | Some(value: T)

  // ---------------------------------------------------------------------------
  // String.prototype.toLowerCase, on the ASCII letters

  function LowerChar(c: char): char {
    if 'A' <= c <= 'Z' then (c as int + 32) as char else c
  }

  predicate IsUpper(c: char) { 'A' <= c <= 'Z' }

  function ToLower(s: string): (r: string)
    ensures |r| == |s|
    ensures forall i :: 0 <= i < |s| ==> r[i] == LowerChar(s[i])
  {
    seq(|s|, i requires 0 <= i < |s| => LowerChar(s[i]))
  }

  /** Lower-casing leaves no upper-case letter behind, and doing it twice
      is the same as doing it once. */
  lemma ToLowerIdempotent(s: string)
    ensures forall i :: 0 <= i < |s| ==> !IsUpper(ToLower(s)[i])
    ensures ToLower(ToLower(s)) == ToLower(s)
  {
  }

  // ---------------------------------------------------------------------------
  // String.prototype.trim

  /** The ECMAScript WhiteSpace and LineTerminator code points. */
  predicate IsJsSpace(c: char) {
    || c == '\t' || c == '\n' || c == '\U{000B}' || c == '\U{000C}' || c == '\r'
    || c == ' ' || c == '\U{00A0}' || c == '\U{1680}'
    || ('\U{2000}' <= c <= '\U{200A}')
    || c == '\U{2028}' || c == '\U{2029}' || c == '\U{202F}' || c == '\U{205F}'
    || c == '\U{3000}' || c == '\U{FEFF}'
  }

  ghost predicate AllSpace(s: string) {
    forall i :: 0 <= i < |s| ==> IsJsSpace(s[i])
  }

  /** Number of white-space characters at the start of `s`. */
  function LeadingSpaces(s: string): (n: nat)
    ensures n <= |s|
    ensures AllSpace(s[..n])
    ensures n < |s| ==> !IsJsSpace(s[n])
    ensures AllSpace(s[n..]) ==> n == |s|
  {
    if s != [] && IsJsSpace(s[0]) then
      var n := 1 + LeadingSpaces(s[1..]);
      assert s[..n] == [s[0]] + s[1..][..n - 1];
      n
    else 0
  }

  /** Number of white-space characters at the end of `s`. */
  function TrailingSpaces(s: string): (n: nat)
    ensures n <= |s|
    ensures AllSpace(s[|s| - n..])
    ensures n < |s| ==> !IsJsSpace(s[|s| - 1 - n])
  {
    if s != [] && IsJsSpace(s[|s| - 1]) then
      var n := 1 + TrailingSpaces(s[..|s| - 1]);
      assert s[|s| - n..] == s[..|s| - 1][|s| - n..] + [s[|s| - 1]];
      n
    else 0
  }

  /** Index of the first character kept by `Trim`. */
  function TrimStartIndex(s: string): nat { LeadingSpaces(s) }

  /** Index just past the last character kept by `Trim`. */
  function TrimEndIndex(s: string): nat {
    |s| - TrailingSpaces(s[LeadingSpaces(s)..])
  }

  function Trim(s: string): string {
    var i := LeadingSpaces(s);
    s[i..|s| - TrailingSpaces(s[i..])]
  }

  /** `Trim(s)` is the slice of `s` left after cutting white space from both
      ends: what was cut is white space, and what is left neither starts nor
      ends with it. */
  lemma TrimSpec(s: string)
    ensures 0 <= TrimStartIndex(s) <= TrimEndIndex(s) <= |s|
    ensures Trim(s) == s[TrimStartIndex(s)..TrimEndIndex(s)]
    ensures AllSpace(s[..TrimStartIndex(s)]) && AllSpace(s[TrimEndIndex(s)..])
    ensures Trim(s) != [] ==> !IsJsSpace(Trim(s)[0]) && !IsJsSpace(Trim(s)[|Trim(s)| - 1])
  {
    var i := LeadingSpaces(s);
    var t := s[i..];
    var n := TrailingSpaces(t);
    assert s[|s| - n..] == t[|t| - n..];
    var r := Trim(s);
    assert r == t[..|t| - n];
    if r != [] {
      assert r[0] == s[i];
      assert r[|r| - 1] == t[|t| - 1 - n];
    }
  }

  /** A trimmed string is empty exactly when the input was all white space. */
  lemma TrimEmptyIff(s: string)
    ensures Trim(s) == [] <==> AllSpace(s)
  {
    if Trim(s) == [] {
      TrimEmptyAllSpace(s);
    }
    if AllSpace(s) {
      AllSpaceTrimEmpty(s);
    }
  }

  lemma TrimEmptyAllSpace(s: string)
    requires Trim(s) == []
    ensures AllSpace(s)
  {
    var i := LeadingSpaces(s);
    var t := s[i..];
    var n := TrailingSpaces(t);
    assert |t| - n == 0;
    assert t[|t| - n..] == t;
    assert i == |s|;
    assert s[..i] == s;
  }

  lemma AllSpaceTrimEmpty(s: string)
    requires AllSpace(s)
    ensures Trim(s) == []
  {
    var n := LeadingSpaces(s);
    if n < |s| {
      assert false;
    }
    assert s[n..] == [];
  }

  // ---------------------------------------------------------------------------
  // String.prototype.includes and String.prototype.replace (first occurrence)

  predicate StartsWith(s: string, prefix: string) {
    |prefix| <= |s| && s[..|prefix|] == prefix
  }

  predicate Includes(s: string, needle: string)
    decreases |s|
  {
    StartsWith(s, needle) || (s != [] && Includes(s[1..], needle))
  }

  ghost predicate OccursAt(s: string, needle: string, i: int) {
    0 <= i && i + |needle| <= |s| && s[i..i + |needle|] == needle
  }

  /** `Includes` finds the needle exactly when it occurs at some position. */
  lemma {:induction false} IncludesIff(s: string, needle: string)
    ensures Includes(s, needle) <==> exists i :: OccursAt(s, needle, i)
    decreases |s|
  {
    if StartsWith(s, needle) {
      assert OccursAt(s, needle, 0);
    } else {
      forall i | 0 <= i && i + |needle| <= |s| && i == 0 ensures !OccursAt(s, needle, i) {
        assert s[..|needle|] == s[i..i + |needle|];
      }
      if s != [] {
        IncludesIff(s[1..], needle);
        forall i | 1 <= i && i + |needle| <= |s|
          ensures OccursAt(s, needle, i) <==> OccursAt(s[1..], needle, i - 1)
        {
          assert s[1..][i - 1..i - 1 + |needle|] == s[i..i + |needle|];
        }
        if Includes(s[1..], needle) {
          var i :| OccursAt(s[1..], needle, i);
          assert OccursAt(s, needle, i + 1);
        }
      }
    }
  }

  /** A needle holding a character that the text lacks is never found. */
  lemma {:induction false} IncludesNeedsChars(s: string, needle: string, c: char)
    requires c in needle && c !in s
    ensures !Includes(s, needle)
    decreases |s|
  {
    var k :| 0 <= k < |needle| && needle[k] == c;
    if |needle| <= |s| {
      assert s[k] in s;
      assert s[..|needle|][k] != needle[k];
    }
    if s != [] {
      assert forall x :: x in s[1..] ==> x in s;
      IncludesNeedsChars(s[1..], needle, c);
    }
  }

  /** `s.replace(pattern, replacement)` with a string pattern: only the first
      occurrence is replaced. */
  function ReplaceFirst(s: string, pattern: string, replacement: string): string
    decreases |s|
  {
    if StartsWith(s, pattern) then replacement + s[|pattern|..]
    else if s == [] then s
    else [s[0]] + ReplaceFirst(s[1..], pattern, replacement)
  }

  /** Replacing a pattern that does not occur changes nothing. */
  lemma {:induction false} ReplaceFirstAbsent(s: string, pattern: string, replacement: string)
    requires !Includes(s, pattern)
    ensures ReplaceFirst(s, pattern, replacement) == s
    decreases |s|
  {
    if s != [] {
      ReplaceFirstAbsent(s[1..], pattern, replacement);
    }
  }

  // ---------------------------------------------------------------------------
  // Ordering of strings character by character, by code point

  function LexCompare(a: string, b: string): int
    decreases |a|
  {
    if a == [] && b == [] then 0
    else if a == [] then -1
    else if b == [] then 1
    else if a[0] < b[0] then -1
    else if a[0] > b[0] then 1
    else LexCompare(a[1..], b[1..])
  }

  /** Swapping the operands flips the sign; the comparison is zero only on
      equal strings. */
  lemma {:induction false} LexCompareAntisymmetric(a: string, b: string)
    ensures LexCompare(a, b) == -LexCompare(b, a)
    ensures LexCompare(a, b) == 0 <==> a == b
    decreases |a|
  {
    if a != [] && b != [] && a[0] == b[0] {
      LexCompareAntisymmetric(a[1..], b[1..]);
      if a[1..] == b[1..] {
        assert a == [a[0]] + a[1..] && b == [b[0]] + b[1..];
      }
    }
  }

  lemma {:induction false} LexCompareTransitive(a: string, b: string, c: string)
    requires LexCompare(a, b) <= 0 && LexCompare(b, c) <= 0
    ensures LexCompare(a, c) <= 0
    decreases |a|
  {
    if a != [] && b != [] && c != [] && a[0] == b[0] && b[0] == c[0] {
      LexCompareTransitive(a[1..], b[1..], c[1..]);
    }
  }

  // ---------------------------------------------------------------------------
  // Decimal rendering of non-negative integers (template-literal interpolation)

  predicate IsDigit(c: char) { '0' <= c <= '9' }

  function DigitChar(d: nat): char
    requires d < 10
  {
    ('0' as int + d) as char
  }

  function NatToString(n: nat): (s: string)
    ensures s != [] && forall i :: 0 <= i < |s| ==> IsDigit(s[i])
    ensures |s| > 1 ==> s[0] != '0'
  {
    if n < 10 then [DigitChar(n)] else NatToString(n / 10) + [DigitChar(n % 10)]
  }

  function DigitsValue(s: string): nat
    requires forall i :: 0 <= i < |s| ==> IsDigit(s[i])
  {
    if s == [] then 0
    else
      assert IsDigit(s[|s| - 1]);
      DigitsValue(s[..|s| - 1]) * 10 + (s[|s| - 1] as int - '0' as int)
  }

  /** Reads a decimal numeral back; anything else is refused. */
  function ParseNat(s: string): Option<nat> {
    if s != [] && forall i :: 0 <= i < |s| ==> IsDigit(s[i]) then Some(DigitsValue(s)) else None
  }

  lemma {:induction false} ParseNatToString(n: nat)
    ensures ParseNat(NatToString(n)) == Some(n)
  {
    if n >= 10 {
      ParseNatToString(n / 10);
      var s := NatToString(n);
      assert s[..|s| - 1] == NatToString(n / 10);
      assert s[|s| - 1] == DigitChar(n % 10);
      assert s[|s| - 1] as int - '0' as int == n % 10;
      assert DigitsValue(s) == DigitsValue(NatToString(n / 10)) * 10 + n % 10;
    }
  }
}
