/** The parts of Python's `str` and of the `re` character classes that the
    template engine, the importers and the backend rely on, written over
    `seq<char>`. */
module Strings {
  import opened Wrappers

  // ---------------------------------------------------------------------------
  // Character classes
  // ---------------------------------------------------------------------------

  /** `str.isspace()`, which is also the class `\s` matches in a `str` pattern. */
  predicate IsSpace(c: char) {
    || c == ' '
    || ('\t' <= c <= '\r')
    || ('\U{001C}' <= c <= '\U{001F}')
    || c == '\U{0085}' || c == '\U{00A0}' || c == '\U{1680}'
    || ('\U{2000}' <= c <= '\U{200A}')
    || c == '\U{2028}' || c == '\U{2029}' || c == '\U{202F}' || c == '\U{205F}' || c == '\U{3000}'
  }

  /** `\d`, restricted to the ASCII digits. */
  predicate IsDigit(c: char) {
    '0' <= c <= '9'
  }

  /** `[a-z]`. */
  predicate IsLowerAscii(c: char) {
    'a' <= c <= 'z'
  }

  /** `\w` in a `str` pattern (`isalnum()` or `_`), exact up to U+00FF. */
  predicate IsWordChar(c: char) {
    || IsDigit(c) || ('a' <= c <= 'z') || ('A' <= c <= 'Z') || c == '_'
    || c == '\U{00AA}' || c == '\U{00B2}' || c == '\U{00B3}' || c == '\U{00B5}'
    || c == '\U{00B9}' || c == '\U{00BA}' || ('\U{00BC}' <= c <= '\U{00BE}')
    || ('\U{00C0}' <= c <= '\U{00D6}') || ('\U{00D8}' <= c <= '\U{00F6}')
    || ('\U{00F8}' <= c <= '\U{00FF}')
  }

  lemma SpaceIsNotWord(c: char)
    ensures IsSpace(c) ==> !IsWordChar(c)
  {
  }

  // ---------------------------------------------------------------------------
  // Occurrences
  // ---------------------------------------------------------------------------

  predicate StartsWith(s: string, p: string) {
    |p| <= |s| && s[..|p|] == p
  }

  /** `p` occurs in `s` starting at index `i`. */
  predicate IsPrefixAt(s: string, i: nat, p: string) {
    i + |p| <= |s| && s[i..i + |p|] == p
  }

  /** `p in s`. */
  predicate Contains(s: string, p: string) {
    exists i: nat | i <= |s| :: IsPrefixAt(s, i, p)
  }

  /** `s.find(p, i)`: the first occurrence of `p` at or after `i`. */
  function FindFrom(s: string, p: string, i: nat): (r: Option<nat>)
    requires i <= |s|
    ensures r.Some? ==> i <= r.value && IsPrefixAt(s, r.value, p)
    ensures r.Some? ==> forall j: nat :: i <= j < r.value ==> !IsPrefixAt(s, j, p)
    ensures r.None? ==> forall j: nat :: i <= j ==> !IsPrefixAt(s, j, p)
    decreases |s| - i
  {
    if IsPrefixAt(s, i, p) then Some(i)
    else if i == |s| then None
    else FindFrom(s, p, i + 1)
  }

  /** An occurrence with none before it, from `i` on, is what `find` returns. */
  lemma {:induction false} FindFirst(s: string, p: string, i: nat, j: nat)
    requires i <= j && IsPrefixAt(s, j, p)
    requires forall q: nat :: i <= q < j ==> !IsPrefixAt(s, q, p)
    ensures FindFrom(s, p, i) == Some(j)
    decreases j - i
  {
    if i < j {
      FindFirst(s, p, i + 1, j);
    }
  }

  /** A pattern holding a character the text lacks occurs nowhere in it. */
  lemma AbsentCharNoOccurrence(s: string, p: string, c: char, i: nat, b: nat)
    requires b < |p| && p[b] == c && c !in s
    ensures !IsPrefixAt(s, i, p)
  {
    if i + |p| <= |s| {
      assert s[i..i + |p|][b] != p[b];
    }
  }

  /** A text free of a piece of a pattern is free of the pattern. */
  lemma PieceAbsent(s: string, p: string, a: nat, b: nat)
    requires a <= b <= |p| && !Contains(s, p[a..b])
    ensures !Contains(s, p)
  {
    forall i: nat | i <= |s|
      ensures !IsPrefixAt(s, i, p)
    {
      if i + |p| <= |s| {
        assert !IsPrefixAt(s, i + a, p[a..b]);
        var w := s[i..i + |p|];
        assert forall k :: 0 <= k < b - a ==> w[a..b][k] == s[i + a..i + b][k];
      }
    }
  }

  lemma ContainsIffFound(s: string, p: string)
    ensures Contains(s, p) <==> FindFrom(s, p, 0).Some?
  {
    if FindFrom(s, p, 0).Some? {
      assert IsPrefixAt(s, FindFrom(s, p, 0).value, p);
    }
  }

  /** An occurrence in a suffix is an occurrence in the whole string. */
  lemma ContainsInSuffix(s: string, k: nat, p: string)
    requires k <= |s|
    requires Contains(s[k..], p)
    ensures Contains(s, p)
  {
    var i: nat :| i <= |s[k..]| && IsPrefixAt(s[k..], i, p);
    assert i + |p| <= |s| - k;
    assert s[k + i..k + i + |p|] == s[k..][i..i + |p|];
    assert IsPrefixAt(s, k + i, p);
  }

  /** An occurrence of a longer pattern carries every piece of it along. */
  lemma ContainsPiece(s: string, p: string, a: nat, b: nat)
    requires a <= b <= |p|
    requires Contains(s, p)
    ensures Contains(s, p[a..b])
  {
    var i: nat :| i <= |s| && IsPrefixAt(s, i, p);
    assert i + |p| <= |s|;
    var w := s[i + a..i + b];
    assert forall k :: 0 <= k < b - a ==> w[k] == p[a..b][k];
    assert IsPrefixAt(s, i + a, p[a..b]);
  }

  lemma StartsWithIsOccurrence(s: string, p: string)
    requires StartsWith(s, p)
    ensures Contains(s, p)
  {
    assert IsPrefixAt(s, 0, p);
  }

  // ---------------------------------------------------------------------------
  // Spans and stripping
  // ---------------------------------------------------------------------------

  /** The number of leading whitespace characters (what a greedy `\s*` takes). */
  function LeadingSpaces(s: string): (n: nat)
    ensures n <= |s|
    ensures forall k :: 0 <= k < n ==> IsSpace(s[k])
    ensures n == |s| || !IsSpace(s[n])
  {
    if s == [] || !IsSpace(s[0]) then 0 else 1 + LeadingSpaces(s[1..])
  }

  /** The number of trailing whitespace characters. */
  function TrailingSpaces(s: string): (n: nat)
    ensures n <= |s|
    ensures forall k :: |s| - n <= k < |s| ==> IsSpace(s[k])
    ensures n == |s| || !IsSpace(s[|s| - n - 1])
  {
    if s == [] || !IsSpace(s[|s| - 1]) then 0 else 1 + TrailingSpaces(s[..|s| - 1])
  }

  /** `s.strip()`. */
  function Strip(s: string): (r: string)
    ensures r == [] || (!IsSpace(r[0]) && !IsSpace(r[|r| - 1]))
    ensures exists a: nat, b: nat ::
              && a <= b <= |s| && r == s[a..b]
              && (forall k :: 0 <= k < a ==> IsSpace(s[k]))
              && (forall k :: b <= k < |s| ==> IsSpace(s[k]))
  {
    var a := LeadingSpaces(s);
    var t := s[a..];
    var b := a + |t| - TrailingSpaces(t);
    assert s[a..b] == t[..|t| - TrailingSpaces(t)];
    s[a..b]
  }

  /** Stripping only removes characters. */
  lemma StripAvoids(s: string, c: char)
    requires c !in s
    ensures c !in Strip(s)
  {
    var r := Strip(s);
    var a: nat, b: nat :| a <= b <= |s| && r == s[a..b];
    assert forall k :: 0 <= k < |r| ==> r[k] == s[a + k];
  }

  /** The length of the longest prefix of `s` free of `c` (what `[^c]*` takes). */
  function SpanNot(s: string, c: char): (n: nat)
    ensures n <= |s|
    ensures forall k :: 0 <= k < n ==> s[k] != c
    ensures n == |s| || s[n] == c
  {
    if s == [] || s[0] == c then 0 else 1 + SpanNot(s[1..], c)
  }

  /** The length of the longest prefix of `s` made of `\w` characters. */
  function SpanWord(s: string): (n: nat)
    ensures n <= |s|
    ensures forall k :: 0 <= k < n ==> IsWordChar(s[k])
    ensures n == |s| || !IsWordChar(s[n])
  {
    if s == [] || !IsWordChar(s[0]) then 0 else 1 + SpanWord(s[1..])
  }

  /** A word run that ends where a non-word character starts is the span. */
  lemma {:induction false} SpanWordExact(s: string, n: nat)
    requires n < |s| && !IsWordChar(s[n])
    requires forall k :: 0 <= k < n ==> IsWordChar(s[k])
    ensures SpanWord(s) == n
    decreases n
  {
    if n > 0 {
      SpanWordExact(s[1..], n - 1);
    }
  }

  /** A run free of `c` that ends at a `c` is the span. */
  lemma {:induction false} SpanNotExact(s: string, c: char, n: nat)
    requires n < |s| && s[n] == c
    requires forall k :: 0 <= k < n ==> s[k] != c
    ensures SpanNot(s, c) == n
    decreases n
  {
    if n > 0 {
      SpanNotExact(s[1..], c, n - 1);
    }
  }

  /** A run of spaces that ends where a non-space starts is the span. */
  lemma {:induction false} LeadingSpacesExact(s: string, n: nat)
    requires n < |s| && !IsSpace(s[n])
    requires forall k :: 0 <= k < n ==> IsSpace(s[k])
    ensures LeadingSpaces(s) == n
    decreases n
  {
    if n > 0 {
      LeadingSpacesExact(s[1..], n - 1);
    }
  }

  /** A run of trailing spaces that starts after a non-space is the span. */
  lemma {:induction false} TrailingSpacesExact(s: string, n: nat)
    requires n < |s| && !IsSpace(s[|s| - n - 1])
    requires forall k :: |s| - n <= k < |s| ==> IsSpace(s[k])
    ensures TrailingSpaces(s) == n
    decreases n
  {
    if n > 0 {
      var t := s[..|s| - 1];
      assert t[|t| - (n - 1) - 1] == s[|s| - n - 1];
      TrailingSpacesExact(t, n - 1);
    }
  }

  /** `s.strip()` is the part between a leading and a trailing run of spaces
      when that part starts and ends with a non-space, or is empty. */
  lemma StripExact(s: string, a: nat, b: nat)
    requires a <= b <= |s|
    requires forall k :: 0 <= k < a ==> IsSpace(s[k])
    requires forall k :: b <= k < |s| ==> IsSpace(s[k])
    requires a == b || (!IsSpace(s[a]) && !IsSpace(s[b - 1]))
    ensures Strip(s) == s[a..b]
  {
    if a == b {
      assert forall k :: 0 <= k < |s| ==> IsSpace(s[k]) by {
        forall k | 0 <= k < |s| ensures IsSpace(s[k]) {
          if k >= a { assert k >= b; }
        }
      }
      assert LeadingSpaces(s) == |s|;
    } else {
      LeadingSpacesExact(s, a);
      var t := s[a..];
      assert t[|t| - (|s| - b) - 1] == s[b - 1];
      TrailingSpacesExact(t, |s| - b);
    }
  }

  /** The non-space core of `s`: `Strip(s)` is `s[a..b]` for these bounds. */
  lemma StripBounds(s: string, a: nat, b: nat)
    requires a == LeadingSpaces(s) < |s| && b == |s| - TrailingSpaces(s)
    ensures a < b && Strip(s) == s[a..b] && !IsSpace(s[a]) && !IsSpace(s[b - 1])
  {
    CoreBounds(s, a, TrailingSpaces(s));
    StripExact(s, a, b);
  }

  /** A non-space character at `a` lies before the `n` trailing spaces, and
      the character before those is not a space. */
  lemma CoreBounds(s: string, a: nat, n: nat)
    requires a < |s| && n <= |s| && !IsSpace(s[a])
    requires forall k :: |s| - n <= k < |s| ==> IsSpace(s[k])
    requires n == |s| || !IsSpace(s[|s| - n - 1])
    ensures a < |s| - n && !IsSpace(s[|s| - n - 1])
  {
    if |s| - n <= a {
      assert false;
    }
  }

  /** A string of spaces strips to nothing. */
  lemma StripAllSpaces(s: string)
    requires LeadingSpaces(s) == |s|
    ensures Strip(s) == []
  {
    StripExact(s, |s|, |s|);
  }

  /** Stripping what is already stripped on the left gives the same. */
  lemma StripAfterLeading(s: string)
    ensures Strip(s[LeadingSpaces(s)..]) == Strip(s)
  {
    var a := LeadingSpaces(s);
    var b := |s| - TrailingSpaces(s);
    if a == |s| {
      StripAllSpaces(s);
      StripAllSpaces(s[a..]);
    } else {
      StripBounds(s, a, b);
      StripLeadTrimmed(s, a, b);
    }
  }

  /** Stripping what is already stripped on the right gives the same. */
  lemma StripBeforeTrailing(s: string)
    ensures Strip(s[..|s| - TrailingSpaces(s)]) == Strip(s)
  {
    var a := LeadingSpaces(s);
    var b := |s| - TrailingSpaces(s);
    if a == |s| {
      StripAllSpaces(s);
      StripAllSpaces(s[..b]);
    } else {
      StripBounds(s, a, b);
      StripTailTrimmed(s, a, b);
    }
  }

  lemma StripLeadTrimmed(s: string, a: nat, b: nat)
    requires a < b <= |s| && !IsSpace(s[a]) && !IsSpace(s[b - 1])
    requires forall k :: b <= k < |s| ==> IsSpace(s[k])
    ensures Strip(s[a..]) == s[a..b]
  {
    var t := s[a..];
    assert forall k :: b - a <= k < |t| ==> t[k] == s[a + k];
    assert t[0] == s[a] && t[b - a - 1] == s[b - 1];
    StripExact(t, 0, b - a);
    assert t[0..b - a] == s[a..b];
  }

  lemma StripTailTrimmed(s: string, a: nat, b: nat)
    requires a < b <= |s| && !IsSpace(s[a]) && !IsSpace(s[b - 1])
    requires forall k :: 0 <= k < a ==> IsSpace(s[k])
    ensures Strip(s[..b]) == s[a..b]
  {
    var t := s[..b];
    assert forall k :: 0 <= k < a ==> t[k] == s[k];
    assert t[a] == s[a] && t[b - 1] == s[b - 1];
    StripExact(t, a, b);
    assert t[a..b] == s[a..b];
  }

  /** The length of the longest prefix of `s` made of `\d` characters. */
  function SpanDigits(s: string): (n: nat)
    ensures n <= |s|
    ensures forall k :: 0 <= k < n ==> IsDigit(s[k])
    ensures n == |s| || !IsDigit(s[n])
  {
    if s == [] || !IsDigit(s[0]) then 0 else 1 + SpanDigits(s[1..])
  }

  // ---------------------------------------------------------------------------
  // Rewriting
  // ---------------------------------------------------------------------------

  /** `s.replace(p, r)`, equivalently `re.sub` of a literal pattern: the
      leftmost occurrence is replaced and the scan resumes after it. */
  function ReplaceAll(s: string, p: string, r: string): string
    requires |p| > 0
    decreases |s|
  {
    if |s| < |p| then s
    else if StartsWith(s, p) then r + ReplaceAll(s[|p|..], p, r)
    else [s[0]] + ReplaceAll(s[1..], p, r)
  }

  /** With no occurrence of the pattern, replacing is the identity. */
  lemma {:induction false} ReplaceAllAbsent(s: string, p: string, r: string)
    requires |p| > 0
    requires !Contains(s, p)
    ensures ReplaceAll(s, p, r) == s
    decreases |s|
  {
    if |s| >= |p| {
      assert !IsPrefixAt(s, 0, p);
      if Contains(s[1..], p) {
        ContainsInSuffix(s, 1, p);
      }
      ReplaceAllAbsent(s[1..], p, r);
    }
  }

  /** `sep.join(parts)`. */
  function Join(sep: string, parts: seq<string>): string {
    if parts == [] then ""
    else if |parts| == 1 then parts[0]
    else parts[0] + sep + Join(sep, parts[1..])
  }

  /** `s.replace(a, b)` for single characters. */
  function ReplaceChar(s: string, a: char, b: char): (r: string)
    ensures |r| == |s|
    ensures forall k :: 0 <= k < |s| ==> r[k] == (if s[k] == a then b else s[k])
  {
    if s == [] then [] else [if s[0] == a then b else s[0]] + ReplaceChar(s[1..], a, b)
  }

  /** `str(n)` for a natural number. */
  function NatToString(n: nat): (r: string)
    ensures |r| > 0
    ensures forall k :: 0 <= k < |r| ==> IsDigit(r[k])
    decreases n
  {
    var d := ['0' + (n % 10) as char];
    if n < 10 then d else NatToString(n / 10) + d
  }

  /** `str(n)` for any integer. */
  function IntToString(n: int): (r: string)
    ensures |r| > 0
  {
    if n < 0 then "-" + NatToString(-n) else NatToString(n)
  }

  /** The value of a non-empty run of ASCII digits. */
  function DigitsValue(d: string): nat
    requires forall k :: 0 <= k < |d| ==> IsDigit(d[k])
  {
    if d == [] then 0
    else
      assert IsDigit(d[|d| - 1]);
      DigitsValue(d[..|d| - 1]) * 10 + (d[|d| - 1] as int - '0' as int)
  }

  /** `int(s)` for an optionally signed decimal numeral surrounded by
      whitespace; `None` where Python raises `ValueError`. */
  function ParseInt(s: string): (r: Option<int>)
  {
    var t := Strip(s);
    var neg := StartsWith(t, "-");
    var d := if StartsWith(t, "-") || StartsWith(t, "+") then t[1..] else t;
    if d != [] && SpanDigits(d) == |d| then
      Some(if neg then -(DigitsValue(d) as int) else DigitsValue(d) as int)
    else None
  }

  // ---------------------------------------------------------------------------
  // Case mapping
  // ---------------------------------------------------------------------------

  /** `c.upper()` on ASCII and Latin-1, plus the two letters outside Latin-1
      whose upper case is an ASCII letter (dotless i and long s). */
  function UpperChar(c: char): char {
    if 'a' <= c <= 'z' then (c as int - 32) as char
    else if ('\U{00E0}' <= c <= '\U{00FE}') && c != '\U{00F7}' then (c as int - 32) as char
    else if c == '\U{0131}' then 'I'
    else if c == '\U{017F}' then 'S'
    else c
  }

  /** `c.lower()` on ASCII and Latin-1. */
  function LowerChar(c: char): char {
    if 'A' <= c <= 'Z' then (c as int + 32) as char
    else if ('\U{00C0}' <= c <= '\U{00DE}') && c != '\U{00D7}' then (c as int + 32) as char
    else c
  }

  function Upper(s: string): (r: string)
    ensures |r| == |s|
    ensures forall k :: 0 <= k < |s| ==> r[k] == UpperChar(s[k])
  {
    if s == [] then [] else [UpperChar(s[0])] + Upper(s[1..])
  }

  function Lower(s: string): (r: string)
    ensures |r| == |s|
    ensures forall k :: 0 <= k < |s| ==> r[k] == LowerChar(s[k])
  {
    if s == [] then [] else [LowerChar(s[0])] + Lower(s[1..])
  }

  // ---------------------------------------------------------------------------
  // Ordering
  // ---------------------------------------------------------------------------

  /** Python's `<` on `str`: lexicographic by code point, a proper prefix first. */
  predicate Less(a: string, b: string) {
    if a == [] then b != []
    else if b == [] then false
    else a[0] < b[0] || (a[0] == b[0] && Less(a[1..], b[1..]))
  }

  lemma {:induction false} LessIrreflexive(a: string)
    ensures !Less(a, a)
  {
    if a != [] {
      LessIrreflexive(a[1..]);
    }
  }

  lemma {:induction false} LessTransitive(a: string, b: string, c: string)
    requires Less(a, b) && Less(b, c)
    ensures Less(a, c)
  {
    if a != [] && b != [] && c != [] && a[0] == b[0] && b[0] == c[0] {
      LessTransitive(a[1..], b[1..], c[1..]);
    }
  }

  lemma {:induction false} LessTotal(a: string, b: string)
    ensures a == b || Less(a, b) || Less(b, a)
  {
    if a != [] && b != [] && a[0] == b[0] {
      LessTotal(a[1..], b[1..]);
      if a[1..] == b[1..] {
        assert a == [a[0]] + a[1..] && b == [b[0]] + b[1..];
      }
    }
  }

  lemma LessAsymmetric(a: string, b: string)
    requires Less(a, b)
    ensures !Less(b, a)
  {
    if Less(b, a) {
      LessTransitive(a, b, a);
      LessIrreflexive(a);
    }
  }
}
