/** The pieces of Python's string semantics that the rest of the model relies
    on: str.strip(), str.startswith(), the `in` substring test, lower-casing
    for the ASCII markers the program looks for, and int <-> str for the
    numbers it prints and parses back. */
module Text {
  import opened Wrappers

  /** str.isspace() (and the regex class \s): the Unicode whitespace set. */
  predicate IsSpace(c: char) {
    || c == ' '
    || ('\t' <= c <= '\r')                     // \t \n \v \f \r
    || ('\U{1c}' <= c <= '\U{1f}')             // file/group/record/unit separators
    || c == '\U{85}' || c == '\U{a0}' || c == '\U{1680}'
    || ('\U{2000}' <= c <= '\U{200a}')
    || c == '\U{2028}' || c == '\U{2029}' || c == '\U{202f}' || c == '\U{205f}'
    || c == '\U{3000}'
  }

  predicate AllSpace(s: string) {
    forall k :: 0 <= k < |s| ==> IsSpace(s[k])
  }

  /** Length of the run of whitespace at the start of `s`. */
  function LeadingSpaces(s: string): (n: nat)
    ensures n <= |s|
  {
    if |s| == 0 || !IsSpace(s[0]) then 0 else 1 + LeadingSpaces(s[1..])
  }

  lemma {:induction false} LeadingSpacesRun(s: string)
    ensures var n := LeadingSpaces(s);
            AllSpace(s[..n]) && (n < |s| ==> !IsSpace(s[n]))
  {
    if |s| > 0 && IsSpace(s[0]) {
      LeadingSpacesRun(s[1..]);
      var n := LeadingSpaces(s);
      forall k | 0 <= k < n ensures IsSpace(s[..n][k]) {
        if k > 0 {
          assert s[..n][k] == s[1..][..n - 1][k - 1];
        }
      }
      if n < |s| {
        assert s[n] == s[1..][n - 1];
      }
    }
  }

  /** Length of the run of whitespace at the end of `s`. */
  function TrailingSpaces(s: string): (n: nat)
    ensures n <= |s|
  {
    if |s| == 0 || !IsSpace(s[|s| - 1]) then 0 else 1 + TrailingSpaces(s[..|s| - 1])
  }

  lemma {:induction false} TrailingSpacesRun(s: string)
    ensures var n := TrailingSpaces(s);
            AllSpace(s[|s| - n..]) && (n < |s| ==> !IsSpace(s[|s| - n - 1]))
  {
    if |s| > 0 && IsSpace(s[|s| - 1]) {
      var t := s[..|s| - 1];
      TrailingSpacesRun(t);
      var n := TrailingSpaces(s);
      var u := s[|s| - n..];
      forall k | 0 <= k < |u| ensures IsSpace(u[k]) {
        if k < n - 1 {
          assert u[k] == t[|t| - (n - 1)..][k];
        }
      }
      if n < |s| {
        assert s[|s| - n - 1] == t[|t| - (n - 1) - 1];
      }
    }
  }

  /** str.strip() with no argument: what is left once the whitespace at
      both ends is gone. */
  function Strip(s: string): (r: string)
    ensures |r| <= |s|
  {
    var a := LeadingSpaces(s);
    s[a..][..|s[a..]| - TrailingSpaces(s[a..])]
  }

  /** The result of Strip is the slice of `s` left once its whitespace ends
      are cut off: it neither starts nor ends with whitespace, and only
      whitespace was removed. */
  lemma StripTrims(s: string)
    ensures var r := Strip(s);
            && (r == [] || (!IsSpace(r[0]) && !IsSpace(r[|r| - 1])))
            && exists i :: 0 <= i <= |s| - |r| && s[i..i + |r|] == r
                           && AllSpace(s[..i]) && AllSpace(s[i + |r|..])
  {
    StripEnds(s);
    StripSlice(s);
  }

  lemma StripEnds(s: string)
    ensures var r := Strip(s);
            r == [] || (!IsSpace(r[0]) && !IsSpace(r[|r| - 1]))
  {
    var a := LeadingSpaces(s);
    var t := s[a..];
    var b := TrailingSpaces(t);
    LeadingSpacesRun(s);
    TrailingSpacesRun(t);
    var r := t[..|t| - b];
    assert r != [] ==> r[0] == s[a] && r[|r| - 1] == t[|t| - b - 1];
  }

  lemma StripSlice(s: string)
    ensures var a := LeadingSpaces(s); var r := Strip(s);
            && a <= |s| - |r| && s[a..a + |r|] == r
            && AllSpace(s[..a]) && AllSpace(s[a + |r|..])
  {
    var a := LeadingSpaces(s);
    var t := s[a..];
    LeadingSpacesRun(s);
    TrailingSpacesRun(t);
    CutSlice(s, a, TrailingSpaces(t));
  }

  /** Cutting `a` characters off the front of `s` and then `b` off the back
      leaves the slice s[a..|s| - b]. */
  lemma CutSlice(s: string, a: nat, b: nat)
    requires a <= |s| && b <= |s| - a
    requires AllSpace(s[a..][|s| - a - b..])
    ensures var r := s[a..][..|s| - a - b];
            && s[a..a + |r|] == r && AllSpace(s[a + |r|..])
  {
    var t := s[a..];
    var r := t[..|t| - b];
    assert s[a..a + |r|] == r;
    assert s[a + |r|..] == t[|t| - b..];
  }

  /** Stripping twice is stripping once. */
  lemma StripIdempotent(s: string)
    ensures Strip(Strip(s)) == Strip(s)
  {
    var r := Strip(s);
    StripTrims(s);
    if r != [] {
      assert LeadingSpaces(r) == 0;
      assert TrailingSpaces(r) == 0;
    }
  }

  predicate StartsWith(s: string, prefix: string) {
    |prefix| <= |s| && s[..|prefix|] == prefix
  }

  /** `needle` occurs in `s` starting at position `i`. */
  predicate OccursAt(s: string, needle: string, i: int) {
    0 <= i && i + |needle| <= |s| && s[i..i + |needle|] == needle
  }

  /** Python's `needle in s` on strings. */
  predicate Contains(s: string, needle: string) {
    exists i | 0 <= i <= |s| :: OccursAt(s, needle, i)
  }

  /** A needle with a character that never occurs in `s` is not in `s`. */
  lemma NotContainedWithoutChar(s: string, needle: string, j: nat)
    requires j < |needle| && needle[j] !in s
    ensures !Contains(s, needle)
  {
    forall i | 0 <= i <= |s| ensures !OccursAt(s, needle, i) {
      if i + |needle| <= |s| {
        assert s[i..i + |needle|][j] == s[i + j];
      }
    }
  }

  /** A needle whose first character never occurs in `s` is not in `s`. */
  lemma NotContainedWithoutFirstChar(s: string, needle: string)
    requires needle != [] && needle[0] !in s
    ensures !Contains(s, needle)
  {
    forall i | 0 <= i <= |s| ensures !OccursAt(s, needle, i) {
      if i + |needle| <= |s| {
        assert s[i..i + |needle|][0] == s[i];
      }
    }
  }

  /** A needle occurring inside `s` is in every string that contains `s`. */
  lemma ContainsInside(pre: string, s: string, post: string, needle: string)
    requires Contains(s, needle)
    ensures Contains(pre + s + post, needle)
  {
    var i :| 0 <= i <= |s| && OccursAt(s, needle, i);
    assert i + |needle| <= |s| && s[i..i + |needle|] == needle;
    assert (pre + s + post)[|pre| + i..|pre| + i + |needle|] == needle;
    assert OccursAt(pre + s + post, needle, |pre| + i);
  }

  /** A string contains every one of its middle parts. */
  lemma ContainsMiddle(pre: string, needle: string, post: string)
    ensures OccursAt(pre + needle + post, needle, |pre|)
    ensures Contains(pre + needle + post, needle)
  {
    assert (pre + needle + post)[|pre|..|pre| + |needle|] == needle;
    assert OccursAt(pre + needle + post, needle, |pre|);
  }

  /** Lower-casing of A-Z. For the ASCII markers the program looks for this
      agrees with str.lower(): no other character lowers to an ASCII letter
      that could complete one of them. */
  function LowerChar(c: char): (r: char)
    ensures 'A' <= c <= 'Z' ==> r as int == c as int + 32
    ensures !('A' <= c <= 'Z') ==> r == c
  {
    if 'A' <= c <= 'Z' then (c as int + 32) as char else c
  }

  function Lower(s: string): (r: string)
    ensures |r| == |s|
    ensures forall k :: 0 <= k < |s| ==> r[k] == LowerChar(s[k])
  {
    seq(|s|, k requires 0 <= k < |s| => LowerChar(s[k]))
  }

  lemma LowerAppend(a: string, b: string)
    ensures Lower(a + b) == Lower(a) + Lower(b)
  {
  }

  /** An occurrence survives lower-casing. */
  lemma LowerOccurs(s: string, needle: string, i: int)
    requires OccursAt(s, needle, i)
    ensures OccursAt(Lower(s), Lower(needle), i)
  {
    var t := Lower(s)[i..i + |needle|];
    forall k | 0 <= k < |needle| ensures t[k] == Lower(needle)[k] {
      assert s[i..i + |needle|][k] == needle[k];
    }
  }

  predicate IsDigit(c: char) {
    '0' <= c <= '9'
  }

  predicate AllDigits(s: string) {
    forall k :: 0 <= k < |s| ==> IsDigit(s[k])
  }

  function DigitValue(c: char): (d: nat)
    requires IsDigit(c)
    ensures d < 10
  {
    c as int - '0' as int
  }

  function DigitChar(d: nat): (c: char)
    requires d < 10
    ensures IsDigit(c) && DigitValue(c) == d
  {
    ('0' as int + d) as char
  }

  /** str(n) for a non-negative integer: decimal digits, no leading zero. */
  function NatToString(n: nat): (r: string)
    ensures |r| >= 1 && AllDigits(r)
    ensures |r| > 1 ==> r[0] != '0'
    decreases n
  {
    if n < 10 then [DigitChar(n)] else NatToString(n / 10) + [DigitChar(n % 10)]
  }

  /** str(i) for any Python int. */
  function IntToString(i: int): (r: string)
    ensures |r| >= 1
    ensures i >= 0 ==> AllDigits(r)
    ensures i < 0 ==> r[0] == '-' && AllDigits(r[1..])
  {
    if i < 0 then "-" + NatToString(-i) else NatToString(i)
  }

  /** The value of a string of decimal digits. */
  function ParseDigits(s: string): nat
    requires AllDigits(s)
  {
    if s == [] then 0 else ParseDigits(s[..|s| - 1]) * 10 + DigitValue(s[|s| - 1])
  }

  /** int(s) on the strings `-?[0-9]+`; any other string would raise. */
  function ParseInt(s: string): Option<int> {
    if |s| >= 2 && s[0] == '-' && AllDigits(s[1..]) then Some(-(ParseDigits(s[1..]) as int))
    else if |s| >= 1 && AllDigits(s) then Some(ParseDigits(s))
    else None
  }

  lemma {:induction false} ParseNatToString(n: nat)
    ensures ParseDigits(NatToString(n)) == n
    decreases n
  {
    if n >= 10 {
      var a := NatToString(n / 10);
      var s := a + [DigitChar(n % 10)];
      assert s[..|s| - 1] == a;
      ParseNatToString(n / 10);
    }
  }

  /** int(str(i)) == i. */
  lemma ParseIntToString(i: int)
    ensures ParseInt(IntToString(i)) == Some(i)
  {
    if i < 0 {
      var d := NatToString(-i);
      var s := "-" + d;
      assert s[1..] == d;
      ParseNatToString(-i);
      assert ParseInt(s) == Some(-(ParseDigits(d) as int));
    } else {
      var s := NatToString(i);
      assert IsDigit(s[0]) && s[0] != '-';
      ParseNatToString(i);
      assert ParseInt(s) == Some(ParseDigits(s));
    }
  }

  /** Distinct integers print differently. */
  lemma IntToStringInjective(i: int, j: int)
    requires IntToString(i) == IntToString(j)
    ensures i == j
  {
    ParseIntToString(i);
    ParseIntToString(j);
  }

  /** s.replace(c, "") for a single character. */
  function RemoveChar(s: string, c: char): (r: string)
    ensures c !in r
    ensures c !in s ==> r == s
  {
    if s == [] then []
    else (if s[0] == c then [] else [s[0]]) + RemoveChar(s[1..], c)
  }
}
