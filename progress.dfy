/** The three regexes that pull a percentage, a speed and an ETA out of one
    line of yt-dlp's `--newline` output (main.py:69-71). Each is used with
    `search`, so the model has a matcher per pattern anchored at a position
    (`PercentAt`, `SpeedAt`, `EtaAt`), a leftmost `Search`, and for each
    pattern a declarative reading of the regex that the matcher is proved
    to agree with, capture included. */
module ProgressLine {
  import opened Wrappers
  import opened Text

  /** The regex class \w, restricted to ASCII. */
  predicate IsWordChar(c: char) {
    ('a' <= c <= 'z') || ('A' <= c <= 'Z') || IsDigit(c) || c == '_'
  }

  /** The class [0-9\.] of the speed pattern. */
  predicate IsSpeedChar(c: char) {
    IsDigit(c) || c == '.'
  }

  /** The class [0-9:] of the ETA pattern. */
  predicate IsEtaChar(c: char) {
    IsDigit(c) || c == ':'
  }

  /** Every character of s[a..b] is in the class `p`. */
  predicate Within(s: string, a: int, b: int, p: char -> bool) {
    0 <= a <= b <= |s| && forall k | a <= k < b :: p(s[k])
  }

  /** Where the longest run of `p`-characters that starts at `i` ends: what a
      greedy `p*` starting at `i` consumes. */
  function RunEnd(s: string, i: nat, p: char -> bool): (r: nat)
    requires i <= |s|
    ensures i <= r <= |s|
    ensures Within(s, i, r, p)
    ensures r < |s| ==> !p(s[r])
    decreases |s| - i
  {
    if i == |s| || !p(s[i]) then i else RunEnd(s, i + 1, p)
  }

  /** A run ends at the first character outside its class. */
  lemma RunEndAt(s: string, i: nat, p: char -> bool, e: nat)
    requires i <= e < |s| && Within(s, i, e, p) && !p(s[e])
    ensures RunEnd(s, i, p) == e
  {
  }

  function Pow10(n: nat): (r: nat)
    ensures r >= 1
  {
    if n == 0 then 1 else 10 * Pow10(n - 1)
  }

  lemma {:induction false} ParseDigitsBelow(s: string)
    requires AllDigits(s)
    ensures ParseDigits(s) < Pow10(|s|)
    decreases |s|
  {
    if s != [] {
      ParseDigitsBelow(s[..|s| - 1]);
    }
  }

  // ---------------------------------------------------------------
  // \[download\]\s+([0-9]{1,3}\.[0-9])%
  // ---------------------------------------------------------------

  /** The percentage, in tenths, that the progress pattern captures when it
      matches starting at `i`: float("ddd.d") * 10. */
  function PercentAt(s: string, i: nat): (r: Option<nat>)
    ensures r.Some? ==> r.value <= 9999
  {
    if !OccursAt(s, "[download]", i) then None
    else
      var p := RunEnd(s, i + 10, IsSpace);
      if p == i + 10 then None
      else
        var q := RunEnd(s, p, IsDigit);
        if 1 <= q - p <= 3 && q + 3 <= |s| && s[q] == '.' && IsDigit(s[q + 1]) && s[q + 2] == '%' then
          PercentValueBelow(s, p, q - p);
          Some(PercentValue(s, p, q - p))
        else None
  }

  /** The value of the capture d..d.d that starts at `p` and has `d` digits
      before the point, in tenths. */
  function PercentValue(s: string, p: nat, d: nat): nat
    requires p + d + 2 <= |s| && AllDigits(s[p..p + d]) && IsDigit(s[p + d + 1])
  {
    ParseDigits(s[p..p + d]) * 10 + DigitValue(s[p + d + 1])
  }

  /** At most three digits before the point keep the value below 100.0%
      times a hundred. */
  lemma PercentValueBelow(s: string, p: nat, d: nat)
    requires d <= 3 && p + d + 2 <= |s| && AllDigits(s[p..p + d]) && IsDigit(s[p + d + 1])
    ensures PercentValue(s, p, d) <= 9999
  {
    ParseDigitsBelow(s[p..p + d]);
    assert Pow10(d) <= 1000 by {
      assert Pow10(3) == 1000;
    }
  }

  /** The regex reading: "[download]" at `i`, `w` >= 1 whitespace characters,
      `d` in 1..3 digits, a point, a digit and a percent sign. */
  predicate PercentMatch(s: string, i: nat, w: nat, d: nat) {
    var p := i + 10 + w;
    && OccursAt(s, "[download]", i)
    && w >= 1 && 1 <= d <= 3
    && p + d + 3 <= |s|
    && Within(s, i + 10, p, IsSpace)
    && Within(s, p, p + d, IsDigit)
    && s[p + d] == '.' && IsDigit(s[p + d + 1]) && s[p + d + 2] == '%'
  }

  /** The matcher succeeds at `i` exactly when the regex matches there, and
      whichever way the regex matches, the captured value is the one the
      matcher returns. */
  lemma PercentAtIsRegex(s: string, i: nat)
    ensures PercentAt(s, i).Some? <==> exists w: nat, d: nat :: PercentMatch(s, i, w, d)
    ensures forall w: nat, d: nat | PercentMatch(s, i, w, d) ::
              AllDigits(s[i + 10 + w..i + 10 + w + d])
              && PercentAt(s, i) == Some(PercentValue(s, i + 10 + w, d))
  {
    if PercentAt(s, i).Some? {
      PercentWitness(s, i);
    }
    forall w: nat, d: nat | PercentMatch(s, i, w, d)
      ensures AllDigits(s[i + 10 + w..i + 10 + w + d])
      ensures PercentAt(s, i) == Some(PercentValue(s, i + 10 + w, d))
    {
      PercentMatchFound(s, i, w, d);
    }
  }

  lemma PercentWitness(s: string, i: nat)
    requires PercentAt(s, i).Some?
    ensures exists w: nat, d: nat :: PercentMatch(s, i, w, d)
  {
    var p := RunEnd(s, i + 10, IsSpace);
    var q := RunEnd(s, p, IsDigit);
    assert PercentMatch(s, i, p - (i + 10), q - p);
  }

  lemma PercentMatchFound(s: string, i: nat, w: nat, d: nat)
    requires PercentMatch(s, i, w, d)
    ensures AllDigits(s[i + 10 + w..i + 10 + w + d])
    ensures PercentAt(s, i) == Some(PercentValue(s, i + 10 + w, d))
  {
    var p := i + 10 + w;
    assert !IsSpace(s[p]);
    RunEndAt(s, i + 10, IsSpace, p);
    RunEndAt(s, p, IsDigit, p + d);
    var t := s[p..p + d];
    forall k | 0 <= k < |t| ensures IsDigit(t[k]) {
      assert t[k] == s[p + k];
    }
  }

  // ---------------------------------------------------------------
  // at\s+([0-9\.]+\w+/s)
  // ---------------------------------------------------------------

  /** The speed text the speed pattern captures when it matches starting at
      `i`. After "at" and the whitespace, [0-9.]+ first takes the whole run
      of digits and points; \w+ then needs at least one word character
      before "/s", which it either finds after that run or, by backtracking,
      takes from the run's last character when that is a digit. */
  function SpeedAt(s: string, i: nat): (r: Option<string>)
    ensures r.Some? ==> |r.value| >= 3 && r.value[|r.value| - 2..] == "/s"
  {
    if !OccursAt(s, "at", i) then None
    else
      var j := RunEnd(s, i + 2, IsSpace);
      if j == i + 2 then None
      else
        var m := RunEnd(s, j, IsSpeedChar);
        var n := RunEnd(s, m, IsWordChar);
        if m > j && (n > m || (m - j >= 2 && IsDigit(s[m - 1])))
           && n + 2 <= |s| && s[n] == '/' && s[n + 1] == 's'
        then
          assert s[j..n + 2][n + 2 - j - 2..] == "/s";
          Some(s[j..n + 2])
        else None
  }

  /** The regex reading: "at" at `i`, `w` >= 1 whitespace characters, a
      non-empty run of digits and points up to `m`, a non-empty run of word
      characters up to `n`, then "/s". */
  predicate SpeedMatch(s: string, i: nat, w: nat, m: nat, n: nat) {
    var j := i + 2 + w;
    && OccursAt(s, "at", i)
    && w >= 1 && j < m < n && n + 2 <= |s|
    && Within(s, i + 2, j, IsSpace)
    && Within(s, j, m, IsSpeedChar)
    && Within(s, m, n, IsWordChar)
    && s[n] == '/' && s[n + 1] == 's'
  }

  /** The matcher succeeds at `i` exactly when the regex matches there, and
      every way the regex can match captures the same text. */
  lemma SpeedAtIsRegex(s: string, i: nat)
    ensures SpeedAt(s, i).Some? <==> exists w: nat, m: nat, n: nat :: SpeedMatch(s, i, w, m, n)
    ensures forall w: nat, m: nat, n: nat | SpeedMatch(s, i, w, m, n) ::
              SpeedAt(s, i) == Some(s[i + 2 + w..n + 2])
  {
    if SpeedAt(s, i).Some? {
      SpeedWitness(s, i);
    }
    forall w: nat, m: nat, n: nat | SpeedMatch(s, i, w, m, n)
      ensures SpeedAt(s, i) == Some(s[i + 2 + w..n + 2])
    {
      SpeedMatchFound(s, i, w, m, n);
    }
  }

  lemma SpeedWitness(s: string, i: nat)
    requires SpeedAt(s, i).Some?
    ensures exists w: nat, m: nat, n: nat :: SpeedMatch(s, i, w, m, n)
  {
    var j := RunEnd(s, i + 2, IsSpace);
    var m := RunEnd(s, j, IsSpeedChar);
    var n := RunEnd(s, m, IsWordChar);
    if n > m {
      assert SpeedMatch(s, i, j - (i + 2), m, n);
    } else {
      assert SpeedMatch(s, i, j - (i + 2), m - 1, n);
    }
  }

  lemma SpeedMatchFound(s: string, i: nat, w: nat, m: nat, n: nat)
    requires SpeedMatch(s, i, w, m, n)
    ensures SpeedAt(s, i) == Some(s[i + 2 + w..n + 2])
  {
    var j := i + 2 + w;
    assert !IsSpace(s[j]);
    RunEndAt(s, i + 2, IsSpace, j);
    var m0 := RunEnd(s, j, IsSpeedChar);
    // the '/' at n ends the run of digits and points no later than n
    assert !IsSpeedChar(s[n]);
    assert m <= m0 <= n;
    if m0 == n {
      assert IsWordChar(s[n - 1]);
      RunEndAt(s, m0, IsWordChar, n);
    } else {
      assert IsWordChar(s[m0]);
      RunEndAt(s, m0, IsWordChar, n);
    }
  }

  // ---------------------------------------------------------------
  // ETA\s+([0-9:]+)
  // ---------------------------------------------------------------

  /** The ETA text the ETA pattern captures when it matches starting at `i`:
      the whole run of digits and colons after the whitespace. */
  function EtaAt(s: string, i: nat): (r: Option<string>)
    ensures r.Some? ==> r.value != [] && forall k | 0 <= k < |r.value| :: IsEtaChar(r.value[k])
  {
    if !OccursAt(s, "ETA", i) then None
    else
      var j := RunEnd(s, i + 3, IsSpace);
      var n := RunEnd(s, j, IsEtaChar);
      if j > i + 3 && n > j then
        assert forall k | 0 <= k < n - j :: s[j..n][k] == s[j + k];
        Some(s[j..n])
      else None
  }

  /** The regex reading: "ETA" at `i`, `w` >= 1 whitespace characters, then
      a non-empty run of digits and colons up to `n`. */
  predicate EtaMatch(s: string, i: nat, w: nat, n: nat) {
    var j := i + 3 + w;
    && OccursAt(s, "ETA", i)
    && w >= 1 && j < n <= |s|
    && Within(s, i + 3, j, IsSpace)
    && Within(s, j, n, IsEtaChar)
  }

  /** The regex matches at `i` with `w` whitespace characters and captures
      `c`. */
  predicate EtaCaptures(s: string, i: nat, w: nat, c: string) {
    EtaMatch(s, i, w, i + 3 + w + |c|) && s[i + 3 + w..i + 3 + w + |c|] == c
  }

  /** The matcher succeeds at `i` exactly when the regex matches there, and
      its capture is the longest one the regex allows: every match the
      regex could make is a prefix of it. */
  lemma EtaAtIsRegex(s: string, i: nat)
    ensures EtaAt(s, i).Some? <==> exists w: nat, n: nat :: EtaMatch(s, i, w, n)
    ensures EtaAt(s, i).Some? ==> exists w: nat :: EtaCaptures(s, i, w, EtaAt(s, i).value)
    ensures forall w: nat, n: nat | EtaMatch(s, i, w, n) ::
              EtaAt(s, i).Some? && n - (i + 3 + w) <= |EtaAt(s, i).value|
              && s[i + 3 + w..n] <= EtaAt(s, i).value
  {
    if EtaAt(s, i).Some? {
      var j := RunEnd(s, i + 3, IsSpace);
      var n := RunEnd(s, j, IsEtaChar);
      assert EtaMatch(s, i, j - (i + 3), n);
      assert EtaCaptures(s, i, j - (i + 3), EtaAt(s, i).value);
    }
    forall w: nat, n: nat | EtaMatch(s, i, w, n)
      ensures EtaAt(s, i).Some? && n - (i + 3 + w) <= |EtaAt(s, i).value|
      ensures s[i + 3 + w..n] <= EtaAt(s, i).value
    {
      var j := i + 3 + w;
      assert !IsSpace(s[j]);
      RunEndAt(s, i + 3, IsSpace, j);
      var n0 := RunEnd(s, j, IsEtaChar);
    }
  }

  // ---------------------------------------------------------------
  // Leftmost search and one line's progress fields
  // ---------------------------------------------------------------

  /** re.search from position `i`: the result of the first position at which
      the anchored matcher `at` succeeds. */
  function Search<T>(s: string, at: (string, nat) -> Option<T>, i: nat): Option<T>
    requires i <= |s|
    decreases |s| - i
  {
    if at(s, i).Some? then at(s, i)
    else if i == |s| then None
    else Search(s, at, i + 1)
  }

  /** Search finds nothing exactly when no position matches, and otherwise
      the result of the leftmost position that does. */
  lemma {:induction false} SearchIsLeftmost<T>(s: string, at: (string, nat) -> Option<T>, i: nat)
    requires i <= |s|
    ensures Search(s, at, i).None? <==> forall k | i <= k <= |s| :: at(s, k).None?
    ensures Search(s, at, i).Some? ==>
              exists k | i <= k <= |s| :: at(s, k) == Search(s, at, i) && forall k' | i <= k' < k :: at(s, k').None?
    decreases |s| - i
  {
    if at(s, i).None? && i < |s| {
      SearchIsLeftmost(s, at, i + 1);
      if Search(s, at, i).Some? {
        var k :| i + 1 <= k <= |s| && at(s, k) == Search(s, at, i + 1) && forall k' | i + 1 <= k' < k :: at(s, k').None?;
        assert forall k' | i <= k' < k :: at(s, k').None?;
      }
    }
  }

  /** The three optional fields the download loop reads off one stripped
      line (main.py:287-301). */
  datatype Fields = Fields(percent: Option<nat>, speed: Option<string>, eta: Option<string>)

  function LineFields(line: string): (r: Fields)
    ensures r.percent.Some? ==> r.percent.value <= 9999
  {
    var percent := Search(line, PercentAt, 0);
    SearchIsLeftmost(line, PercentAt, 0);
    Fields(percent, Search(line, SpeedAt, 0), Search(line, EtaAt, 0))
  }

  /** The progress pattern matches starting at `i`. */
  ghost predicate PercentMatchesAt(s: string, i: nat) {
    exists w: nat, d: nat :: PercentMatch(s, i, w, d)
  }

  /** A percentage is reported exactly when the progress pattern matches
      somewhere in the line. */
  lemma PercentIffMatch(line: string)
    ensures LineFields(line).percent.Some? <==> exists i: nat | i <= |line| :: PercentMatchesAt(line, i)
  {
    SearchIsLeftmost(line, PercentAt, 0);
    forall i: nat | i <= |line| ensures PercentAt(line, i).Some? <==> PercentMatchesAt(line, i) {
      PercentAtIsRegex(line, i);
    }
  }

  /** The progress pattern matches at `i` and at no earlier position, and
      every way it matches at `i` captures the value `v`. */
  ghost predicate LeftmostPercent(line: string, i: nat, v: nat) {
    && PercentMatchesAt(line, i)
    && (forall k: nat | k < i :: !PercentMatchesAt(line, k))
    && forall w: nat, d: nat | PercentMatch(line, i, w, d) ::
         AllDigits(line[i + 10 + w..i + 10 + w + d]) && v == PercentValue(line, i + 10 + w, d)
  }

  /** A reported percentage is the value captured by the leftmost match of
      the progress pattern. */
  lemma PercentIsLeftmostMatch(line: string)
    requires LineFields(line).percent.Some?
    ensures exists i: nat | i <= |line| :: LeftmostPercent(line, i, LineFields(line).percent.value)
  {
    var r := Search(line, PercentAt, 0);
    assert LineFields(line).percent == r;
    SearchIsLeftmost(line, PercentAt, 0);
    var i: nat :| i <= |line| && PercentAt(line, i) == r && forall k' | 0 <= k' < i :: PercentAt(line, k').None?;
    PercentAtIsRegex(line, i);
    NoMatchBefore(line, i);
    assert LeftmostPercent(line, i, r.value);
  }

  lemma NoMatchBefore(line: string, i: nat)
    requires forall k' | 0 <= k' < i :: PercentAt(line, k').None?
    ensures forall k: nat | k < i :: !PercentMatchesAt(line, k)
  {
    forall k: nat | k < i ensures !PercentMatchesAt(line, k) {
      PercentAtIsRegex(line, k);
    }
  }

  /** A line reporting more than a hundred percent. */
  const OverFull: string := "[download] 150.0%"

  lemma OverFullMatches()
    ensures PercentMatch(OverFull, 0, 1, 3)
    ensures OverFull[11..14] == "150" && OverFull[15] == '0'
  {
    assert OverFull[0..10] == "[download]";
    assert Within(OverFull, 10, 11, IsSpace);
    assert Within(OverFull, 11, 14, IsDigit);
  }

  lemma ParseOneFifty()
    ensures AllDigits("150") && ParseDigits("150") == 150
  {
    assert "150"[..2] == "15";
    assert "15"[..1] == "1";
  }

  /** The percentage is not clamped: a line reporting 150.0% gives 1500
      tenths. This is one instance of PercentAtIsRegex, which gives the
      captured digits as the value for every line, with no bound at 100. */
  lemma PercentNotClamped()
    ensures LineFields(OverFull).percent == Some(1500)
  {
    OverFullMatches();
    PercentMatchFound(OverFull, 0, 1, 3);
    ParseOneFifty();
    assert PercentAt(OverFull, 0) == Some(1500);
  }
}
