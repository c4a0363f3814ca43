/** The yt-dlp format-selector builders, the resolution label lookup and the
    YouTube URL check (main.py, "Format selector helpers" and "Utility"). */
module Selectors {
  import opened Wrappers
  import opened Text

  /** ALLOWED_FORMATS. */
  const AllowedFormats: seq<string> := ["mp4", "mkv", "webm", "m4a"]

  /** build_format_selector_for_format_and_res: a fixed selector per known
      container; the resolution label is never consulted, and mp4 is capped at
      1080p whatever label was chosen. */
  function FormatSelectorForFormatAndRes(targetFormat: string, resolutionLabel: string): (r: string)
    ensures targetFormat !in AllowedFormats <==> r == "best"
    ensures targetFormat == "mp4" ==> Contains(r, "height<=?1080")
  {
    if targetFormat == "mp4" then
      // bestvideo[ext=mp4][height<=?1080]+bestaudio[ext=m4a]/best
      ContainsMiddle("bestvideo[ext=mp4][", "height<=?1080", "]+bestaudio[ext=m4a]/best");
      "bestvideo[ext=mp4][" + "height<=?1080" + "]+bestaudio[ext=m4a]/best"
    else if targetFormat == "m4a" then "bestaudio[ext=m4a]/bestaudio"
    else if targetFormat == "webm" then "bestvideo[ext=webm]+bestaudio[ext=webm]/best"
    else if targetFormat == "mkv" then "bestvideo[ext=mkv]+bestaudio/best"
    else "best"
  }

  /** The resolution argument does not influence the single-download selector. */
  lemma SelectorIgnoresResolution(targetFormat: string, a: string, b: string)
    ensures FormatSelectorForFormatAndRes(targetFormat, a) == FormatSelectorForFormatAndRes(targetFormat, b)
  {
  }

  /** resolution_to_height: the four labels of the mapping give their
      height, every other label (including "Best Available") gives None. */
  function ResolutionToHeight(resLabel: string): (r: Option<nat>)
    ensures r.Some? <==> resLabel in ["2160p", "1440p", "1080p", "720p"]
    ensures r.Some? ==> r.value > 0
  {
    if resLabel == "2160p" then Some(2160)
    else if resLabel == "1440p" then Some(1440)
    else if resLabel == "1080p" then Some(1080)
    else if resLabel == "720p" then Some(720)
    else None
  }

  /** The height printed back with a "p" suffix is the label itself. */
  lemma HeightPrintsAsLabel(resLabel: string)
    requires ResolutionToHeight(resLabel).Some?
    ensures resLabel == NatToString(ResolutionToHeight(resLabel).value) + "p"
  {
    if resLabel == "2160p" {
      Prints2160();
    } else if resLabel == "1440p" {
      Prints1440();
    } else if resLabel == "1080p" {
      Prints1080();
    } else {
      Prints720();
    }
  }

  lemma Prints2160() ensures NatToString(2160) + "p" == "2160p" {
    assert NatToString(216) == "216";
  }

  lemma Prints1440() ensures NatToString(1440) + "p" == "1440p" {
    assert NatToString(144) == "144";
  }

  lemma Prints1080() ensures NatToString(1080) + "p" == "1080p" {
    assert NatToString(108) == "108";
  }

  lemma Prints720() ensures NatToString(720) + "p" == "720p" {
    assert NatToString(72) == "72";
  }

  /** The text `height<=H]` of a selector's height filter and its closing bracket. */
  function HeightFilter(h: nat): string {
    "height<=" + NatToString(h) + "]"
  }

  /** build_batch_format_selector: the height looked up from the label
      decides between the capped and the uncapped selectors. */
  function BatchFormatSelector(targetFormat: string, maxResolutionLabel: string): string {
    SelectorForHeight(targetFormat, ResolutionToHeight(maxResolutionLabel))
  }

  /** The body of build_batch_format_selector once the height is known
      (`if height:` is false for None; every mapped height is positive). */
  function SelectorForHeight(targetFormat: string, height: Option<nat>): string {
    match height
    case Some(h) =>
      var filter := HeightFilter(h);
      if targetFormat == "mp4" then
        // bestvideo[height<=H][ext=mp4]+bestaudio[ext=m4a]/best[height<=H]
        "bestvideo[" + filter + "[" + "ext=mp4" + "]+bestaudio[" + "ext=m4a" + "]/best[" + filter
      else
        "bestvideo[" + filter + "+bestaudio/best[" + filter
    case None =>
      // bestvideo[ext=mp4]+bestaudio[ext=m4a]/best
      if targetFormat == "mp4" then "bestvideo[" + "ext=mp4" + "]+bestaudio[" + "ext=m4a" + "]/best"
      else "bestvideo+bestaudio/best"
  }

  /** A capped selector starts its video stream with `height<=H]` and ends
      with the same filter on the single-file fallback. */
  lemma CappedSelectorFilter(targetFormat: string, h: nat)
    ensures var r := SelectorForHeight(targetFormat, Some(h));
            var f := HeightFilter(h);
            Contains(r, "height<=") && StartsWith(r, "bestvideo[" + f)
            && |f| <= |r| && r[|r| - |f|..] == f
  {
    var f := HeightFilter(h);
    FilterNamesHeight(h);
    if targetFormat == "mp4" {
      var rest := "[" + "ext=mp4" + "]+bestaudio[" + "ext=m4a" + "]/best[";
      assert "bestvideo[" + f + "[" + "ext=mp4" + "]+bestaudio[" + "ext=m4a" + "]/best[" + f
          == "bestvideo[" + f + rest + f;
      FilterFramed("bestvideo[", f, rest);
    } else {
      FilterFramed("bestvideo[", f, "+bestaudio/best[");
    }
  }

  lemma FilterNamesHeight(h: nat)
    ensures Contains(HeightFilter(h), "height<=")
  {
    var f := HeightFilter(h);
    assert f[0..8] == "height<=";
    assert OccursAt(f, "height<=", 0);
  }

  /** A filter `f` that opens and closes `pre + f + rest + f`. */
  lemma FilterFramed(pre: string, f: string, rest: string)
    requires Contains(f, "height<=")
    ensures var r := pre + f + rest + f;
            Contains(r, "height<=") && StartsWith(r, pre + f)
            && |f| <= |r| && r[|r| - |f|..] == f
  {
    var r := pre + f + rest + f;
    assert r == pre + f + (rest + f);
    ContainsInside(pre, f, rest + f, "height<=");
    assert r[..|pre + f|] == pre + f;
  }

  /** An uncapped selector has no height filter at all. */
  lemma UncappedSelectorHasNoFilter(targetFormat: string)
    ensures !Contains(SelectorForHeight(targetFormat, None), "height<=")
  {
    var r := SelectorForHeight(targetFormat, None);
    if targetFormat == "mp4" {
      NoLetterH("bestvideo[", "ext=mp4", "]+bestaudio[", "ext=m4a", "]/best");
    } else {
      NoLetterH("bestvideo", "+", "bestaudio", "/", "best");
      assert r == "bestvideo" + "+" + "bestaudio" + "/" + "best";
    }
    NotContainedWithoutFirstChar(r, "height<=");
  }

  lemma NoLetterH(a: string, b: string, c: string, d: string, e: string)
    requires 'h' !in a && 'h' !in b && 'h' !in c && 'h' !in d && 'h' !in e
    ensures 'h' !in a + b + c + d + e
  {
  }

  /** The batch selector carries a height filter exactly when the label maps to
      a height H, and the filter it then carries is `height<=H`, both on the
      video stream and on the single-file fallback. */
  lemma BatchHeightFilter(targetFormat: string, resLabel: string)
    ensures Contains(BatchFormatSelector(targetFormat, resLabel), "height<=")
            <==> ResolutionToHeight(resLabel).Some?
    ensures ResolutionToHeight(resLabel).Some? ==>
              var f := HeightFilter(ResolutionToHeight(resLabel).value);
              var r := BatchFormatSelector(targetFormat, resLabel);
              StartsWith(r, "bestvideo[" + f) && |f| <= |r| && r[|r| - |f|..] == f
  {
    var height := ResolutionToHeight(resLabel);
    if height.Some? {
      CappedSelectorFilter(targetFormat, height.value);
    } else {
      UncappedSelectorHasNoFilter(targetFormat);
    }
  }

  /** A capped mp4 selector filters both streams by container. */
  lemma CappedMp4Filters(h: nat)
    ensures Contains(SelectorForHeight("mp4", Some(h)), "ext=mp4")
    ensures Contains(SelectorForHeight("mp4", Some(h)), "ext=m4a")
  {
    var f := HeightFilter(h);
    ContainsBoth("bestvideo[" + f + "[", "ext=mp4", "]+bestaudio[", "ext=m4a", "]/best[", f);
  }

  /** A string built as a + x + b + y + c + d contains both x and y. */
  lemma ContainsBoth(a: string, x: string, b: string, y: string, c: string, d: string)
    ensures Contains(a + x + b + y + c + d, x) && Contains(a + x + b + y + c + d, y)
  {
    var r := a + x + b + y + c + d;
    assert r == a + x + (b + y + c + d);
    ContainsMiddle(a, x, b + y + c + d);
    assert r == (a + x + b) + y + (c + d);
    ContainsMiddle(a + x + b, y, c + d);
  }

  /** A capped selector for any other format names neither container. */
  lemma CappedGenericHasNoContainer(targetFormat: string, h: nat)
    requires targetFormat != "mp4"
    ensures !Contains(SelectorForHeight(targetFormat, Some(h)), "mp4")
    ensures !Contains(SelectorForHeight(targetFormat, Some(h)), "m4a")
  {
    var f := HeightFilter(h);
    NoLetterMInFilter(h);
    var r := SelectorForHeight(targetFormat, Some(h));
    assert r == "bestvideo[" + f + "+bestaudio/best[" + f;
    assert 'm' !in "bestvideo[" && 'm' !in "+bestaudio/best[";
    assert 'm' !in r;
    NotContainedWithoutFirstChar(r, "mp4");
    NotContainedWithoutFirstChar(r, "m4a");
  }

  lemma NoLetterMInFilter(h: nat)
    ensures 'm' !in HeightFilter(h)
  {
    var hs := NatToString(h);
    assert 'm' !in hs by {
      forall k | 0 <= k < |hs| ensures hs[k] != 'm' { assert IsDigit(hs[k]); }
    }
    assert 'm' !in "height<=" && 'm' !in "]";
  }

  /** Without a height, only mp4 names the mp4/m4a containers. */
  lemma UncappedContainerFilters(targetFormat: string)
    ensures targetFormat == "mp4" ==>
              Contains(SelectorForHeight(targetFormat, None), "ext=mp4")
              && Contains(SelectorForHeight(targetFormat, None), "ext=m4a")
    ensures targetFormat != "mp4" ==>
              !Contains(SelectorForHeight(targetFormat, None), "mp4")
              && !Contains(SelectorForHeight(targetFormat, None), "m4a")
  {
    var r := SelectorForHeight(targetFormat, None);
    if targetFormat == "mp4" {
      ContainsBoth("bestvideo[", "ext=mp4", "]+bestaudio[", "ext=m4a", "]/best", "");
      assert r == "bestvideo[" + "ext=mp4" + "]+bestaudio[" + "ext=m4a" + "]/best" + "";
    } else {
      assert 'm' !in r;
      NotContainedWithoutFirstChar(r, "mp4");
      NotContainedWithoutFirstChar(r, "m4a");
    }
  }

  /** Only mp4 gets the `ext=mp4` / `ext=m4a` stream filters in batch mode;
      every other format, m4a included, gets the generic selector, which names
      neither container. */
  lemma BatchContainerFilters(targetFormat: string, resLabel: string)
    ensures targetFormat == "mp4" ==>
              Contains(BatchFormatSelector(targetFormat, resLabel), "ext=mp4")
              && Contains(BatchFormatSelector(targetFormat, resLabel), "ext=m4a")
    ensures targetFormat != "mp4" ==>
              !Contains(BatchFormatSelector(targetFormat, resLabel), "mp4")
              && !Contains(BatchFormatSelector(targetFormat, resLabel), "m4a")
  {
    var height := ResolutionToHeight(resLabel);
    if height.Some? {
      if targetFormat == "mp4" {
        CappedMp4Filters(height.value);
      } else {
        CappedGenericHasNoContainer(targetFormat, height.value);
      }
    } else {
      UncappedContainerFilters(targetFormat);
    }
  }

  // ---------------------------------------------------------------------
  // is_youtube_url: YOUTUBE_URL_RE.match(url.strip()) with the pattern
  // (https?://)?(www\.)?(youtube\.com|youtu\.be)/.+ and re.IGNORECASE.
  // ---------------------------------------------------------------------

  /** Case folding under re.IGNORECASE, as far as the pattern's letters are
      concerned: A-Z fold to a-z, and LATIN SMALL LETTER LONG S folds to s. */
  function FoldChar(c: char): (r: char)
    ensures r == LowerChar(c) || (c == '\U{17f}' && r == 's')
  {
    if c == '\U{17f}' then 's' else LowerChar(c)
  }

  predicate StartsWithIgnoreCase(s: string, prefix: string) {
    |prefix| <= |s| && forall k :: 0 <= k < |prefix| ==> FoldChar(s[k]) == FoldChar(prefix[k])
  }

  /** Length matched by the optional group (https?://). */
  function SchemeLength(s: string): (n: nat)
    ensures n in {0, 7, 8}
  {
    if StartsWithIgnoreCase(s, "https://") then 8
    else if StartsWithIgnoreCase(s, "http://") then 7
    else 0
  }

  /** Length matched by the optional group (www\.). */
  function WwwLength(s: string): (n: nat)
    ensures n in {0, 4}
  {
    if StartsWithIgnoreCase(s, "www.") then 4 else 0
  }

  /** (youtube\.com|youtu\.be)/.+ at the start of `s`: the host, a slash and
      at least one character other than a newline. */
  predicate HostAndPath(s: string) {
    || (StartsWithIgnoreCase(s, "youtube.com/") && |s| > 12 && s[12] != '\n')
    || (StartsWithIgnoreCase(s, "youtu.be/") && |s| > 9 && s[9] != '\n')
  }

  /** is_youtube_url, matching the pattern group by group. No group can give
      back what it matched to let a later group succeed (each alternative
      starts with a letter the others cannot start with), so this is the
      only parse the regex engine can find. */
  predicate IsYoutubeUrl(url: string) {
    ParsesAsYoutube(Strip(url))
  }

  /** The alternatives of the three groups of the pattern. */
  function Scheme(i: nat): string requires i < 3 {
    if i == 0 then "" else if i == 1 then "http://" else "https://"
  }

  function Www(j: nat): string requires j < 2 {
    if j == 0 then "" else "www."
  }

  function Host(k: nat): string requires k < 2 {
    if k == 0 then "youtube.com/" else "youtu.be/"
  }

  /** One of the twelve literal prefixes the pattern stands for. */
  function Prefix(i: nat, j: nat, k: nat): string
    requires i < 3 && j < 2 && k < 2
  {
    Scheme(i) + Www(j) + Host(k)
  }

  /** Reference reading of the regex: the stripped URL starts, ignoring case,
      with one of the twelve prefixes and then has a non-newline character. */
  predicate MatchesSomePrefix(s: string) {
    exists i: nat, j: nat, k: nat | i < 3 && j < 2 && k < 2 :: PrefixThenLine(s, Prefix(i, j, k))
  }

  /** `s` starts with `prefix` (ignoring case) and then `.` matches once more. */
  predicate PrefixThenLine(s: string, prefix: string) {
    StartsWithIgnoreCase(s, prefix) && |s| > |prefix| && s[|prefix|] != '\n'
  }

  lemma StartsWithIgnoreCaseConcat(s: string, x: string, y: string)
    ensures StartsWithIgnoreCase(s, x + y)
            <==> StartsWithIgnoreCase(s, x) && StartsWithIgnoreCase(s[|x|..], y)
  {
    if StartsWithIgnoreCase(s, x) && StartsWithIgnoreCase(s[|x|..], y) {
      forall k | 0 <= k < |x + y| ensures FoldChar(s[k]) == FoldChar((x + y)[k]) {
        if k >= |x| {
          assert s[|x|..][k - |x|] == s[k];
        }
      }
    }
    if StartsWithIgnoreCase(s, x + y) {
      forall k | 0 <= k < |y| ensures FoldChar(s[|x|..][k]) == FoldChar(y[k]) {
        assert (x + y)[|x| + k] == y[k];
      }
    }
  }

  /** The group-by-group parse of a stripped URL. */
  predicate ParsesAsYoutube(s: string) {
    var a := SchemeLength(s);
    HostAndPath(s[a + WwwLength(s[a..])..])
  }

  /** The group-by-group parse succeeds exactly when one of the twelve
      prefixes, followed by a character other than a newline, starts the
      stripped URL. */
  lemma IsYoutubeUrlMeansPrefix(url: string)
    ensures IsYoutubeUrl(url) <==> MatchesSomePrefix(Strip(url))
  {
    var s := Strip(url);
    if ParsesAsYoutube(s) {
      ParseGivesPrefix(s);
    }
    if MatchesSomePrefix(s) {
      var i: nat, j: nat, k: nat :| i < 3 && j < 2 && k < 2 && PrefixThenLine(s, Prefix(i, j, k));
      PrefixGivesParse(s, i, j, k);
    }
  }

  lemma ParseGivesPrefix(s: string)
    requires ParsesAsYoutube(s)
    ensures MatchesSomePrefix(s)
  {
    var a := SchemeLength(s);
    var b := a + WwwLength(s[a..]);
    assert s[a..][WwwLength(s[a..])..] == s[b..];
    var i := SchemeTaken(s);
    var j := WwwTaken(s[a..]);
    var k := HostTaken(s[b..]);
    StartsWithIgnoreCaseConcat(s, Scheme(i), Www(j));
    StartsWithIgnoreCaseConcat(s, Scheme(i) + Www(j), Host(k));
    assert |Scheme(i) + Www(j)| == b;
    assert s[b..][|Host(k)|] == s[|Prefix(i, j, k)|];
    assert PrefixThenLine(s, Prefix(i, j, k));
  }

  /** The scheme alternative the optional scheme group takes. */
  lemma SchemeTaken(s: string) returns (i: nat)
    ensures i < 3 && |Scheme(i)| == SchemeLength(s) && StartsWithIgnoreCase(s, Scheme(i))
  {
    var a := SchemeLength(s);
    i := if a == 0 then 0 else if a == 7 then 1 else 2;
  }

  /** The www alternative the optional www group takes. */
  lemma WwwTaken(s: string) returns (j: nat)
    ensures j < 2 && |Www(j)| == WwwLength(s) && StartsWithIgnoreCase(s, Www(j))
  {
    j := if WwwLength(s) == 0 then 0 else 1;
  }

  /** The host alternative that matches, followed by one more character. */
  lemma HostTaken(s: string) returns (k: nat)
    requires HostAndPath(s)
    ensures k < 2 && StartsWithIgnoreCase(s, Host(k)) && |s| > |Host(k)| && s[|Host(k)|] != '\n'
  {
    k := if StartsWithIgnoreCase(s, "youtube.com/") && |s| > 12 && s[12] != '\n' then 0 else 1;
  }

  lemma PrefixGivesParse(s: string, i: nat, j: nat, k: nat)
    requires i < 3 && j < 2 && k < 2 && PrefixThenLine(s, Prefix(i, j, k))
    ensures ParsesAsYoutube(s)
  {
    var x, y, z := Scheme(i), Www(j), Host(k);
    assert Prefix(i, j, k) == x + (y + z);
    StartsWithIgnoreCaseConcat(s, x, y + z);
    SchemeFound(s, i, y + z);
    var t := s[|x|..];
    StartsWithIgnoreCaseConcat(t, y, z);
    WwwFound(t, j, z);
    var u := t[|y|..];
    assert u[|z|] == s[|Prefix(i, j, k)|];
    HostFound(u, k);
  }

  /** A host alternative followed by one more character is the host and
      path group. */
  lemma HostFound(t: string, k: nat)
    requires k < 2 && StartsWithIgnoreCase(t, Host(k)) && |t| > |Host(k)| && t[|Host(k)|] != '\n'
    ensures HostAndPath(t)
  {
  }

  /** The optional scheme group takes exactly the scheme a prefix starts with. */
  lemma SchemeFound(s: string, i: nat, rest: string)
    requires i < 3 && rest != [] && (rest[0] == 'w' || rest[0] == 'y')
    requires StartsWithIgnoreCase(s, Scheme(i) + rest)
    ensures SchemeLength(s) == |Scheme(i)|
  {
    StartsWithIgnoreCaseConcat(s, Scheme(i), rest);
    assert FoldChar(s[|Scheme(i)|]) == FoldChar(rest[0]);
    if i == 1 {
      assert FoldChar(s[4]) == ':';
    }
  }

  /** The optional www group takes exactly the www part a prefix has. */
  lemma WwwFound(s: string, j: nat, host: string)
    requires j < 2 && host != [] && host[0] == 'y'
    requires StartsWithIgnoreCase(s, Www(j) + host)
    ensures WwwLength(s) == |Www(j)|
  {
    StartsWithIgnoreCaseConcat(s, Www(j), host);
    assert FoldChar(s[|Www(j)|]) == FoldChar(host[0]);
  }
}
