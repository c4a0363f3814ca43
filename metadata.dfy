/** The text handling around `yt-dlp --dump-json` (fetch_metadata_via_yt_dlp,
    main.py:217-243), the resolution list built from the fetched formats
    (main.py:1310-1320) and the checks that decide whether an error is shown
    as "age-restricted or members-only" (main.py:1365, 1846). The
    process run is modelled by its outcome and json.loads is left opaque: a
    successful fetch yields the text handed to it. */
module Metadata {
  import opened Wrappers
  import opened Text
  import Supervisor

  // ---------------------------------------------------------------
  // Error messages
  // ---------------------------------------------------------------

  const MissingBinaryMessage: string := "yt-dlp.exe not found in Assets/"
  const TimeoutMessage: string := "yt-dlp timed out while fetching metadata"
  const FetchFailedMessage: string := "yt-dlp failed to fetch metadata"
  const NoMetadataMessage: string := "No metadata returned by yt-dlp"
  const MetaRestrictedMessage: string :=
    "This video is " + "age-restricted" + " or members-only and requires sign-in. Clipster cannot download it."

  /** The markers fetch_metadata_via_yt_dlp looks for in yt-dlp's error
      output (main.py:227). */
  predicate StderrRestricted(text: string) {
    || Contains(text, "Sign in to confirm your age")
    || Contains(text, "members-only")
    || Contains(text, "This video is only available for members")
  }

  /** The check the window applies to an error text (main.py:1365, 1846):
      any of three markers in its lower-cased form. */
  predicate IsRestrictedError(err: string) {
    var low := Lower(err);
    Contains(low, "age-restricted") || Contains(low, "sign in to confirm your age") || Contains(low, "members-only")
  }

  /** The error text of a run that exited with a non-zero code: the stripped
      error output, or the stripped standard output when that is empty,
      replaced by the fixed message when it carries a restricted marker and
      by a generic one when there is nothing at all. */
  function NonzeroExitError(stdout: string, stderr: string): (msg: string)
    ensures msg != []
    ensures var se := if Strip(stderr) != [] then Strip(stderr) else Strip(stdout);
            && (StderrRestricted(se) ==> msg == MetaRestrictedMessage)
            && (!StderrRestricted(se) && se != [] ==> msg == se)
            && (se == [] ==> msg == FetchFailedMessage)
  {
    var se := if Strip(stderr) != [] then Strip(stderr) else Strip(stdout);
    if StderrRestricted(se) then MetaRestrictedMessage
    else if se != [] then se
    else FetchFailedMessage
  }

  // ---------------------------------------------------------------
  // str.splitlines()
  // ---------------------------------------------------------------

  /** The line boundaries of str.splitlines(). */
  predicate IsLineBreak(c: char) {
    || ('\n' <= c <= '\r')                     // \n \v \f \r
    || ('\U{1c}' <= c <= '\U{1e}')
    || c == '\U{85}' || c == '\U{2028}' || c == '\U{2029}'
  }

  predicate NoLineBreak(s: string) {
    forall k | 0 <= k < |s| :: !IsLineBreak(s[k])
  }

  /** Length of the text before the first line boundary. */
  function LineLength(s: string): (n: nat)
    ensures n <= |s|
    ensures n < |s| ==> IsLineBreak(s[n])
  {
    if s == [] || IsLineBreak(s[0]) then 0 else 1 + LineLength(s[1..])
  }

  lemma {:induction false} LineHasNoBreak(s: string)
    ensures NoLineBreak(s[..LineLength(s)])
    decreases |s|
  {
    if s != [] && !IsLineBreak(s[0]) {
      LineHasNoBreak(s[1..]);
      var n := LineLength(s);
      var t := s[..n];
      forall k | 0 <= k < |t| ensures !IsLineBreak(t[k]) {
        if k > 0 {
          assert t[k] == s[1..][..n - 1][k - 1];
        }
      }
    }
  }

  /** Length of the line boundary at the start of `s`: "\r\n" is one. */
  function BreakLength(s: string): (n: nat)
    requires s != [] && IsLineBreak(s[0])
    ensures 1 <= n <= |s|
  {
    if s[0] == '\r' && |s| >= 2 && s[1] == '\n' then 2 else 1
  }

  /** str.splitlines(): the text between boundaries, "\r\n" counting as one
      boundary and a boundary at the very end giving no empty last line. */
  function SplitLines(s: string): seq<string>
    decreases |s|
  {
    if s == [] then []
    else
      var n := LineLength(s);
      if n == |s| then [s]
      else [s[..n]] + SplitLines(s[n + BreakLength(s[n..])..])
  }

  /** `s` without its line boundaries. */
  function RemoveBreaks(s: string): string {
    if s == [] then []
    else (if IsLineBreak(s[0]) then [] else [s[0]]) + RemoveBreaks(s[1..])
  }

  function Concat(lines: seq<string>): string {
    if lines == [] then [] else lines[0] + Concat(lines[1..])
  }

  lemma {:induction false} RemoveBreaksAppend(a: string, b: string)
    ensures RemoveBreaks(a + b) == RemoveBreaks(a) + RemoveBreaks(b)
    decreases |a|
  {
    if a != [] {
      assert (a + b)[0] == a[0];
      assert (a + b)[1..] == a[1..] + b;
      RemoveBreaksAppend(a[1..], b);
    } else {
      assert a + b == b;
    }
  }

  lemma {:induction false} RemoveBreaksNone(s: string)
    requires NoLineBreak(s)
    ensures RemoveBreaks(s) == s
    decreases |s|
  {
    if s != [] {
      RemoveBreaksNone(s[1..]);
    }
  }

  /** The boundary after each line of splitlines(): a line break or "\r\n",
      or nothing after a last line that runs to the end of the text. */
  function Boundaries(s: string): seq<string>
    decreases |s|
  {
    if s == [] then []
    else
      var n := LineLength(s);
      if n == |s| then [[]]
      else [s[n..n + BreakLength(s[n..])]] + Boundaries(s[n + BreakLength(s[n..])..])
  }

  predicate IsBoundary(b: string) {
    b == "\r\n" || (|b| == 1 && IsLineBreak(b[0]))
  }

  /** Each line followed by its boundary. */
  function Interleave(lines: seq<string>, seps: seq<string>): string
    requires |lines| == |seps|
  {
    if lines == [] then [] else lines[0] + seps[0] + Interleave(lines[1..], seps[1..])
  }

  /** The text is its lines, each followed by a line boundary, except that
      the last one may run to the end of the text: so splitlines() cuts at
      the boundaries and nowhere else. */
  lemma {:induction false} SplitLinesAtBoundaries(s: string)
    ensures var lines, seps := SplitLines(s), Boundaries(s);
            && |seps| == |lines| && Interleave(lines, seps) == s
            && forall k | 0 <= k < |seps| :: IsBoundary(seps[k]) || (k == |seps| - 1 && seps[k] == [])
    decreases |s|
  {
    if s != [] {
      var n := LineLength(s);
      if n == |s| {
        assert Interleave([s], [[]]) == s + [] + [];
      } else {
        var b := BreakLength(s[n..]);
        var rest := s[n + b..];
        SplitLinesAtBoundaries(rest);
        var lines, seps := SplitLines(s), Boundaries(s);
        var r, t := SplitLines(rest), Boundaries(rest);
        SplitStep(s);
        InterleaveCons(s[..n], s[n..n + b], r, t);
        ThreeParts(s, n, n + b);
        BreakIsBoundary(s, n);
        forall k | 0 <= k < |seps| ensures IsBoundary(seps[k]) || (k == |seps| - 1 && seps[k] == []) {
          if k > 0 {
            assert seps[k] == t[k - 1];
          }
        }
      }
    }
  }

  /** One step of splitlines() and of its boundaries. */
  lemma {:induction false} SplitStep(s: string)
    requires LineLength(s) < |s|
    ensures var n := LineLength(s);
            var b := BreakLength(s[n..]);
            && SplitLines(s) == [s[..n]] + SplitLines(s[n + b..])
            && Boundaries(s) == [s[n..n + b]] + Boundaries(s[n + b..])
  {
  }

  lemma ThreeParts<T>(s: seq<T>, i: nat, j: nat)
    requires i <= j <= |s|
    ensures s == s[..i] + s[i..j] + s[j..]
  {
  }

  lemma InterleaveCons(x: string, y: string, r: seq<string>, t: seq<string>)
    requires |r| == |t|
    ensures Interleave([x] + r, [y] + t) == x + y + Interleave(r, t)
  {
    assert ([x] + r)[1..] == r && ([y] + t)[1..] == t;
  }

  lemma BreakIsBoundary(s: string, n: nat)
    requires n < |s| && IsLineBreak(s[n])
    ensures IsBoundary(s[n..n + BreakLength(s[n..])])
  {
    var b := BreakLength(s[n..]);
    if b == 2 {
      assert s[n..n + b] == [s[n], s[n + 1]] == "\r\n";
    } else {
      assert s[n..n + b] == [s[n]];
    }
  }

  /** No line that splitlines() gives has a boundary in it. */
  lemma {:induction false} SplitLinesHaveNoBreak(s: string)
    ensures forall k | 0 <= k < |SplitLines(s)| :: NoLineBreak(SplitLines(s)[k])
    decreases |s|
  {
    if s != [] {
      var n := LineLength(s);
      LineHasNoBreak(s);
      if n < |s| {
        var rest := s[n + BreakLength(s[n..])..];
        SplitLinesHaveNoBreak(rest);
        var lines := SplitLines(s);
        assert lines == [s[..n]] + SplitLines(rest);
        forall k | 0 <= k < |lines| ensures NoLineBreak(lines[k]) {
          if k > 0 {
            assert lines[k] == SplitLines(rest)[k - 1];
          }
        }
      }
    }
  }

  lemma RemoveBreaksOfBreak(s: string)
    requires s != [] && IsLineBreak(s[0])
    ensures RemoveBreaks(s[..BreakLength(s)]) == []
  {
    var t := s[..BreakLength(s)];
    assert t[0] == s[0];
    if |t| == 2 {
      assert t[1..] == [s[1]];
      assert IsLineBreak(s[1]);
      assert RemoveBreaks([s[1]]) == [] + RemoveBreaks([]);
    } else {
      assert t[1..] == [];
    }
  }

  lemma ConcatCons(x: string, xs: seq<string>)
    ensures Concat([x] + xs) == x + Concat(xs)
  {
    assert ([x] + xs)[1..] == xs;
  }

  /** Splitting loses only the line boundaries: the lines, put back
      together, are the text with its boundaries removed. */
  lemma {:induction false} SplitLinesKeepsText(s: string)
    ensures Concat(SplitLines(s)) == RemoveBreaks(s)
    decreases |s|
  {
    if s != [] {
      var n := LineLength(s);
      if n == |s| {
        LineHasNoBreak(s);
        assert s[..n] == s;
        RemoveBreaksNone(s);
        ConcatCons(s, []);
      } else {
        var rest := s[n + BreakLength(s[n..])..];
        SplitLinesKeepsText(rest);
        var lines := SplitLines(s);
        assert lines == [s[..n]] + SplitLines(rest);
        assert lines[1..] == SplitLines(rest);
        LineHasNoBreak(s);
        LineThenBreak(s, n);
      }
    }
  }

  /** Removing the boundaries of a text whose first `n` characters are a
      line followed by a boundary leaves that line followed by the rest with
      its boundaries removed. */
  lemma LineThenBreak(s: string, n: nat)
    requires n < |s| && NoLineBreak(s[..n]) && IsLineBreak(s[n])
    ensures RemoveBreaks(s) == s[..n] + RemoveBreaks(s[n + BreakLength(s[n..])..])
  {
    var line, t := s[..n], s[n..];
    assert s == line + t;
    RemoveBreaksAppend(line, t);
    RemoveBreaksNone(line);
    RemoveBreaksAfterBreak(t);
    assert t[BreakLength(t)..] == s[n + BreakLength(t)..];
  }

  /** A line boundary at the start contributes nothing. */
  lemma RemoveBreaksAfterBreak(t: string)
    requires t != [] && IsLineBreak(t[0])
    ensures RemoveBreaks(t) == RemoveBreaks(t[BreakLength(t)..])
  {
    var b := BreakLength(t);
    assert t == t[..b] + t[b..];
    RemoveBreaksAppend(t[..b], t[b..]);
    RemoveBreaksOfBreak(t);
  }

  // ---------------------------------------------------------------
  // The JSON text of a fetch
  // ---------------------------------------------------------------

  predicate OpensJson(line: string) {
    StartsWith(Strip(line), "{")
  }

  /** `text` is what the fetch hands to json.loads for the output `out`: the
      first line whose stripped form starts with "{", or the whole output
      when there is none. */
  predicate IsJsonChoice(out: string, text: string) {
    var lines := SplitLines(out);
    || (exists i | 0 <= i < |lines| :: text == lines[i] && OpensJson(lines[i])
                                       && forall k | 0 <= k < i :: !OpensJson(lines[k]))
    || (text == out && forall k | 0 <= k < |lines| :: !OpensJson(lines[k]))
  }

  /** Only one text is the choice for a given output. */
  lemma JsonChoiceUnique(out: string, a: string, b: string)
    requires IsJsonChoice(out, a) && IsJsonChoice(out, b)
    ensures a == b
  {
    var lines := SplitLines(out);
    if i :| 0 <= i < |lines| && a == lines[i] && OpensJson(lines[i]) && forall k | 0 <= k < i :: !OpensJson(lines[k]) {
      if j :| 0 <= j < |lines| && b == lines[j] && OpensJson(lines[j]) && forall k | 0 <= k < j :: !OpensJson(lines[k]) {
        assert i == j;
      }
    }
  }

  /** The loop of main.py:233-238. */
  method SelectJsonText(out: string) returns (text: string)
    ensures IsJsonChoice(out, text)
  {
    var lines := SplitLines(out);
    var i := 0;
    while i < |lines|
      invariant 0 <= i <= |lines|
      invariant forall k | 0 <= k < i :: !OpensJson(lines[k])
    {
      if StartsWith(Strip(lines[i]), "{") {
        return lines[i];
      }
      i := i + 1;
    }
    return out;
  }

  /** How the `subprocess.run` call ended. */
  datatype FetchRun =
    | TimedOut
    | Completed(returnCode: int, stdout: string, stderr: string)

  /** fetch_metadata_via_yt_dlp up to json.loads: the text to parse, or the
      message of the error it raises. */
  method FetchMetadata(binaryPresent: bool, run: FetchRun) returns (r: Result<string, string>)
    ensures !binaryPresent ==> r == Err(MissingBinaryMessage)
    ensures binaryPresent && run.TimedOut? ==> r == Err(TimeoutMessage)
    ensures binaryPresent && run.Completed? && run.returnCode != 0
            ==> r == Err(NonzeroExitError(run.stdout, run.stderr))
    ensures binaryPresent && run.Completed? && run.returnCode == 0 && Strip(run.stdout) == []
            ==> r == Err(NoMetadataMessage)
    ensures r.Ok? <==> binaryPresent && run.Completed? && run.returnCode == 0 && Strip(run.stdout) != []
    ensures r.Ok? ==> IsJsonChoice(Strip(run.stdout), r.value)
    ensures r.Err? ==> r.error != []
  {
    if !binaryPresent {
      return Err(MissingBinaryMessage);
    }
    if run.TimedOut? {
      return Err(TimeoutMessage);
    }
    var out := Strip(run.stdout);
    if run.returnCode != 0 {
      return Err(NonzeroExitError(run.stdout, run.stderr));
    }
    if out == [] {
      return Err(NoMetadataMessage);
    }
    var text := SelectJsonText(out);
    return Ok(text);
  }

  // ---------------------------------------------------------------
  // Resolution choices
  // ---------------------------------------------------------------

  const BestAvailable: string := "Best Available"

  /** f"{h}p". */
  function Label(h: int): (l: string)
    ensures |l| >= 2 && l[|l| - 1] == 'p'
  {
    IntToString(h) + "p"
  }

  /** The sort key of a label: int(label.replace("p", "")). */
  function SortKey(text: string): Option<int> {
    ParseInt(RemoveChar(text, 'p'))
  }

  lemma {:induction false} RemoveCharAppend(a: string, b: string, c: char)
    ensures RemoveChar(a + b, c) == RemoveChar(a, c) + RemoveChar(b, c)
    decreases |a|
  {
    if a != [] {
      assert (a + b)[0] == a[0];
      assert (a + b)[1..] == a[1..] + b;
      RemoveCharAppend(a[1..], b, c);
    } else {
      assert a + b == b;
    }
  }

  /** The key of the label of `h` is `h` itself. */
  lemma SortKeyOfLabel(h: int)
    ensures SortKey(Label(h)) == Some(h)
  {
    var digits := IntToString(h);
    assert 'p' !in digits by {
      if h < 0 {
        assert digits == [digits[0]] + digits[1..];
      }
    }
    assert RemoveChar(digits, 'p') == digits;
    assert RemoveChar("p", 'p') == [];
    RemoveCharAppend(digits, "p", 'p');
    assert RemoveChar(Label(h), 'p') == digits;
    ParseIntToString(h);
  }

  /** The sort key as a total function; every label has one. */
  function KeyOf(text: string): int {
    match SortKey(text)
    case Some(k) => k
    case None => 0
  }

  lemma KeyOfLabel(h: int)
    ensures KeyOf(Label(h)) == h
  {
    SortKeyOfLabel(h);
  }

  /** No two elements of `ls` share a key. */
  ghost predicate DistinctKeys(ls: set<string>, key: string -> int) {
    forall a, b | a in ls && b in ls && key(a) == key(b) :: a == b
  }

  lemma {:induction false} MaxExists(ls: set<string>, key: string -> int)
    requires ls != {}
    ensures exists m | m in ls :: forall o | o in ls :: key(o) <= key(m)
    decreases |ls|
  {
    var x :| x in ls;
    if ls != {x} {
      MaxExists(ls - {x}, key);
      var y :| y in ls - {x} && forall o | o in ls - {x} :: key(o) <= key(y);
      if key(x) <= key(y) {
        assert forall o | o in ls :: key(o) <= key(y);
      } else {
        assert forall o | o in ls :: key(o) <= key(x);
      }
    }
  }

  /** The element with the greatest key, unique since keys are distinct. */
  function MaxByKey(ls: set<string>, key: string -> int): (m: string)
    requires ls != {} && DistinctKeys(ls, key)
    ensures m in ls && forall o | o in ls :: key(o) <= key(m)
  {
    MaxExists(ls, key);
    var m :| m in ls && forall o | o in ls :: key(o) <= key(m);
    m
  }

  /** sorted(ls, key=key, reverse=True) for elements with distinct keys. */
  function SortDescending(ls: set<string>, key: string -> int): (r: seq<string>)
    requires DistinctKeys(ls, key)
    ensures |r| == |ls|
    decreases |ls|
  {
    if ls == {} then []
    else
      var m := MaxByKey(ls, key);
      [m] + SortDescending(ls - {m}, key)
  }

  /** Sorting keeps exactly the elements of the set. */
  lemma {:induction false} SortDescendingElements(ls: set<string>, key: string -> int)
    requires DistinctKeys(ls, key)
    ensures forall l :: l in SortDescending(ls, key) <==> l in ls
    decreases |ls|
  {
    if ls != {} {
      var m := MaxByKey(ls, key);
      SortDescendingElements(ls - {m}, key);
    }
  }

  ghost predicate DescendingBy(r: seq<string>, key: string -> int) {
    forall i, j | 0 <= i < j < |r| :: key(r[i]) > key(r[j])
  }

  lemma ConsDescending(m: string, tail: seq<string>, key: string -> int)
    requires DescendingBy(tail, key)
    requires forall l | l in tail :: key(m) > key(l)
    ensures DescendingBy([m] + tail, key)
  {
    var r := [m] + tail;
    forall i, j | 0 <= i < j < |r| ensures key(r[i]) > key(r[j]) {
      assert r[j] == tail[j - 1];
      if i > 0 {
        assert r[i] == tail[i - 1];
      }
    }
  }

  /** The keys along the sorted sequence strictly decrease. */
  lemma {:induction false} SortDescendingStrict(ls: set<string>, key: string -> int)
    requires DistinctKeys(ls, key)
    ensures DescendingBy(SortDescending(ls, key), key)
    decreases |ls|
  {
    if ls != {} {
      var m := MaxByKey(ls, key);
      var rest := ls - {m};
      SortDescendingStrict(rest, key);
      SortDescendingElements(rest, key);
      var tail := SortDescending(rest, key);
      forall l | l in tail ensures key(m) > key(l) {
        assert l in rest;
      }
      ConsDescending(m, tail, key);
    }
  }

  /** A height that produces a label: Python truthiness of f.get("height"). */
  predicate HasHeight(h: Option<int>) {
    h.Some? && h.value != 0
  }

  /** The labels of the formats that report a height. */
  function LabelsOf(heights: seq<Option<int>>): (ls: set<string>)
    ensures DistinctKeys(ls, KeyOf)
  {
    var ls := set i | 0 <= i < |heights| && HasHeight(heights[i]) :: Label(heights[i].value);
    LabelsAreLabels(heights);
    ls
  }

  /** Every label in the set is the label of its own key. */
  lemma LabelsAreLabels(heights: seq<Option<int>>)
    ensures forall l | l in (set i | 0 <= i < |heights| && HasHeight(heights[i]) :: Label(heights[i].value))
              :: l == Label(KeyOf(l))
  {
    forall i | 0 <= i < |heights| && HasHeight(heights[i]) ensures Label(heights[i].value) == Label(KeyOf(Label(heights[i].value))) {
      KeyOfLabel(heights[i].value);
    }
  }

  /** One more format adds its label, if it reports a height. */
  lemma LabelsOfSnoc(heights: seq<Option<int>>, h: Option<int>)
    ensures LabelsOf(heights + [h]) == LabelsOf(heights) + (if HasHeight(h) then {Label(h.value)} else {})
  {
    var hs := heights + [h];
    assert forall i | 0 <= i < |heights| :: hs[i] == heights[i];
    assert hs[|heights|] == h;
  }

  /** The choices of the resolution menu for a video whose formats report
      `heights` (None for a format without one), main.py:1310-1320. */
  method ResolutionChoices(heights: seq<Option<int>>) returns (choices: seq<string>)
    ensures choices == MenuChoices(heights)
  {
    var resolutions: set<string> := {};
    var i := 0;
    assert heights[..0] == [];
    while i < |heights|
      invariant 0 <= i <= |heights|
      invariant resolutions == LabelsOf(heights[..i])
    {
      var h := heights[i];
      if h.Some? && h.value != 0 {
        resolutions := resolutions + {Label(h.value)};
      }
      assert heights[..i + 1] == heights[..i] + [h];
      LabelsOfSnoc(heights[..i], h);
      i := i + 1;
    }
    assert heights[..i] == heights;
    choices := [BestAvailable] + SortDescending(resolutions, KeyOf);
  }

  /** The menu: "Best Available" and then the labels, highest first. */
  function MenuChoices(heights: seq<Option<int>>): seq<string> {
    [BestAvailable] + SortDescending(LabelsOf(heights), KeyOf)
  }

  /** The menu offers each label of a reported height once, nothing else
      besides "Best Available", which comes first. */
  lemma MenuOffersLabels(heights: seq<Option<int>>)
    ensures var choices := MenuChoices(heights);
            && choices[0] == BestAvailable
            && forall l :: l in choices[1..] <==> exists i | 0 <= i < |heights| :: HasHeight(heights[i]) && l == Label(heights[i].value)
  {
    var choices := MenuChoices(heights);
    assert choices[1..] == SortDescending(LabelsOf(heights), KeyOf);
    SortDescendingElements(LabelsOf(heights), KeyOf);
  }

  /** Only "Best Available" is offered exactly when no format reports a
      height. */
  lemma MenuOnlyBest(heights: seq<Option<int>>)
    ensures |MenuChoices(heights)| == 1 <==> forall i | 0 <= i < |heights| :: !HasHeight(heights[i])
  {
    if i :| 0 <= i < |heights| && HasHeight(heights[i]) {
      assert Label(heights[i].value) in LabelsOf(heights);
    }
  }

  /** The labels after "Best Available" are in strictly descending order of
      their sort key (which KeysOfMenu shows is the parsed height). */
  lemma MenuDescending(heights: seq<Option<int>>)
    ensures var choices := MenuChoices(heights);
            forall i, j | 1 <= i < j < |choices| :: KeyOf(choices[i]) > KeyOf(choices[j])
  {
    SortDescendingStrict(LabelsOf(heights), KeyOf);
    DescendingAfterHead(BestAvailable, SortDescending(LabelsOf(heights), KeyOf), KeyOf);
  }

  lemma DescendingAfterHead(x: string, r: seq<string>, key: string -> int)
    requires DescendingBy(r, key)
    ensures var s := [x] + r;
            forall i, j | 1 <= i < j < |s| :: key(s[i]) > key(s[j])
  {
    var s := [x] + r;
    forall i, j | 1 <= i < j < |s| ensures key(s[i]) > key(s[j]) {
      assert s[i] == r[i - 1] && s[j] == r[j - 1];
    }
  }

  /** Every label in the menu has a sort key: int(label.replace("p", ""))
      does not fail on it. */
  lemma KeysOfMenu(heights: seq<Option<int>>)
    ensures var choices := MenuChoices(heights);
            forall i | 1 <= i < |choices| :: SortKey(choices[i]) == Some(KeyOf(choices[i]))
  {
    var ls := LabelsOf(heights);
    var sorted := SortDescending(ls, KeyOf);
    var choices := MenuChoices(heights);
    SortDescendingElements(ls, KeyOf);
    forall i | 1 <= i < |choices| ensures SortKey(choices[i]) == Some(KeyOf(choices[i])) {
      assert choices[i] == sorted[i - 1];
      LabelHasKey(heights, choices[i]);
    }
  }

  lemma LabelHasKey(heights: seq<Option<int>>, l: string)
    requires l in LabelsOf(heights)
    ensures SortKey(l) == Some(KeyOf(l))
  {
    LabelsAreLabels(heights);
    SortKeyOfLabel(KeyOf(l));
  }

  // ---------------------------------------------------------------
  // Which errors the window shows as restricted
  // ---------------------------------------------------------------

  /** The restricted error of a download contains "Age-restricted", so the
      window shows it as restricted. */
  lemma DownloadRestrictedIsShownRestricted()
    ensures IsRestrictedError(Supervisor.Message(Supervisor.Restricted))
  {
    var rest := " or members-only content detected. Clipster cannot download without authentication.";
    assert Lower("Age-restricted") == "age-restricted";
    ShownRestrictedWithMarker("", "Age-restricted", rest);
    assert "" + "Age-restricted" + rest == Supervisor.RestrictedMessage;
  }

  /** So is the restricted error of a metadata fetch. */
  lemma FetchRestrictedIsShownRestricted()
    ensures IsRestrictedError(MetaRestrictedMessage)
  {
    assert Lower("age-restricted") == "age-restricted";
    ShownRestrictedWithMarker("This video is ", "age-restricted",
                              " or members-only and requires sign-in. Clipster cannot download it.");
  }

  /** A text with a part that lower-cases to "age-restricted" is shown as
      restricted. */
  lemma ShownRestrictedWithMarker(pre: string, marker: string, post: string)
    requires Lower(marker) == "age-restricted"
    ensures IsRestrictedError(pre + marker + post)
  {
    var m := pre + marker + post;
    ContainsMiddle(pre, marker, post);
    LowerOccurs(m, marker, |pre|);
    assert OccursAt(Lower(m), "age-restricted", |pre|);
  }

  /** A fetch failure that yt-dlp reports with a restricted marker is shown
      as restricted. */
  lemma RestrictedFetchIsShownRestricted(stdout: string, stderr: string)
    requires StderrRestricted(if Strip(stderr) != [] then Strip(stderr) else Strip(stdout))
    ensures IsRestrictedError(NonzeroExitError(stdout, stderr))
  {
    FetchRestrictedIsShownRestricted();
  }

  /** str(code) is digits and perhaps a minus sign: no 'r' survives
      lower-casing it. */
  lemma NumberTextHasNoR(code: int)
    ensures 'r' !in Lower(IntToString(code))
  {
    var d := IntToString(code);
    forall k | 0 <= k < |d| ensures d[k] == '-' || IsDigit(d[k]) {
      if code < 0 && k > 0 {
        assert d[k] == d[1..][k - 1];
      }
    }
  }

  /** The lower-cased exit-code error has no 'r'. */
  lemma ExitErrorHasNoR(code: int)
    ensures 'r' !in Lower(Supervisor.ExitMessage(code))
  {
    var prefix := "yt-dlp exited with code ";
    var digits := IntToString(code);
    assert Supervisor.ExitMessage(code) == prefix + digits;
    LowerAppend(prefix, digits);
    ExitPrefixHasNoR();
    NumberTextHasNoR(code);
  }

  lemma ExitPrefixHasNoR()
    ensures 'r' !in Lower("yt-dlp exited with code ")
  {
    var prefix := "yt-dlp exited with code ";
    assert 'r' !in prefix && 'R' !in prefix;
  }

  /** An exit-code error is never taken for a restricted one: it has no 'r',
      a letter each of the three markers has. */
  lemma ExitErrorIsNotRestricted(code: int)
    ensures !IsRestrictedError(Supervisor.ExitMessage(code))
  {
    ExitErrorHasNoR(code);
    NoMarkerWithoutR(Lower(Supervisor.ExitMessage(code)));
  }

  /** Each of the three markers has an 'r'. */
  lemma NoMarkerWithoutR(low: string)
    requires 'r' !in low
    ensures !Contains(low, "age-restricted")
    ensures !Contains(low, "sign in to confirm your age")
    ensures !Contains(low, "members-only")
  {
    NotContainedWithoutChar(low, "age-restricted", 4);
    NotContainedWithoutChar(low, "sign in to confirm your age", 16);
    NotContainedWithoutChar(low, "members-only", 5);
  }
}
