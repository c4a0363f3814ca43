/** DownloadProcess (main.py:248-332): runs yt-dlp once, turns each line of
    its output into a progress callback, stops at the first line that says
    the video needs a sign-in, and reports how the run ended. The callbacks
    are modelled as the list of events they receive, in order; the child
    process is modelled by what it does (`Spawn`) and by a handle that the
    object holds while the process runs. */
module Supervisor {
  import opened Wrappers
  import opened Text
  import opened ProgressLine

  const MissingBinaryMessage: string := "yt-dlp.exe not found in Assets/"

  const RestrictedMessage: string :=
    "Age-restricted" + " or members-only content detected. Clipster cannot download without authentication."

  function ExitMessage(code: int): (r: string)
    ensures |r| > 24 && r[..24] == "yt-dlp exited with code "
    ensures ParseInt(r[24..]) == Some(code)
  {
    var r := "yt-dlp exited with code " + IntToString(code);
    assert r[24..] == IntToString(code);
    ParseIntToString(code);
    r
  }

  /** The three markers of a video that needs a signed-in account
      (main.py:278), looked for case-sensitively in the stripped line. */
  predicate IsRestrictedLine(line: string) {
    || Contains(line, "Sign in to confirm your age")
    || Contains(line, "This video is only available for members")
    || Contains(line, "This video is private")
  }

  /** Why error_callback was called: the binary is missing, an exception was
      raised (its text), a restricted line was seen, or yt-dlp exited with a
      non-zero code. */
  datatype Failure = MissingBinary | Raised(text: string) | Restricted | ExitCode(code: int)

  /** The text error_callback receives. */
  function Message(f: Failure): string {
    match f
    case MissingBinary => MissingBinaryMessage
    case Raised(text) => text
    case Restricted => RestrictedMessage
    case ExitCode(code) => ExitMessage(code)
  }

  /** One call of a callback: progress_callback(percent, speed, eta, line),
      finished_callback(path) or error_callback(Message(failure)). */
  datatype Event =
    | Progress(percent: Option<nat>, speed: Option<string>, eta: Option<string>, line: string)
    | Finished(path: Option<string>)
    | Failed(failure: Failure)

  function ProgressEvent(line: string): (e: Event)
    ensures e.Progress? && e.line == line
    ensures e.percent.Some? ==> e.percent.value <= 9999
  {
    var f := LineFields(line);
    Progress(f.percent, f.speed, f.eta, line)
  }

  /** What the child process does once `Popen` is attempted: it cannot be
      started (the exception's text), or it prints `lines` and then either
      the stream raises (`readError`) or it exits with `exitCode`. */
  datatype Spawn =
    | SpawnFailed(reason: string)
    | Spawned(lines: seq<string>, readError: Option<string>, exitCode: int)

  /** Python truthiness of the optional cookies path. */
  predicate HasCookies(cookies: Option<string>) {
    cookies.Some? && cookies.value != ""
  }

  /** The yt-dlp command line (main.py:265-269). */
  function BuildCommand(exe: string, cookies: Option<string>, outtmpl: string, selector: string, url: string)
    : (cmd: seq<string>)
    ensures |cmd| == if HasCookies(cookies) then 10 else 8
    ensures cmd[..3] == [exe, "--no-warnings", "--newline"]
    ensures HasCookies(cookies) ==> cmd[3..5] == ["--cookies", cookies.value]
    ensures cmd[|cmd| - 5..] == ["-o", outtmpl, "-f", selector, url]
    ensures cmd[|cmd| - 1] == url
  {
    [exe, "--no-warnings", "--newline"]
    + (if HasCookies(cookies) then ["--cookies", cookies.value] else [])
    + ["-o", outtmpl, "-f", selector, url]
  }

  /** The cookies option the command carries, read back from it. */
  function CookiesOption(cmd: seq<string>): Option<string> {
    if |cmd| >= 5 && cmd[3] == "--cookies" then Some(cmd[4]) else None
  }

  /** The command carries "--cookies" exactly when the cookies path is
      truthy, and then with that path. */
  lemma CommandCookies(exe: string, cookies: Option<string>, outtmpl: string, selector: string, url: string)
    ensures CookiesOption(BuildCommand(exe, cookies, outtmpl, selector, url))
            == if HasCookies(cookies) then cookies else None
  {
  }

  /** The lines of the stream as the loop sees them: each one stripped. */
  function StripAll(raw: seq<string>): (lines: seq<string>)
    ensures |lines| == |raw|
    ensures forall k | 0 <= k < |raw| :: lines[k] == Strip(raw[k])
  {
    seq(|raw|, k requires 0 <= k < |raw| => Strip(raw[k]))
  }

  /** Some stripped line carries a restricted marker. */
  predicate AnyRestricted(lines: seq<string>) {
    exists k | 0 <= k < |lines| :: IsRestrictedLine(lines[k])
  }

  /** The callbacks the line loop makes for the stripped `lines`: a progress
      event per line, until a restricted line, which gives the restricted
      error and ends the loop. */
  function LineEvents(lines: seq<string>): seq<Event> {
    if lines == [] then []
    else if IsRestrictedLine(lines[0]) then [Failed(Restricted)]
    else [ProgressEvent(lines[0])] + LineEvents(lines[1..])
  }

  /** The stripped text after "Destination:" in the last stripped line that
      starts with it. */
  function LastDestination(lines: seq<string>): Option<string> {
    if lines == [] then None
    else
      var line := lines[|lines| - 1];
      if StartsWith(line, "Destination:") then Some(Strip(line[12..]))
      else LastDestination(lines[..|lines| - 1])
  }

  /** Every callback one `_run_download` makes, in order. */
  function RunEvents(binaryPresent: bool, spawn: Spawn): seq<Event> {
    if !binaryPresent then [Failed(MissingBinary)]
    else match spawn
      case SpawnFailed(reason) => [Failed(Raised(reason))]
      case Spawned(raw, readError, code) =>
        var lines := StripAll(raw);
        if AnyRestricted(lines) then LineEvents(lines)
        else if readError.Some? then LineEvents(lines) + [Failed(Raised(readError.value))]
        else if code == 0 then LineEvents(lines) + [Finished(LastDestination(lines))]
        else LineEvents(lines) + [Failed(ExitCode(code))]
  }

  lemma NoneRestrictedInTail(lines: seq<string>)
    requires lines != [] && !AnyRestricted(lines)
    ensures !IsRestrictedLine(lines[0]) && !AnyRestricted(lines[1..])
  {
    forall k | 0 <= k < |lines[1..]| ensures !IsRestrictedLine(lines[1..][k]) {
      assert lines[1..][k] == lines[k + 1];
    }
  }

  lemma {:induction false} LineEventsAppend(xs: seq<string>, ys: seq<string>)
    requires !AnyRestricted(xs)
    ensures LineEvents(xs + ys) == LineEvents(xs) + LineEvents(ys)
    decreases |xs|
  {
    if xs == [] {
      assert xs + ys == ys;
    } else {
      NoneRestrictedInTail(xs);
      assert (xs + ys)[0] == xs[0];
      assert (xs + ys)[1..] == xs[1..] + ys;
      LineEventsAppend(xs[1..], ys);
    }
  }

  /** Without a restricted line, each line gives exactly one progress event
      carrying that line, in stream order. */
  lemma {:induction false} ProgressPerLine(lines: seq<string>)
    requires !AnyRestricted(lines)
    ensures |LineEvents(lines)| == |lines|
    ensures forall k | 0 <= k < |lines| :: LineEvents(lines)[k] == ProgressEvent(lines[k])
    decreases |lines|
  {
    if lines != [] {
      NoneRestrictedInTail(lines);
      ProgressPerLine(lines[1..]);
    }
  }

  /** The first restricted line `r` ends the stream: the lines before it give
      their progress events, it gives the restricted error, and no line after
      it is looked at. */
  lemma StopsAtRestricted(lines: seq<string>, r: nat)
    requires r < |lines| && IsRestrictedLine(lines[r])
    requires !AnyRestricted(lines[..r])
    ensures |LineEvents(lines)| == r + 1
    ensures forall k | 0 <= k < r :: LineEvents(lines)[k] == ProgressEvent(lines[k])
    ensures LineEvents(lines)[r] == Failed(Restricted)
  {
    assert lines == lines[..r] + lines[r..];
    LineEventsAppend(lines[..r], lines[r..]);
    ProgressPerLine(lines[..r]);
    assert lines[r..][0] == lines[r];
  }

  /** The index of the first restricted line. */
  function FirstRestricted(lines: seq<string>): (r: nat)
    requires AnyRestricted(lines)
    ensures r < |lines| && IsRestrictedLine(lines[r])
    ensures !AnyRestricted(lines[..r])
  {
    if IsRestrictedLine(lines[0]) then 0
    else
      assert AnyRestricted(lines[1..]) by {
        var k :| 0 <= k < |lines| && IsRestrictedLine(lines[k]);
        assert lines[1..][k - 1] == lines[k];
      }
      var r := 1 + FirstRestricted(lines[1..]);
      assert forall k | 0 < k < r :: lines[..r][k] == lines[1..][..r - 1][k - 1];
      r
  }

  /** Every run ends with exactly one finished or error callback, and every
      callback before it is a progress callback. */
  lemma OneOutcome(binaryPresent: bool, spawn: Spawn)
    ensures var ev := RunEvents(binaryPresent, spawn);
            |ev| >= 1 && !ev[|ev| - 1].Progress?
            && forall k | 0 <= k < |ev| - 1 :: ev[k].Progress?
  {
    if binaryPresent && spawn.Spawned? {
      var lines := StripAll(spawn.lines);
      if AnyRestricted(lines) {
        var r := FirstRestricted(lines);
        RestrictedStep(lines, r);
        ProgressPerLine(lines[..r]);
        ProgressThenOutcome(LineEvents(lines[..r]), Failed(Restricted));
      } else {
        ProgressPerLine(lines);
        var last := if spawn.readError.Some? then Failed(Raised(spawn.readError.value))
                    else if spawn.exitCode == 0 then Finished(LastDestination(lines))
                    else Failed(ExitCode(spawn.exitCode));
        ProgressThenOutcome(LineEvents(lines), last);
      }
    }
  }

  lemma ProgressThenOutcome(prefix: seq<Event>, last: Event)
    requires forall k | 0 <= k < |prefix| :: prefix[k].Progress?
    requires !last.Progress?
    ensures var ev := prefix + [last];
            |ev| >= 1 && !ev[|ev| - 1].Progress?
            && forall k | 0 <= k < |ev| - 1 :: ev[k].Progress?
  {
    var ev := prefix + [last];
    assert forall k | 0 <= k < |ev| - 1 :: ev[k] == prefix[k];
  }

  /** The end of a run that reached the end of a clean stream: exit code 0
      reports the last destination, any other code the exit-code error. */
  lemma ExitOutcome(raw: seq<string>, code: int)
    requires !AnyRestricted(StripAll(raw))
    ensures var ev := RunEvents(true, Spawned(raw, None, code));
            ev[|ev| - 1] == if code == 0 then Finished(LastDestination(StripAll(raw))) else Failed(ExitCode(code))
  {
  }

  /** The reported path is the one named by the last "Destination:" line:
      later lines without one do not change it. */
  lemma {:induction false} DestinationIsLast(lines: seq<string>, k: nat)
    requires k < |lines| && StartsWith(lines[k], "Destination:")
    requires forall j | k < j < |lines| :: !StartsWith(lines[j], "Destination:")
    ensures LastDestination(lines) == Some(Strip(lines[k][12..]))
    decreases |lines|
  {
    if k < |lines| - 1 {
      var init := lines[..|lines| - 1];
      assert init[k] == lines[k];
      DestinationIsLast(init, k);
    }
  }

  /** Without any "Destination:" line there is no path to report. */
  lemma {:induction false} NoDestination(lines: seq<string>)
    requires forall j | 0 <= j < |lines| :: !StartsWith(lines[j], "Destination:")
    ensures LastDestination(lines) == None
    decreases |lines|
  {
    if lines != [] {
      NoDestination(lines[..|lines| - 1]);
    }
  }

  /** Every percentage reported is at most 999.9. */
  lemma PercentBound(binaryPresent: bool, spawn: Spawn)
    ensures forall e | e in RunEvents(binaryPresent, spawn) :: e.Progress? && e.percent.Some? ==> e.percent.value <= 9999
  {
    if binaryPresent && spawn.Spawned? {
      LineEventsPercent(StripAll(spawn.lines));
    }
  }

  lemma {:induction false} LineEventsPercent(lines: seq<string>)
    ensures forall e | e in LineEvents(lines) :: e.Progress? && e.percent.Some? ==> e.percent.value <= 9999
    decreases |lines|
  {
    if lines != [] {
      LineEventsPercent(lines[1..]);
    }
  }

  /** One more line without a marker: one more progress event, and the
      remembered path moves on only at a "Destination:" line. */
  lemma CleanStep(lines: seq<string>, k: nat)
    requires k < |lines| && !AnyRestricted(lines[..k]) && !IsRestrictedLine(lines[k])
    ensures !AnyRestricted(lines[..k + 1])
    ensures LineEvents(lines[..k + 1]) == LineEvents(lines[..k]) + [ProgressEvent(lines[k])]
    ensures LastDestination(lines[..k + 1])
            == if StartsWith(lines[k], "Destination:") then Some(Strip(lines[k][12..])) else LastDestination(lines[..k])
  {
    TakeOneMore(lines, k);
    LineEventsAppend(lines[..k], [lines[k]]);
    NoneRestrictedSnoc(lines[..k], lines[k]);
  }

  lemma NoneRestrictedSnoc(lines: seq<string>, line: string)
    requires !AnyRestricted(lines) && !IsRestrictedLine(line)
    ensures !AnyRestricted(lines + [line])
  {
    var all := lines + [line];
    forall j | 0 <= j < |all| ensures !IsRestrictedLine(all[j]) {
      if j < |lines| {
        assert all[j] == lines[j];
      }
    }
  }

  lemma TakeOneMore<T>(xs: seq<T>, k: nat)
    requires k < |xs|
    ensures xs[..k + 1] == xs[..k] + [xs[k]] && xs[..k + 1][..k] == xs[..k]
  {
  }


  /** A line with a marker, after lines without one, is the last one
      looked at. */
  lemma RestrictedStep(lines: seq<string>, k: nat)
    requires k < |lines| && !AnyRestricted(lines[..k]) && IsRestrictedLine(lines[k])
    ensures LineEvents(lines) == LineEvents(lines[..k]) + [Failed(Restricted)]
  {
    assert lines == lines[..k] + lines[k..];
    LineEventsAppend(lines[..k], lines[k..]);
    RestrictedHead(lines[k..], lines[k]);
  }

  /** A stream that starts with a restricted line gives only the restricted
      error. */
  lemma RestrictedHead(lines: seq<string>, line: string)
    requires lines != [] && lines[0] == line && IsRestrictedLine(line)
    ensures LineEvents(lines) == [Failed(Restricted)]
  {
  }

  /** What the line loop has done after the first `k` stripped lines, none of
      them restricted: their events, and the path of the last "Destination:"
      line among them. */
  ghost predicate ReadInv(lines: seq<string>, k: nat, events: seq<Event>, outputPath: Option<string>) {
    && k <= |lines|
    && !AnyRestricted(lines[..k])
    && events == LineEvents(lines[..k])
    && outputPath == LastDestination(lines[..k])
  }

  lemma ReadClean(lines: seq<string>, k: nat, events: seq<Event>, outputPath: Option<string>)
    requires ReadInv(lines, k, events, outputPath) && k < |lines| && !IsRestrictedLine(lines[k])
    ensures ReadInv(lines, k + 1, events + [ProgressEvent(lines[k])],
                    if StartsWith(lines[k], "Destination:") then Some(Strip(lines[k][12..])) else outputPath)
  {
    CleanStep(lines, k);
  }

  lemma ReadRestricted(lines: seq<string>, k: nat, events: seq<Event>, outputPath: Option<string>)
    requires ReadInv(lines, k, events, outputPath) && k < |lines| && IsRestrictedLine(lines[k])
    ensures AnyRestricted(lines) && events + [Failed(Restricted)] == LineEvents(lines)
  {
    RestrictedStep(lines, k);
    assert IsRestrictedLine(lines[k]);
  }

  lemma ReadEnd(lines: seq<string>, events: seq<Event>, outputPath: Option<string>)
    requires ReadInv(lines, |lines|, events, outputPath)
    ensures !AnyRestricted(lines) && events == LineEvents(lines) && outputPath == LastDestination(lines)
  {
    assert lines[..|lines|] == lines;
  }

  /** The `for raw_line in p.stdout` loop of _run_download: the callbacks it
      makes, the path it remembers and whether it stopped at a restricted
      line. */
  method ReadOutput(raw: seq<string>) returns (events: seq<Event>, outputPath: Option<string>, restricted: bool)
    ensures restricted == AnyRestricted(StripAll(raw))
    ensures events == LineEvents(StripAll(raw))
    ensures !restricted ==> outputPath == LastDestination(StripAll(raw))
  {
    ghost var lines := StripAll(raw);
    outputPath := None;
    events := [];
    var k := 0;
    assert lines[..0] == [];
    while k < |raw|
      invariant k <= |raw| == |lines|
      invariant ReadInv(lines, k, events, outputPath)
    {
      var line := Strip(raw[k]);
      assert lines[k] == line;
      if IsRestrictedLine(line) {
        ReadRestricted(lines, k, events, outputPath);
        return events + [Failed(Restricted)], outputPath, true;
      }
      ReadClean(lines, k, events, outputPath);
      var fields := LineFields(line);
      if StartsWith(line, "Destination:") {
        outputPath := Some(Strip(line[12..]));
      }
      events := events + [Progress(fields.percent, fields.speed, fields.eta, line)];
      k := k + 1;
    }
    ReadEnd(lines, events, outputPath);
    restricted := false;
  }

  /** What cancel() did to the process. */
  datatype CancelAction = NoAction | Terminated | TerminatedThenKilled

  class DownloadProcess {
    /** The running child process, while there is one. */
    var proc: Option<nat>

    constructor()
      ensures proc == None
    {
      proc := None;
    }

    /** _run_download: `exe` is the yt-dlp path, `binaryPresent` whether it
        exists, `handle` the process `Popen` gives. Returns the command it
        started, the callbacks it made and whether it terminated the process
        early. */
    method RunDownload(binaryPresent: bool, exe: string, cookies: Option<string>, outtmpl: string,
                       selector: string, url: string, spawn: Spawn, handle: nat)
      returns (cmd: seq<string>, events: seq<Event>, terminated: bool)
      modifies this
      ensures events == RunEvents(binaryPresent, spawn)
      ensures cmd == if binaryPresent then BuildCommand(exe, cookies, outtmpl, selector, url) else []
      ensures terminated <==> binaryPresent && spawn.Spawned? && AnyRestricted(StripAll(spawn.lines))
      ensures proc == if binaryPresent then None else old(proc)
    {
      terminated := false;
      cmd := [];
      if !binaryPresent {
        events := [Failed(MissingBinary)];
        return;
      }
      cmd := BuildCommand(exe, cookies, outtmpl, selector, url);
      if spawn.SpawnFailed? {
        events := [Failed(Raised(spawn.reason))];
        proc := None;
        return;
      }
      proc := Some(handle);
      var outputPath, restricted;
      events, outputPath, restricted := ReadOutput(spawn.lines);
      if restricted {
        terminated := true;
        proc := None;
        return;
      }
      if spawn.readError.Some? {
        events := events + [Failed(Raised(spawn.readError.value))];
        proc := None;
        return;
      }
      proc := None;
      if spawn.exitCode == 0 {
        events := events + [Finished(outputPath)];
      } else {
        events := events + [Failed(ExitCode(spawn.exitCode))];
      }
    }

    /** cancel(): terminate the process if one is held and still running,
        and kill it if it is still running after the grace period. It does
        not clear `proc`. */
    method Cancel(aliveNow: bool, aliveAfterGrace: bool) returns (action: CancelAction)
      ensures action != NoAction <==> proc.Some? && aliveNow
      ensures action == TerminatedThenKilled <==> proc.Some? && aliveNow && aliveAfterGrace
    {
      if proc.Some? && aliveNow {
        action := if aliveAfterGrace then TerminatedThenKilled else Terminated;
      } else {
        action := NoAction;
      }
    }
  }

  /** Once a run with the binary present is over, cancel() touches nothing,
      whatever the process would report. */
  method CancelAfterRun(d: DownloadProcess, exe: string, cookies: Option<string>, outtmpl: string,
                        selector: string, url: string, spawn: Spawn, handle: nat,
                        aliveNow: bool, aliveAfterGrace: bool)
    returns (action: CancelAction)
    modifies d
    ensures action == NoAction
  {
    var cmd, events, terminated := d.RunDownload(true, exe, cookies, outtmpl, selector, url, spawn, handle);
    action := d.Cancel(aliveNow, aliveAfterGrace);
  }
}
