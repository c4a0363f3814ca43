# Clipster core in Dafny

Clipster is a desktop front end for yt-dlp. This project models the
deterministic logic inside its single program file, `main.py`, and proves
properties of it. The window, threads, subprocesses, network and
ffmpeg are left out. What they feed into the logic becomes an input of the
model.

- **Text** (`text.dfy`) holds the string helpers the rest uses: `str.strip`,
  substring search, lower-casing, and decimal text for integers with its
  parse.
- **Selectors** (`selectors.dfy`) models the yt-dlp format selectors and
  `resolution_to_height`. It also models `is_youtube_url` with its anchored,
  case-insensitive pattern.
- **ProgressLine** (`progress.dfy`) models the three regular expressions
  applied to each output line of yt-dlp. Each is a deterministic matcher
  proved equal to a declarative statement of the pattern. A regex *search*
  takes the leftmost match. Percent is kept in integer tenths, since the
  capture is always `d{1,3}.d`.
- **Supervisor** (`supervisor.dfy`) models `DownloadProcess`. It builds the
  command line, runs the line loop, stops at a restricted-content line and
  maps the exit code. A failed run carries a `Failure` (missing binary,
  raised exception, restricted content, exit code), and `Message` gives the
  text the error callback receives for it. The class holds the `proc`
  handle that `cancel()` checks.
- **Metadata** (`metadata.dfy`) covers:
  - the output handling of `fetch_metadata_via_yt_dlp`, including
    `str.splitlines`;
  - the resolution menu built from the fetched formats;
  - the checks that decide whether an error is shown as restricted.
- **Store** (`store.dfy`) models the settings and history files as
  documents held by a `Files` object. Each document is missing, unreadable
  or stored. It also models the window's apply and reset-to-defaults
  actions.
- **Driver** (`driver.dfy`) models the loops of the playlist driver
  `dl_seq_task` and the batch driver `batch_task`, writing history through
  `Files`.

## Model

| member | source | states |
|---|---|---|
| Text.StripTrims | main.py:277 | `Strip(s)` is a substring of `s` with only whitespace cut from either end, and it neither begins nor ends with whitespace |
| Text.StripIdempotent | main.py:206-208 | stripping twice is stripping once |
| Text.ParseIntToString | main.py:306-314 | the decimal text of an integer parses back to that integer, which is how the exit code appears in "yt-dlp exited with code N" |
| Text.IntToStringInjective | main.py:306-314 | distinct exit codes give distinct texts |
| Text.LowerOccurs | main.py:1365 | a needle found in a text is found, lower-cased, at the same place in the lower-cased text |
| Selectors.FormatSelectorForFormatAndRes | main.py:396-406 | the selector is "best" exactly for formats outside mp4/mkv/webm/m4a; the mp4 selector caps height at 1080 |
| Selectors.SelectorIgnoresResolution | main.py:396-406 | the single-video selector does not depend on the resolution label |
| Selectors.ResolutionToHeight | main.py:408-417 | a height exactly for 2160p/1440p/1080p/720p, and that height is positive |
| Selectors.HeightPrintsAsLabel | main.py:408-417 | whenever a label maps to a height, the label is that height's decimal text followed by "p" |
| Selectors.BatchFormatSelector | main.py:419-430 | defines `build_batch_format_selector`: the height looked up from the label selects the capped or the uncapped selector for the format |
| Selectors.BatchHeightFilter | main.py:419-430 | the batch selector contains "height<=" exactly when the label maps to a height H; it then starts with `bestvideo[height<=H` and ends with `[height<=H]` |
| Selectors.CappedSelectorFilter | main.py:421-426 | with a height cap both alternatives carry the `height<=H` filter |
| Selectors.UncappedSelectorHasNoFilter | main.py:421-430 | without a cap there is no height filter |
| Selectors.BatchContainerFilters | main.py:419-430 | only mp4 gets the ext=mp4 / ext=m4a filters; every other format, m4a included, mentions neither container |
| Selectors.CappedMp4Filters | main.py:422-424 | the capped mp4 selector asks for ext=mp4 video and ext=m4a audio |
| Selectors.CappedGenericHasNoContainer | main.py:422-426 | a capped non-mp4 selector names no container |
| Selectors.UncappedContainerFilters | main.py:427-430 | the uncapped selector names the mp4/m4a containers exactly for mp4 |
| Selectors.IsYoutubeUrl | main.py:206-208 | defines `is_youtube_url`: the anchored, case-insensitive match of the URL pattern against the stripped URL |
| Selectors.IsYoutubeUrlMeansPrefix | main.py:206-208 | `is_youtube_url` holds exactly when the stripped URL starts, ignoring case, with one of the twelve prefixes `(https?://)?(www.)?(youtube.com\|youtu.be)/` followed by a character other than a newline |
| Selectors.ParseGivesPrefix | main.py:68 | the matcher's answer implies a prefix of the pattern |
| Selectors.PrefixGivesParse | main.py:68 | every prefix of the pattern is accepted by the matcher |
| ProgressLine.PercentAtIsRegex | main.py:69 | at a position, the percent matcher succeeds exactly when `[download]`, whitespace, 1-3 digits, `.`, one digit and `%` occur there, and its value is those digits in tenths |
| ProgressLine.SpeedAtIsRegex | main.py:70 | the speed matcher succeeds exactly when `at`, whitespace, a run of digits and dots, word characters and `/s` occur there, and returns that capture |
| ProgressLine.EtaAtIsRegex | main.py:71 | the ETA matcher succeeds exactly when `ETA`, whitespace and digits or colons occur there, and returns the greedy capture |
| ProgressLine.SearchIsLeftmost | main.py:287-299 | a search finds nothing exactly when no position matches, and otherwise returns the leftmost match |
| ProgressLine.PercentIffMatch | main.py:287-295 | a line has a percent exactly when the progress pattern matches somewhere in it |
| ProgressLine.PercentIsLeftmostMatch | main.py:287-295 | the percent is the one of the leftmost match |
| ProgressLine.LineFields | main.py:287-301 | percent, when present, is at most 999.9 (9999 tenths) |
| ProgressLine.PercentNotClamped | main.py:287-295 | "[download] 150.0%" gives 150.0 percent: there is no clamp at 100 |
| Supervisor.ExitMessage | main.py:314 | the message is "yt-dlp exited with code " followed by text that parses back to the code |
| Supervisor.BuildCommand | main.py:265-269 | exe, --no-warnings, --newline; cookies arguments exactly when the path is truthy; then -o, template, -f, selector and the URL last |
| Supervisor.CommandCookies | main.py:266-268 | the command carries `--cookies` with the given path exactly when that path is truthy |
| Supervisor.IsRestrictedLine | main.py:278 | defines the restricted-line test: one of the three markers occurs, case-sensitively, in the stripped line |
| Supervisor.LineEvents | main.py:276-305 | defines the callbacks of the line loop: one progress event per line until a restricted line, which gives the restricted error and ends the loop |
| Supervisor.LastDestination | main.py:302-303 | defines the output path: the stripped text after "Destination:" in the last line that starts with it |
| Supervisor.RunEvents | main.py:260-320 | defines every callback of one run: missing binary, spawn failure, the line loop, then a read error, finished or the exit-code error |
| Supervisor.StripAll | main.py:277 | each line is stripped, in order |
| Supervisor.ProgressPerLine | main.py:286-305 | with no restricted line, each stripped line yields exactly one progress event, in order, carrying that line |
| Supervisor.StopsAtRestricted | main.py:278-285 | the events are the progress events of the lines before the first restricted line, then the fixed restricted error, and nothing after it |
| Supervisor.OneOutcome | main.py:260-320 | every run ends with exactly one finished or error event, and only progress events come before it |
| Supervisor.ExitOutcome | main.py:306-314 | once the stream ends, exit code 0 gives finished with the last Destination path, and any other code gives "yt-dlp exited with code N" |
| Supervisor.DestinationIsLast | main.py:302-303 | the output path is the stripped text after "Destination:" in the last line that starts with it |
| Supervisor.NoDestination | main.py:302-303 | without such a line the output path is None |
| Supervisor.PercentBound | main.py:287-295 | every progress event's percent is within 0.0-999.9 |
| Supervisor.ReadOutput | main.py:276-305 | the loop's events, restricted flag and last Destination path equal the specification functions of the stripped lines |
| Supervisor.DownloadProcess.RunDownload | main.py:260-320 | the events are `RunEvents` (missing binary, spawn failure, restricted stop, read error, exit code); the process is terminated exactly on a restricted line; `proc` is None afterwards on every path that got past the binary check |
| Supervisor.DownloadProcess.Cancel | main.py:322-332 | terminate exactly when a process is held and running; kill as well exactly when it is still running after the grace period |
| Supervisor.CancelAfterRun | main.py:302-325 | after a run, `cancel()` does nothing, whatever the process would report |
| Metadata.StderrRestricted | main.py:227 | defines the fetch's marker test: "Sign in to confirm your age", "members-only" or "This video is only available for members" occurs, case-sensitively |
| Metadata.IsRestrictedError | main.py:1365 | defines the window's test: "age-restricted", "sign in to confirm your age" or "members-only" occurs in the lower-cased error (the same test is at main.py:1846) |
| Metadata.NonzeroExitError | main.py:225-229 | on a non-zero exit the error is the fixed restricted message when the stripped stderr, or stdout if that is empty, carries a marker; otherwise that text, or the generic message when both are empty |
| Metadata.FetchMetadata | main.py:217-243 | missing binary, timeout, non-zero exit and empty output give their errors; success exactly for exit 0 with non-empty output, and the text handed to json.loads is the chosen JSON line |
| Metadata.SelectJsonText | main.py:232-238 | the chosen text is the first line of `splitlines()` whose stripped form starts with `{`, or the whole output when there is none |
| Metadata.JsonChoiceUnique | main.py:232-238 | that choice is unique |
| Metadata.SplitLines | main.py:233 | defines `str.splitlines()`: the text between line boundaries, "\r\n" counting as one and a boundary at the very end giving no empty last line |
| Metadata.IsJsonChoice | main.py:232-238 | defines the text handed to `json.loads`: the first line whose stripped form starts with `{`, or the whole output when there is none |
| Metadata.SplitLinesAtBoundaries | main.py:233 | the text is its lines, each followed by a line boundary ("\r\n" or one break character), except that the last may run to the end: the lines are cut at boundaries and nowhere else |
| Metadata.SplitLinesKeepsText | main.py:233 | the lines of `splitlines()` put together are the text without its line breaks |
| Metadata.SplitLinesHaveNoBreak | main.py:233 | no line contains a line break |
| Metadata.MenuChoices | main.py:1310-1320 | defines the menu: "Best Available", then the labels of the truthy heights sorted by height, highest first |
| Metadata.ResolutionChoices | main.py:1310-1320 | the loop over the formats builds exactly `MenuChoices` of the heights |
| Metadata.MenuOffersLabels | main.py:1310-1320 | the menu starts with "Best Available" and then offers a label exactly when some format has that truthy height |
| Metadata.MenuOnlyBest | main.py:1317-1318 | the menu is just ["Best Available"] exactly when no format has a truthy height |
| Metadata.MenuDescending | main.py:1316 | after the head, the labels are in strictly descending numeric order, so they are distinct |
| Metadata.KeysOfMenu | main.py:1316 | the sort key `int(x.replace("p",""))` is defined on every label and equals its height |
| Metadata.SortDescendingElements | main.py:1316 | sorting keeps exactly the elements of the set |
| Metadata.SortDescendingStrict | main.py:1316 | sorting with distinct keys gives strictly descending keys |
| Metadata.DownloadRestrictedIsShownRestricted | main.py:1365 | the restricted message a download sends (main.py:280) is routed to the restricted event |
| Metadata.FetchRestrictedIsShownRestricted | main.py:1846 | the restricted message of a fetch (main.py:228) is shown as restricted |
| Metadata.RestrictedFetchIsShownRestricted | main.py:1846 | a failed fetch (main.py:225-229) whose error output carries a marker is shown as restricted |
| Metadata.ExitErrorIsNotRestricted | main.py:1365 | an exit-code error (main.py:314) is never taken for a restricted one: lower-cased it has no "r", which every marker has |
| Store.Get | main.py:1558 | `dict.get`: the stored value when the key is present, else the default |
| Store.DefaultSettingsContent | main.py:132-138 | the defaults have exactly the five keys with their values |
| Store.MergeDefaults | main.py:148-150 | the loop fills the document to `Merged`: every default key is present, stored keys keep their values, and nothing else is added |
| Store.MergedIdempotent | main.py:148-150 | merging the defaults twice is merging once |
| Store.LoadedSettings | main.py:140-153 | a stored document keeps its values and gains every default key; a missing or unreadable one gives the defaults |
| Store.LoadedSettingsValue | main.py:140-153 | each default key reads the stored value if there is one, else the default |
| Store.AppliedPath | main.py:1187-1192 | apply sets format, theme and embed, stores the path entry or the downloads folder when it is empty, and keeps every other key |
| Store.RemoveAt | main.py:186 | `list.pop(i)` keeps the entries before i and shifts the later ones down by one |
| Store.RemoveAtInverse | main.py:186 | putting the removed entry back restores the list |
| Store.Files.SaveSettings | main.py:155-161 | the settings document becomes the settings; history is unchanged |
| Store.Files.LoadSettings | main.py:140-153 | returns `LoadedSettings`; a missing file is written with the defaults |
| Store.Files.ApplySettings | main.py:1187-1196 | saves and returns `Applied` |
| Store.Files.ResetToDefaults | main.py:1198-1202 | when confirmed, saves and returns the defaults; otherwise nothing changes |
| Store.Files.LoadHistory | main.py:163-173 | the stored list, or [] when it is missing or unreadable; a missing file is written as [] |
| Store.Files.AppendHistory | main.py:175-180 | the new entry goes first and the previous history follows unchanged ([entry] when it was unreadable); no cap is applied |
| Store.Files.DeleteHistoryEntry | main.py:182-188 | removes exactly entry i when `0 <= i < len`; otherwise the history is unchanged, except that a missing file is written as [] by the load |
| Store.Files.ClearHistory | main.py:190-193 | the history becomes [] |
| Driver.NameOf | main.py:1614 | defines `PurePath.name`, the final component: it is no longer than the path and contains no separator |
| Driver.NameOfIsTail | main.py:1614 | the final component is the tail of the path after its last separator, or the whole path when it has none |
| Driver.NameOfJoin | main.py:1614 | the final component of `dir\name` is `name` for a separator-free, non-empty name |
| Driver.Stem | main.py:1444 | defines `PurePath.stem`: the final component without its last suffix, a suffix being a last `.` that is neither its first nor its last character |
| Driver.StemOfDownload | main.py:1444 | the stem of `outdir\title.ext` is the title |
| Driver.Prepended | main.py:1626 | successive appends put the newest entry first, the others in reverse order of writing, and the older history follows unchanged |
| Driver.HistoryEntry | main.py:1613-1625 | defines the entry a download writes: the stem of the file or the fallback title, the URL, uploader and duration from the metadata ("" without it), the parameters of the run, the embed flag and the date |
| Driver.Started | main.py:1555-1586 | no more items start than there are |
| Driver.StartedBeforeCancel | main.py:1553-1587 | no item starts once the cancel flag is set; the loop stops early only at a set flag or after a wait that a cancel broke |
| Driver.SeqEntriesAreItems | main.py:1598-1626 | each started item leaves exactly one entry, built from that item, in order |
| Driver.SeqEvents | main.py:1552-1629 | defines the messages of `dl_seq_task`: an item's messages for each item started until the cancel flag is seen or a wait is broken by a cancel, then `(completed, total)` |
| Driver.SeqEventsEnd | main.py:1629 | the last message is `(completed, total)`, with completed the number of started items and so at most total |
| Driver.SeqEventsDones | main.py:1627-1628 | the item-done messages count up 1, 2, ... once per started item and name those items in order |
| Driver.DownloadSequence | main.py:1552-1629 | the loop sends exactly `SeqEvents` and prepends one entry per started item to the history, whether the item finished, failed or was cancelled during its wait |
| Driver.BatchEvents | main.py:1395-1459 | defines the messages of the corrected `batch_task`, with the same stopping rule and `batch_finished(completed, total)` last |
| Driver.BatchEventsEnd | main.py:1459 | the corrected batch sends `batch_finished(completed, total)` last, with completed the number of started items |
| Driver.BatchEntriesAreItems | main.py:1427-1457 | in the corrected batch each started item leaves one entry built from that item |
| Driver.BatchEntryOwnMeta | main.py:1439-1446 | in the corrected batch the uploader and duration come from the item's own fetch, or are "" without one |
| Driver.DownloadBatch | main.py:1395-1459 | the corrected loop sends exactly `BatchEvents` and prepends one entry per started item |
| Driver.BatchAsWritten | main.py:1395-1459 | defines `batch_task` as written: `meta` is bound only by a successful fetch for an embedded file and is kept across items, and reading it unbound ends the thread |
| Driver.BatchAsWrittenCrashes | main.py:1427-1446 | as written, a batch item with a file but without embedding dies on the unbound `meta`: no entry, no item-done, no batch_finished |
| Driver.BatchAsWrittenReusesMeta | main.py:1427-1446 | as written, a failed fetch after a successful one writes the earlier video's uploader |
| Driver.BatchAsWrittenAgrees | main.py:1395-1459 | when every fetch succeeds, the loop as written and the corrected loop agree on events and entries |

## Left out

- The window, its widgets, dialogs and event handlers are presentation only.
  The window's queue is modelled only as the list of messages a driver puts
  on it.
- Threads, `threading.Event` polling and `time.sleep` are not modelled. How
  each item's wait ends is an input, as are the cancel flag seen before each
  item and the way `cancel()` finds the process (running now, still running
  after the grace period).
- Subprocess spawn, terminate and kill, the thumbnail download, ffmpeg
  embedding and the clock are not modelled. A run is described by what the
  child prints and how it ends, thumbnail embedding by whether it succeeded,
  and `now_str()` by the date an item carries.
- JSON encoding and decoding are not modelled. Files are documents that are
  missing, unreadable or stored. A history file that parses to something
  other than a list, and metadata that is not an object, are not modelled.
  Write failures are not modelled: `save_settings` logs them, and the
  history writers raise.
- `json.loads` on the selected text is opaque, so the "Failed to parse
  yt-dlp output as JSON" error is not modelled.
- The "newest file in the output folder" fallback (main.py:1589-1597) is not
  modelled. The file it finds is an input of the item.
- Floating-point arithmetic is not modelled. Percent is kept in integer
  tenths, which is exact for the captured `d{1,3}.d`, and the `/100`
  normalisations are left out.
- The progress callbacks of the drivers (per-row and per-item progress) are
  not among the driver messages. The single-download and redownload
  handlers, `_extract_video_id` (which depends on `urllib.parse`), and the
  entry points that read `batch_embed_var` / `playlist_embed_var` are not
  part of this model.
- The callbacks are always passed in the source, so the `if callback:`
  guards are not modelled.
- The cancel race is not modelled. A download cancelled during its wait can
  still call its error callback later, on the other thread. The model ends
  the item at the cancel.
- ProgressLine: `\w` in the speed pattern is modelled for ASCII word
  characters only, and `\s` as the characters `str.isspace` accepts.
- Metadata.IsRestrictedError: lower-casing is modelled for A-Z only. For the
  three ASCII markers this decides the same as Python's full `str.lower()`.
- Driver.Stem: `PurePath.stem` is modelled for paths without a drive and
  without trailing separators. `\` and `/` are the separators, as on Windows.

## Findings

| source | as written | input that shows it | evidently intended | confidence | as-written member | corrected member |
|---|---|---|---|---|---|---|
| main.py:1427-1446 | `batch_task` assigns `meta` only inside `if outp and embed_thumb:`, and only when the fetch succeeds. `meta` is a local of the whole task, so an item without that fetch reads either no value or an earlier item's. The `duration` read is inside a bare `try`, but the `uploader` read at main.py:1446 is not. | A batch of one URL whose download finishes with embedding off: the read raises UnboundLocalError. The thread dies before `append_history`, `batch_item_done` and `batch_finished`. A second variant: two URLs with embedding on, where only the first fetch succeeds; the second entry gets the first video's uploader. | `meta = {}` before each item, as `dl_seq_task` does (main.py:1598-1602): every started item writes an entry from its own fetch, and `batch_finished` is always sent | not executed | Driver.BatchAsWritten (Driver.BatchAsWrittenCrashes, Driver.BatchAsWrittenReusesMeta) | Driver.DownloadBatch (Driver.BatchEntriesAreItems, Driver.BatchEntryOwnMeta, Driver.BatchEventsEnd) |
