/** The loops that download several videos one after the other: the
    playlist driver dl_seq_task (main.py:1552-1629) and the batch driver
    batch_task (main.py:1395-1459). Each item's download runs on another
    thread; here the way its wait ends (finished, failed, or interrupted by
    a cancel), the cancel flag as seen before the item, the newest file of
    the output folder, the metadata fetch, the thumbnail embedding and the
    clock are inputs of the item. */
module Driver {
  import opened Wrappers
  import opened Store

  // ---------------------------------------------------------------
  // Path(p).stem
  // ---------------------------------------------------------------

  /** A separator of a Windows path. */
  predicate IsSep(c: char) {
    c == '\\' || c == '/'
  }

  /** The final component of a path. */
  function NameOf(path: string): (name: string)
    ensures |name| <= |path|
    ensures forall k | 0 <= k < |name| :: !IsSep(name[k])
  {
    if path == [] || IsSep(path[|path| - 1]) then []
    else NameOf(path[..|path| - 1]) + [path[|path| - 1]]
  }

  /** The final component is the tail of the path after its last
      separator, or the whole path when it has none. */
  lemma {:induction false} NameOfIsTail(path: string)
    ensures var name := NameOf(path);
            && name == path[|path| - |name|..]
            && (|name| < |path| ==> IsSep(path[|path| - |name| - 1]))
    decreases |path|
  {
    if path != [] && !IsSep(path[|path| - 1]) {
      var init := path[..|path| - 1];
      NameOfIsTail(init);
      var n := NameOf(init);
      assert path[|path| - |n| - 1..] == init[|init| - |n|..] + [path[|path| - 1]];
    }
  }

  /** The position of the last '.' in `s`, if any. */
  function LastDot(s: string): (r: Option<nat>)
    ensures r.Some? ==> r.value < |s| && s[r.value] == '.' && '.' !in s[r.value + 1..]
    ensures r.None? ==> '.' !in s
  {
    if s == [] then None
    else if s[|s| - 1] == '.' then Some(|s| - 1)
    else
      var r := LastDot(s[..|s| - 1]);
      assert s == s[..|s| - 1] + [s[|s| - 1]];
      r
  }

  /** PurePath.stem: the final component without its last suffix, a suffix
      being a final '.' that is neither the first nor the last character. */
  function Stem(path: string): string {
    var name := NameOf(path);
    match LastDot(name)
    case Some(i) => if 0 < i < |name| - 1 then name[..i] else name
    case None => name
  }

  lemma {:induction false} NameOfJoin(dir: string, name: string)
    requires name != [] && forall k | 0 <= k < |name| :: !IsSep(name[k])
    ensures NameOf(dir + "\\" + name) == name
    decreases |name|
  {
    var p := dir + "\\" + name;
    var last := name[|name| - 1];
    assert p[..|p| - 1] == dir + "\\" + name[..|name| - 1];
    if |name| == 1 {
      assert NameOf(dir + "\\") == [];
      assert name == [last];
    } else {
      NameOfJoin(dir, name[..|name| - 1]);
      assert name == name[..|name| - 1] + [last];
    }
  }

  lemma {:induction false} LastDotAt(s: string, i: nat)
    requires i < |s| && s[i] == '.' && '.' !in s[i + 1..]
    ensures LastDot(s) == Some(i)
    decreases |s|
  {
    if i < |s| - 1 {
      var init := s[..|s| - 1];
      assert s[|s| - 1] == s[i + 1..][|s| - 2 - i];
      assert init[i + 1..] == s[i + 1..][..|s| - 2 - i];
      LastDotAt(init, i);
    }
  }

  /** The file yt-dlp writes for the template "%(title)s.%(ext)s" in a
      folder: its stem is the title again, dots in the title included. */
  lemma StemOfDownload(dir: string, title: string, ext: string)
    requires title != [] && ext != [] && '.' !in ext
    requires forall k | 0 <= k < |title| :: !IsSep(title[k])
    requires forall k | 0 <= k < |ext| :: !IsSep(ext[k])
    ensures Stem(dir + "\\" + title + "." + ext) == title
  {
    var name := title + "." + ext;
    assert forall k | 0 <= k < |name| :: !IsSep(name[k]) by {
      forall k | 0 <= k < |name| ensures !IsSep(name[k]) {
        if k > |title| {
          assert name[k] == ext[k - |title| - 1];
        }
      }
    }
    assert dir + "\\" + title + "." + ext == dir + "\\" + name;
    NameOfJoin(dir, name);
    var i := |title|;
    assert name[i] == '.' && name[i + 1..] == ext;
    LastDotAt(name, i);
    assert name[..i] == title;
  }

  // ---------------------------------------------------------------
  // Items and events
  // ---------------------------------------------------------------

  /** How the wait of main.py:1582-1586 (1412-1416 in the batch) ends:
      finished_callback(path), error_callback(message), or the cancel flag
      seen before either. */
  datatype Wait =
    | Finished(path: Option<string>)
    | Errored(message: string)
    | Cancelled

  /** One video to download and what the outside world does while it is
      downloaded. */
  datatype Item = Item(
    vid: string,                // the playlist video id (unused by the batch)
    entry: Object,              // the playlist entry (the batch uses its "url" only)
    cancelBefore: bool,         // the cancel flag is set when the item's turn comes
    wait: Wait,
    newest: Option<string>,     // the newest file of the output folder, if any
    fetched: Option<Object>,    // what fetch_metadata_via_yt_dlp returns; None: it raises
    embedOk: bool,              // the thumbnail is downloaded and embedded
    date: string)               // now_str() when the entry is written

  /** The settings both drivers read once before the loop. */
  datatype Params = Params(format: string, maxRes: string, outdir: string, embedThumb: bool)

  /** The messages the drivers put on the window's queue. */
  datatype UiEvent =
    | RowError(vid: string, message: string)
    | SeqItemDone(completed: nat, total: nat, vid: string)
    | SeqFinished(completed: nat, total: nat)
    | BatchItemStart(index: nat, url: Value)
    | BatchItemError(index: nat, message: string)
    | BatchItemDone(completed: nat, total: nat)
    | BatchFinished(completed: nat, total: nat)

  /** What a driver leaves behind: its events, the history entries it
      appended (oldest first), and whether the thread died on an exception. */
  datatype Run = Run(events: seq<UiEvent>, entries: seq<Object>, crashed: bool)

  /** The path finished_callback reported, if truthy. */
  function ReportedPath(w: Wait): Option<string> {
    if w.Finished? && w.path.Some? && w.path.value != [] then w.path else None
  }

  /** `outp` after the fallback to the newest file: a truthy path or None. */
  function OutputPath(it: Item): (outp: Option<string>)
    ensures outp.Some? ==> outp.value != []
  {
    var reported := ReportedPath(it.wait);
    if reported.Some? then reported
    else if it.newest.Some? && it.newest.value != [] then it.newest
    else None
  }

  /** The thumbnail is embedded only for a file, when asked, when the fetch
      succeeded with a truthy "thumbnail" and the embedding worked. */
  function Embedded(it: Item, meta: Option<Object>, p: Params): bool {
    && OutputPath(it).Some? && p.embedThumb
    && meta.Some? && Truthy(Get(meta.value, "thumbnail", Null)) && it.embedOk
  }

  /** The history entry of a download (main.py:1613-1625 and 1439-1455). */
  function HistoryEntry(it: Item, meta: Object, embedded: bool, mode: string,
                        fallbackTitle: Value, p: Params): Object
  {
    var outp := OutputPath(it);
    map[
      "title" := if outp.Some? then Str(Stem(outp.value)) else fallbackTitle,
      "url" := Get(it.entry, "url", Null),
      "uploader" := if meta != map[] then Get(meta, "uploader", Null) else Str(""),
      "duration" := if meta != map[] then Get(meta, "duration_string", Null) else Str(""),
      "resolution" := Str(p.maxRes),
      "format" := Str(p.format),
      "download_mode" := Str(mode),
      "download_path" := Str(p.outdir),
      "thumbnail_embedded" := Bool(embedded),
      "redownloaded" := Bool(false),
      "date" := Str(it.date)]
  }

  /** Putting `entries` in front of `base` one at a time, as successive
      append_history calls do: the newest entry comes first, the others in
      reverse order of writing, and the older history follows unchanged. */
  function Prepended(entries: seq<Object>, base: seq<Object>): (r: seq<Object>)
    ensures |r| == |entries| + |base|
    ensures forall k | 0 <= k < |entries| :: r[k] == entries[|entries| - 1 - k]
    ensures r[|entries|..] == base
  {
    if entries == [] then base
    else
      var init := entries[..|entries| - 1];
      var rest := Prepended(init, base);
      var r := [entries[|entries| - 1]] + rest;
      assert forall k | 0 < k < |entries| :: r[k] == rest[k - 1] == init[|init| - k];
      assert r[|entries|..] == rest[|init|..];
      r
  }

  // ---------------------------------------------------------------
  // The playlist driver
  // ---------------------------------------------------------------

  /** How many items start: each one until the cancel flag is found set,
      a cancel seen during a wait stopping the loop at the next check. */
  function Started(items: seq<Item>): (n: nat)
    ensures n <= |items|
  {
    if items == [] || items[0].cancelBefore then 0
    else if items[0].wait.Cancelled? then 1
    else 1 + Started(items[1..])
  }

  /** No item starts once the cancel flag is set: every started item found
      it clear and none follows a wait that was cancelled; the loop stops
      before the end only at a set flag. */
  lemma {:induction false} StartedBeforeCancel(items: seq<Item>)
    ensures var n := Started(items);
            && (forall k | 0 <= k < n :: !items[k].cancelBefore)
            && (forall k | 0 <= k < n - 1 :: !items[k].wait.Cancelled?)
            && (n < |items| ==> items[n].cancelBefore || (n > 0 && items[n - 1].wait.Cancelled?))
    decreases |items|
  {
    if items != [] && !items[0].cancelBefore && !items[0].wait.Cancelled? {
      var tail := items[1..];
      StartedBeforeCancel(tail);
      assert forall k | 0 < k <= Started(tail) :: items[k] == tail[k - 1];
    }
  }

  /** The metadata dl_seq_task uses: the fetch result, {} when it raises. */
  function SeqMeta(it: Item): Object {
    if it.fetched.Some? then it.fetched.value else map[]
  }

  /** The history entry of a playlist item (main.py:1598-1625). */
  function SeqEntry(it: Item, p: Params): Object {
    var meta := SeqMeta(it);
    HistoryEntry(it, meta, Embedded(it, Some(meta), p), "Playlist",
                 Get(it.entry, "title", Str("")), p)
  }

  /** The entries of `items`, in order. */
  function SeqEntriesOf(items: seq<Item>, p: Params): (r: seq<Object>) {
    seq(|items|, k requires 0 <= k < |items| => SeqEntry(items[k], p))
  }


  /** The entries dl_seq_task appends, oldest first: one per started item. */
  function SeqEntries(items: seq<Item>, p: Params): seq<Object> {
    SeqEntriesOf(items[..Started(items)], p)
  }


  /** Each started item leaves its own entry, in the order they started. */
  lemma SeqEntriesAreItems(items: seq<Item>, p: Params)
    ensures |SeqEntries(items, p)| == Started(items)
    ensures forall k | 0 <= k < Started(items) :: SeqEntries(items, p)[k] == SeqEntry(items[k], p)
  {
  }

  /** The events of one started playlist item: the error callback's row
      error, then the item-done message. */
  function SeqItemEvents(it: Item, completed: nat, total: nat): seq<UiEvent> {
    (if it.wait.Errored? then [RowError(it.vid, it.wait.message)] else [])
      + [SeqItemDone(completed, total, it.vid)]
  }

  /** The messages of dl_seq_task from `items` on, `completed` items done. */
  function SeqEvents(items: seq<Item>, total: nat, completed: nat): seq<UiEvent>
    decreases |items|
  {
    if items == [] || items[0].cancelBefore then [SeqFinished(completed, total)]
    else
      SeqItemEvents(items[0], completed + 1, total)
        + if items[0].wait.Cancelled? then [SeqFinished(completed + 1, total)]
          else SeqEvents(items[1..], total, completed + 1)
  }

  /** The last message reports (completed, total), completed counting the
      started items. */
  lemma {:induction false} SeqEventsEnd(items: seq<Item>, total: nat, completed: nat)
    ensures var e := SeqEvents(items, total, completed);
            e != [] && e[|e| - 1] == SeqFinished(completed + Started(items), total)
    decreases |items|
  {
    if items != [] && !items[0].cancelBefore && !items[0].wait.Cancelled? {
      SeqEventsEnd(items[1..], total, completed + 1);
    }
  }

  /** The item-done messages among `events`. */
  function Dones(events: seq<UiEvent>): seq<UiEvent> {
    if events == [] then []
    else (if events[0].SeqItemDone? then [events[0]] else []) + Dones(events[1..])
  }

  lemma {:induction false} DonesAppend(a: seq<UiEvent>, b: seq<UiEvent>)
    ensures Dones(a + b) == Dones(a) + Dones(b)
    decreases |a|
  {
    if a != [] {
      assert (a + b)[0] == a[0];
      assert (a + b)[1..] == a[1..] + b;
      DonesAppend(a[1..], b);
    } else {
      assert a + b == b;
    }
  }

  lemma ItemDones(it: Item, completed: nat, total: nat)
    ensures Dones(SeqItemEvents(it, completed, total)) == [SeqItemDone(completed, total, it.vid)]
  {
    var done := [SeqItemDone(completed, total, it.vid)];
    assert Dones(done) == done + Dones([]);
    if it.wait.Errored? {
      var err := [RowError(it.vid, it.wait.message)];
      DonesAppend(err, done);
      assert Dones(err) == [] + Dones([]);
    } else {
      assert SeqItemEvents(it, completed, total) == done;
    }
  }

  /** The item-done messages count completed + 1, completed + 2, ... once
      per started item and name those items in order. */
  ghost predicate DonesCount(d: seq<UiEvent>, items: seq<Item>, total: nat, completed: nat) {
    |d| <= |items| && forall k | 0 <= k < |d| :: d[k] == SeqItemDone(completed + k + 1, total, items[k].vid)
  }

  lemma DonesShift(first: UiEvent, d: seq<UiEvent>, items: seq<Item>, total: nat, completed: nat)
    requires items != [] && first == SeqItemDone(completed + 1, total, items[0].vid)
    requires DonesCount(d, items[1..], total, completed + 1)
    ensures DonesCount([first] + d, items, total, completed)
  {
    forall k | 1 <= k < |d| + 1 ensures ([first] + d)[k] == SeqItemDone(completed + k + 1, total, items[k].vid) {
      assert ([first] + d)[k] == d[k - 1];
      assert items[k] == items[1..][k - 1];
    }
  }

  lemma {:induction false} SeqEventsDones(items: seq<Item>, total: nat, completed: nat)
    ensures var d := Dones(SeqEvents(items, total, completed));
            |d| == Started(items) && DonesCount(d, items, total, completed)
    decreases |items|
  {
    var fin := [SeqFinished(completed, total)];
    if items == [] || items[0].cancelBefore {
      assert Dones(fin) == [] + Dones([]);
    } else {
      var it := items[0];
      var head := SeqItemEvents(it, completed + 1, total);
      var rest := if it.wait.Cancelled? then [SeqFinished(completed + 1, total)]
                  else SeqEvents(items[1..], total, completed + 1);
      assert SeqEvents(items, total, completed) == head + rest;
      DonesAppend(head, rest);
      ItemDones(it, completed + 1, total);
      if it.wait.Cancelled? {
        assert Dones(rest) == [] + Dones([]);
      } else {
        SeqEventsDones(items[1..], total, completed + 1);
      }
      DonesShift(SeqItemDone(completed + 1, total, it.vid), Dones(rest), items, total, completed);
    }
  }

  /** What the loop of dl_seq_task knows after `i` items: the messages so
      far and how the rest goes. */
  ghost predicate SeqLoopInv(items: seq<Item>, i: nat, cancelled: bool, events: seq<UiEvent>) {
    && i <= |items|
    && (cancelled ==> Started(items) == i
                      && SeqEvents(items, |items|, 0) == events + [SeqFinished(i, |items|)])
    && (!cancelled ==> Started(items) == i + Started(items[i..])
                       && SeqEvents(items, |items|, 0) == events + SeqEvents(items[i..], |items|, i))
  }

  lemma SeqLoopStart(items: seq<Item>)
    ensures SeqLoopInv(items, 0, false, [])
  {
    assert items[0..] == items;
  }

  /** The flag is found set: the loop ends here. */
  lemma SeqLoopStop(items: seq<Item>, i: nat, events: seq<UiEvent>)
    requires SeqLoopInv(items, i, false, events) && i < |items| && items[i].cancelBefore
    ensures SeqLoopInv(items, i, true, events)
  {
    assert items[i..][0] == items[i];
  }

  /** One started item. */
  lemma SeqLoopItem(items: seq<Item>, i: nat, events: seq<UiEvent>)
    requires SeqLoopInv(items, i, false, events) && i < |items| && !items[i].cancelBefore
    ensures SeqLoopInv(items, i + 1, items[i].wait.Cancelled?,
                       events + SeqItemEvents(items[i], i + 1, |items|))
  {
    var rest := items[i..];
    assert rest[0] == items[i] && rest[1..] == items[i + 1..];
    SeqEventsStep(rest, |items|, i);
  }

  lemma SeqEventsStep(items: seq<Item>, total: nat, completed: nat)
    requires items != [] && !items[0].cancelBefore
    ensures SeqEvents(items, total, completed)
            == SeqItemEvents(items[0], completed + 1, total)
               + if items[0].wait.Cancelled? then [SeqFinished(completed + 1, total)]
                 else SeqEvents(items[1..], total, completed + 1)
    ensures Started(items) == if items[0].wait.Cancelled? then 1 else 1 + Started(items[1..])
  {
  }

  lemma SeqLoopEnd(items: seq<Item>, i: nat, cancelled: bool, events: seq<UiEvent>)
    requires SeqLoopInv(items, i, cancelled, events) && (cancelled || i == |items|)
    ensures Started(items) == i
    ensures SeqEvents(items, |items|, 0) == events + [SeqFinished(i, |items|)]
  {
    if !cancelled {
      assert items[i..] == [];
    }
  }

  lemma SeqEntriesOfSnoc(items: seq<Item>, i: nat, p: Params)
    requires i < |items|
    ensures SeqEntriesOf(items[..i + 1], p) == SeqEntriesOf(items[..i], p) + [SeqEntry(items[i], p)]
  {
    assert items[..i + 1][..i] == items[..i];
  }

  lemma PrependedSnoc(entries: seq<Object>, e: Object, base: seq<Object>)
    ensures Prepended(entries + [e], base) == [e] + Prepended(entries, base)
  {
    assert (entries + [e])[..|entries|] == entries;
  }

  /** The history document after `entries` were appended one at a time. */
  function HistoryAfter(doc: Document<seq<Object>>, entries: seq<Object>): Document<seq<Object>> {
    if entries == [] then doc else Stored(Prepended(entries, HistoryOf(doc)))
  }

  lemma HistoryAfterSnoc(doc: Document<seq<Object>>, entries: seq<Object>, e: Object)
    ensures HistoryAfter(doc, entries + [e]) == Stored([e] + HistoryOf(HistoryAfter(doc, entries)))
  {
    PrependedSnoc(entries, e, HistoryOf(doc));
  }

  /** One started item of dl_seq_task (main.py:1558-1628): the error
      callback's row error, the history entry, the item-done message. */
  method SeqItem(files: Files, it: Item, p: Params, completed: nat, total: nat)
    returns (itemEvents: seq<UiEvent>, cancelled: bool)
    modifies files
    ensures itemEvents == SeqItemEvents(it, completed + 1, total)
    ensures cancelled == it.wait.Cancelled?
    ensures files.historyDoc == Stored([SeqEntry(it, p)] + HistoryOf(old(files.historyDoc)))
    ensures files.settingsDoc == old(files.settingsDoc)
  {
    itemEvents := [];
    if it.wait.Errored? {
      itemEvents := [RowError(it.vid, it.wait.message)];
    }
    cancelled := it.wait.Cancelled?;
    var entry := SeqEntry(it, p);
    files.AppendHistory(entry);
    itemEvents := itemEvents + [SeqItemDone(completed + 1, total, it.vid)];
  }

  /** The loop of dl_seq_task (main.py:1552-1629), with the history kept by
      `files`. */
  method DownloadSequence(files: Files, items: seq<Item>, p: Params) returns (events: seq<UiEvent>)
    modifies files
    ensures events == SeqEvents(items, |items|, 0)
    ensures files.historyDoc == HistoryAfter(old(files.historyDoc), SeqEntries(items, p))
    ensures files.settingsDoc == old(files.settingsDoc)
  {
    var total := |items|;
    var completed := 0;
    var cancelled := false;
    events := [];
    var i := 0;
    SeqLoopStart(items);
    while i < |items| && !cancelled
      invariant 0 <= i <= |items| && completed == i
      invariant SeqLoopInv(items, i, cancelled, events)
      invariant files.historyDoc == HistoryAfter(old(files.historyDoc), SeqEntriesOf(items[..i], p))
      invariant files.settingsDoc == old(files.settingsDoc)
      decreases |items| - i, !cancelled
    {
      var it := items[i];
      if it.cancelBefore {
        SeqLoopStop(items, i, events);
        cancelled := true;
      } else {
        SeqLoopItem(items, i, events);
        var itemEvents;
        itemEvents, cancelled := SeqItem(files, it, p, completed, total);
        SeqEntriesOfSnoc(items, i, p);
        HistoryAfterSnoc(old(files.historyDoc), SeqEntriesOf(items[..i], p), SeqEntry(it, p));
        events := events + itemEvents;
        completed := completed + 1;
        i := i + 1;
      }
    }
    SeqLoopEnd(items, i, cancelled, events);
    events := events + [SeqFinished(completed, total)];
  }

  // ---------------------------------------------------------------
  // The batch driver
  // ---------------------------------------------------------------

  /** The events of one started batch item, number `n` counting from 1:
      batch_item_start, the error callback's batch_item_error, then
      batch_item_done. The loop counts `completed` up with the index, so
      the item-done message carries `n` too. */
  function BatchItemEvents(it: Item, n: nat, total: nat): seq<UiEvent> {
    [BatchItemStart(n, Get(it.entry, "url", Null))]
      + (if it.wait.Errored? then [BatchItemError(n, it.wait.message)] else [])
      + [BatchItemDone(n, total)]
  }

  /** The messages of batch_task from `items` on, `completed` items done. */
  function BatchEvents(items: seq<Item>, total: nat, completed: nat): seq<UiEvent>
    decreases |items|
  {
    if items == [] || items[0].cancelBefore then [BatchFinished(completed, total)]
    else
      BatchItemEvents(items[0], completed + 1, total)
        + if items[0].wait.Cancelled? then [BatchFinished(completed + 1, total)]
          else BatchEvents(items[1..], total, completed + 1)
  }

  /** The last message is batch_finished(completed, total), completed
      counting the started items. */
  lemma {:induction false} BatchEventsEnd(items: seq<Item>, total: nat, completed: nat)
    ensures var e := BatchEvents(items, total, completed);
            e != [] && e[|e| - 1] == BatchFinished(completed + Started(items), total)
    decreases |items|
  {
    if items != [] && !items[0].cancelBefore && !items[0].wait.Cancelled? {
      BatchEventsEnd(items[1..], total, completed + 1);
    }
  }

  /** Whether batch_task fetches metadata for an item: a file was found
      and embedding was asked for. */
  predicate FetchesMeta(it: Item, p: Params) {
    OutputPath(it).Some? && p.embedThumb
  }

  /** The metadata fetched for an item, None when none was fetched or the
      fetch failed. */
  function BatchFetched(it: Item, p: Params): Option<Object> {
    if FetchesMeta(it, p) then it.fetched else None
  }

  /** The entry batch_task writes for an item, given the `meta` it reads. */
  function BatchEntryWith(it: Item, meta: Object, p: Params): Object {
    HistoryEntry(it, meta, Embedded(it, BatchFetched(it, p), p), "Batch", Str(""), p)
  }

  /** The entry of an item when `meta` starts as {} for each item: only the
      item's own fetch can fill it. */
  function BatchEntry(it: Item, p: Params): Object {
    var fetched := BatchFetched(it, p);
    BatchEntryWith(it, if fetched.Some? then fetched.value else map[], p)
  }

  /** The entries of `items`, in order. */
  function BatchEntriesOf(items: seq<Item>, p: Params): (r: seq<Object>) {
    seq(|items|, k requires 0 <= k < |items| => BatchEntry(items[k], p))
  }


  /** The entries the corrected batch_task appends, oldest first. */
  function BatchEntries(items: seq<Item>, p: Params): seq<Object> {
    BatchEntriesOf(items[..Started(items)], p)
  }


  /** Each started item leaves one entry, built from that item and its own
      fetch only. */
  lemma BatchEntriesAreItems(items: seq<Item>, p: Params)
    ensures |BatchEntries(items, p)| == Started(items)
    ensures forall k | 0 <= k < Started(items) :: BatchEntries(items, p)[k] == BatchEntry(items[k], p)
  {
  }

  /** An entry's uploader and duration come from the item's own fetch, and
      are "" when there was none. */
  lemma BatchEntryOwnMeta(it: Item, p: Params)
    ensures var e := BatchEntry(it, p);
            var fetched := BatchFetched(it, p);
            && "uploader" in e && "duration" in e
            && (fetched.Some? && fetched.value != map[] ==>
                  e["uploader"] == Get(fetched.value, "uploader", Null)
                  && e["duration"] == Get(fetched.value, "duration_string", Null))
            && (fetched.None? ==> e["uploader"] == Str("") && e["duration"] == Str(""))
  {
  }

  ghost predicate BatchLoopInv(items: seq<Item>, i: nat, cancelled: bool, events: seq<UiEvent>) {
    && i <= |items|
    && (cancelled ==> Started(items) == i
                      && BatchEvents(items, |items|, 0) == events + [BatchFinished(i, |items|)])
    && (!cancelled ==> Started(items) == i + Started(items[i..])
                       && BatchEvents(items, |items|, 0) == events + BatchEvents(items[i..], |items|, i))
  }

  lemma BatchLoopStart(items: seq<Item>)
    ensures BatchLoopInv(items, 0, false, [])
  {
    assert items[0..] == items;
  }

  lemma BatchLoopStop(items: seq<Item>, i: nat, events: seq<UiEvent>)
    requires BatchLoopInv(items, i, false, events) && i < |items| && items[i].cancelBefore
    ensures BatchLoopInv(items, i, true, events)
  {
    assert items[i..][0] == items[i];
  }

  lemma BatchLoopItem(items: seq<Item>, i: nat, events: seq<UiEvent>)
    requires BatchLoopInv(items, i, false, events) && i < |items| && !items[i].cancelBefore
    ensures BatchLoopInv(items, i + 1, items[i].wait.Cancelled?,
                         events + BatchItemEvents(items[i], i + 1, |items|))
  {
    var rest := items[i..];
    assert rest[0] == items[i] && rest[1..] == items[i + 1..];
    BatchEventsStep(rest, |items|, i);
  }

  lemma BatchEventsStep(items: seq<Item>, total: nat, completed: nat)
    requires items != [] && !items[0].cancelBefore
    ensures BatchEvents(items, total, completed)
            == BatchItemEvents(items[0], completed + 1, total)
               + if items[0].wait.Cancelled? then [BatchFinished(completed + 1, total)]
                 else BatchEvents(items[1..], total, completed + 1)
    ensures Started(items) == if items[0].wait.Cancelled? then 1 else 1 + Started(items[1..])
  {
  }

  lemma BatchLoopEnd(items: seq<Item>, i: nat, cancelled: bool, events: seq<UiEvent>)
    requires BatchLoopInv(items, i, cancelled, events) && (cancelled || i == |items|)
    ensures Started(items) == i
    ensures BatchEvents(items, |items|, 0) == events + [BatchFinished(i, |items|)]
  {
    if !cancelled {
      assert items[i..] == [];
    }
  }

  lemma BatchEntriesOfSnoc(items: seq<Item>, i: nat, p: Params)
    requires i < |items|
    ensures BatchEntriesOf(items[..i + 1], p) == BatchEntriesOf(items[..i], p) + [BatchEntry(items[i], p)]
  {
    assert items[..i + 1][..i] == items[..i];
  }

  /** One started item of batch_task (main.py:1400-1458) with `meta`
      starting as {}: the start message, the error callback's message, the
      history entry, the item-done message. */
  method BatchItem(files: Files, it: Item, p: Params, completed: nat, total: nat)
    returns (itemEvents: seq<UiEvent>, cancelled: bool)
    modifies files
    ensures itemEvents == BatchItemEvents(it, completed + 1, total)
    ensures cancelled == it.wait.Cancelled?
    ensures files.historyDoc == Stored([BatchEntry(it, p)] + HistoryOf(old(files.historyDoc)))
    ensures files.settingsDoc == old(files.settingsDoc)
  {
    itemEvents := [BatchItemStart(completed + 1, Get(it.entry, "url", Null))];
    if it.wait.Errored? {
      itemEvents := itemEvents + [BatchItemError(completed + 1, it.wait.message)];
    }
    cancelled := it.wait.Cancelled?;
    var meta: Object := map[];
    var fetched := BatchFetched(it, p);
    if fetched.Some? {
      meta := fetched.value;
    }
    var entry := BatchEntryWith(it, meta, p);
    files.AppendHistory(entry);
    itemEvents := itemEvents + [BatchItemDone(completed + 1, total)];
  }

  /** The loop of batch_task (main.py:1395-1459) with `meta` reset to {}
      for each item, the history kept by `files`. */
  method DownloadBatch(files: Files, items: seq<Item>, p: Params) returns (events: seq<UiEvent>)
    modifies files
    ensures events == BatchEvents(items, |items|, 0)
    ensures files.historyDoc == HistoryAfter(old(files.historyDoc), BatchEntries(items, p))
    ensures files.settingsDoc == old(files.settingsDoc)
  {
    var total := |items|;
    var completed := 0;
    var cancelled := false;
    events := [];
    var i := 0;
    BatchLoopStart(items);
    while i < |items| && !cancelled
      invariant 0 <= i <= |items| && completed == i
      invariant BatchLoopInv(items, i, cancelled, events)
      invariant files.historyDoc == HistoryAfter(old(files.historyDoc), BatchEntriesOf(items[..i], p))
      invariant files.settingsDoc == old(files.settingsDoc)
      decreases |items| - i, !cancelled
    {
      var it := items[i];
      if it.cancelBefore {
        BatchLoopStop(items, i, events);
        cancelled := true;
      } else {
        BatchLoopItem(items, i, events);
        var itemEvents;
        itemEvents, cancelled := BatchItem(files, it, p, completed, total);
        BatchEntriesOfSnoc(items, i, p);
        HistoryAfterSnoc(old(files.historyDoc), BatchEntriesOf(items[..i], p), BatchEntry(it, p));
        events := events + itemEvents;
        completed := completed + 1;
        i := i + 1;
      }
    }
    BatchLoopEnd(items, i, cancelled, events);
    events := events + [BatchFinished(completed, total)];
  }

  // ---------------------------------------------------------------
  // batch_task as written
  // ---------------------------------------------------------------

  /** batch_task's `meta`, a local of the whole task: unbound until the
      first fetch that succeeds. */
  datatype MetaBinding = Unbound | Bound(obj: Object)

  /** The rest of batch_task as written, from `items` on, `completed` items
      done, `meta` as left by the earlier items. `meta` is assigned only
      when a file was found, embedding was asked for and the fetch
      succeeded. The read for "duration" (main.py:1439-1442) is inside a
      bare try/except, but the read for "uploader" at main.py:1446 is not:
      with `meta` unbound it raises UnboundLocalError, which ends the
      thread after the item's start and error messages. */
  function BatchAsWrittenFrom(items: seq<Item>, total: nat, completed: nat,
                              meta: MetaBinding, p: Params): Run
    decreases |items|
  {
    if items == [] || items[0].cancelBefore then Run([BatchFinished(completed, total)], [], false)
    else
      var it := items[0];
      var head := [BatchItemStart(completed + 1, Get(it.entry, "url", Null))]
                  + (if it.wait.Errored? then [BatchItemError(completed + 1, it.wait.message)] else []);
      var fetched := BatchFetched(it, p);
      var current := if fetched.Some? then Bound(fetched.value) else meta;
      if current.Unbound? then Run(head, [], true)
      else
        var entry := BatchEntryWith(it, current.obj, p);
        var rest := if it.wait.Cancelled? then Run([BatchFinished(completed + 1, total)], [], false)
                    else BatchAsWrittenFrom(items[1..], total, completed + 1, current, p);
        Run(head + [BatchItemDone(completed + 1, total)] + rest.events, [entry] + rest.entries, rest.crashed)
  }

  /** batch_task as written. */
  function BatchAsWritten(items: seq<Item>, p: Params): Run {
    BatchAsWrittenFrom(items, |items|, 0, Unbound, p)
  }

  /** A video whose download finishes, in a batch without thumbnail
      embedding. */
  const PlainVideo: Item :=
    Item("", map["url" := Str("https://youtu.be/x")], false,
         Finished(Some("C:\\Downloads\\x.mp4")), None, None, false, "")
  const PlainParams: Params := Params("mp4", "Best", "C:\\Downloads", false)

  /** A one-item batch whose download finishes, without thumbnail
      embedding: as written the thread dies on the unbound `meta`, so no
      history entry is written and neither batch_item_done nor
      batch_finished is sent; the window waits forever. The corrected loop
      writes the entry and finishes. */
  lemma BatchAsWrittenCrashes()
    ensures var r := BatchAsWritten([PlainVideo], PlainParams);
            && r.crashed && r.entries == []
            && (forall k | 0 <= k < |r.events| :: !r.events[k].BatchFinished? && !r.events[k].BatchItemDone?)
            && |BatchEntries([PlainVideo], PlainParams)| == 1
            && BatchEvents([PlainVideo], 1, 0)[|BatchEvents([PlainVideo], 1, 0)| - 1] == BatchFinished(1, 1)
  {
    assert OutputPath(PlainVideo).Some?;
    assert [PlainVideo][1..] == [];
    assert Started([PlainVideo]) == 1;
    BatchEntriesAreItems([PlainVideo], PlainParams);
    BatchEventsEnd([PlainVideo], 1, 0);
  }

  /** Two finished videos of a batch with embedding on: the first fetch
      succeeds, the second raises. */
  const FirstVideo: Item :=
    Item("", map["url" := Str("a")], false, Finished(Some("a.mp4")), None,
         Some(map["uploader" := Str("First")]), false, "")
  const SecondVideo: Item :=
    Item("", map["url" := Str("b")], false, Finished(Some("b.mp4")), None, None, false, "")
  const EmbedParams: Params := Params("mp4", "Best", "out", true)

  /** As written the second entry carries the first video's uploader, where
      the corrected loop leaves it "". */
  lemma BatchAsWrittenReusesMeta()
    ensures var r := BatchAsWritten([FirstVideo, SecondVideo], EmbedParams);
            && |r.entries| == 2 && !r.crashed
            && Get(r.entries[1], "uploader", Null) == Str("First")
            && Get(BatchEntry(SecondVideo, EmbedParams), "uploader", Null) == Str("")
  {
    var p := EmbedParams;
    var meta := map["uploader" := Str("First")];
    assert OutputPath(FirstVideo) == Some("a.mp4") && OutputPath(SecondVideo) == Some("b.mp4");
    assert BatchFetched(FirstVideo, p) == Some(meta) && BatchFetched(SecondVideo, p) == None;
    assert [FirstVideo, SecondVideo][1..] == [SecondVideo] && [SecondVideo][1..] == [];
    AsWrittenStep([FirstVideo, SecondVideo], 2, 0, Unbound, p);
    AsWrittenStep([SecondVideo], 2, 1, Bound(meta), p);
    assert "uploader" in meta;
    EntryUploader(SecondVideo, meta, p);
    BatchEntryOwnMeta(SecondVideo, p);
  }

  /** One finished or failed item of the code as written, `meta` bound by
      now: its entry is built from the `meta` it reads, then the rest runs
      with that binding. */
  lemma AsWrittenStep(items: seq<Item>, total: nat, completed: nat, meta: MetaBinding, p: Params)
    requires items != [] && !items[0].cancelBefore && !items[0].wait.Cancelled?
    requires BatchFetched(items[0], p).Some? || meta.Bound?
    ensures var fetched := BatchFetched(items[0], p);
            var current := if fetched.Some? then Bound(fetched.value) else meta;
            var r := BatchAsWrittenFrom(items, total, completed, meta, p);
            var rest := BatchAsWrittenFrom(items[1..], total, completed + 1, current, p);
            r.entries == [BatchEntryWith(items[0], current.obj, p)] + rest.entries
            && r.crashed == rest.crashed
  {
  }

  lemma EntryUploader(it: Item, meta: Object, p: Params)
    requires meta != map[]
    ensures BatchEntryWith(it, meta, p)["uploader"] == Get(meta, "uploader", Null)
  {
  }

  /** Where every started item's fetch succeeds, the code as written and
      the corrected loop agree. */
  lemma {:induction false} BatchAsWrittenAgrees(items: seq<Item>, total: nat, completed: nat,
                                                meta: MetaBinding, p: Params)
    requires forall k | 0 <= k < |items| :: BatchFetched(items[k], p).Some?
    ensures var r := BatchAsWrittenFrom(items, total, completed, meta, p);
            && !r.crashed && r.events == BatchEvents(items, total, completed)
            && r.entries == BatchEntriesOf(items[..Started(items)], p)
    decreases |items|
  {
    if items == [] || items[0].cancelBefore {
      assert items[..0] == [];
    } else {
      var it := items[0];
      assert BatchFetched(it, p).Some?;
      var current := Bound(BatchFetched(it, p).value);
      assert BatchEntryWith(it, current.obj, p) == BatchEntry(it, p);
      if it.wait.Cancelled? {
        assert items[..1] == [it] && [it][..0] == [];
      } else {
        var tail := items[1..];
        assert forall k | 0 <= k < |tail| :: tail[k] == items[k + 1];
        BatchAsWrittenAgrees(tail, total, completed + 1, current, p);
        BatchEntriesOfCons(items, Started(items), p);
      }
    }
  }

  /** Building the entries of a prefix from its head on. */
  lemma BatchEntriesOfCons(items: seq<Item>, n: nat, p: Params)
    requires 0 < n <= |items|
    ensures BatchEntriesOf(items[..n], p) == [BatchEntry(items[0], p)] + BatchEntriesOf(items[1..][..n - 1], p)
  {
    var r := BatchEntriesOf(items[..n], p);
    var t := [BatchEntry(items[0], p)] + BatchEntriesOf(items[1..][..n - 1], p);
    assert forall k | 1 <= k < n :: items[..n][k] == items[1..][..n - 1][k - 1];
    assert forall k | 0 <= k < n :: r[k] == t[k];
  }
}
