/** The settings and history files (main.py:132-193) and the two settings
    actions of the window (main.py:1187-1202). A file is an in-memory
    document that is missing, unreadable (not valid JSON, or not of the
    expected shape) or stored; the JSON text itself is not modelled. */
module Store {
  import opened Wrappers

  /** A JSON value as the history and settings code sees it. Floats, lists
      and objects appear only as `Other`, carrying their Python truthiness. */
  datatype Value =
    | Null
    | Bool(b: bool)
    | Num(n: int)
    | Str(s: string)
    | Other(truthy: bool)

  /** Python truthiness of a value. */
  predicate Truthy(v: Value) {
    match v
    case Null => false
    case Bool(b) => b
    case Num(n) => n != 0
    case Str(s) => s != []
    case Other(t) => t
  }

  /** A JSON object: a settings dict or a history entry. */
  type Object = map<string, Value>

  /** dict.get(key, default). */
  function Get(obj: Object, key: string, default: Value): (v: Value)
    ensures key in obj ==> v == obj[key]
    ensures key !in obj ==> v == default
  {
    if key in obj then obj[key] else default
  }

  /** A file on disk. */
  datatype Document<T> = Missing | Unreadable | Stored(content: T)

  // ---------------------------------------------------------------
  // Settings
  // ---------------------------------------------------------------

  /** DEFAULT_SETTINGS in its insertion order (main.py:132-138);
      `downloadsDir` is str(DOWNLOADS_DIR). */
  function DefaultPairs(downloadsDir: string): seq<(string, Value)> {
    [ ("default_format", Str("mp4")),
      ("theme", Str("dark")),
      ("embed_thumbnail", Bool(true)),
      ("default_download_path", Str(downloadsDir)),
      ("cookies_path", Str("")) ]
  }

  /** The dict built from key/value pairs, a later pair winning. */
  function MapOf(pairs: seq<(string, Value)>): Object {
    if pairs == [] then map[]
    else
      var last := pairs[|pairs| - 1];
      MapOf(pairs[..|pairs| - 1])[last.0 := last.1]
  }

  /** The dict has exactly the keys of the pairs. */
  lemma {:induction false} MapOfKeys(pairs: seq<(string, Value)>)
    ensures forall k | k in MapOf(pairs) :: exists i | 0 <= i < |pairs| :: pairs[i].0 == k
    ensures forall i | 0 <= i < |pairs| :: pairs[i].0 in MapOf(pairs)
    decreases |pairs|
  {
    if pairs != [] {
      var init := pairs[..|pairs| - 1];
      MapOfKeys(init);
      assert forall i | 0 <= i < |init| :: init[i] == pairs[i];
    }
  }

  function DefaultSettings(downloadsDir: string): Object {
    MapOf(DefaultPairs(downloadsDir))
  }

  /** The defaults hold exactly the five keys of DEFAULT_SETTINGS, with a
      download path of `downloadsDir` and no cookies file. */
  lemma DefaultSettingsContent(downloadsDir: string)
    ensures var d := DefaultSettings(downloadsDir);
            && d.Keys == {"default_format", "theme", "embed_thumbnail", "default_download_path", "cookies_path"}
            && d["default_format"] == Str("mp4") && d["theme"] == Str("dark")
            && d["embed_thumbnail"] == Bool(true)
            && d["default_download_path"] == Str(downloadsDir)
            && d["cookies_path"] == Str("")
  {
    DefaultSettingsLiteral(downloadsDir);
  }

  lemma DefaultSettingsLiteral(downloadsDir: string)
    ensures DefaultSettings(downloadsDir)
            == map["default_format" := Str("mp4"), "theme" := Str("dark"), "embed_thumbnail" := Bool(true),
                   "default_download_path" := Str(downloadsDir), "cookies_path" := Str("")]
  {
    var a, b, c := ("default_format", Str("mp4")), ("theme", Str("dark")), ("embed_thumbnail", Bool(true));
    var d, e := ("default_download_path", Str(downloadsDir)), ("cookies_path", Str(""));
    assert DefaultPairs(downloadsDir) == [a, b, c, d, e];
    MapOfSnoc([], a);
    MapOfSnoc([a], b);
    MapOfSnoc([a, b], c);
    MapOfSnoc([a, b, c], d);
    MapOfSnoc([a, b, c, d], e);
    assert [] + [a] == [a] && [a] + [b] == [a, b] && [a, b] + [c] == [a, b, c];
    assert [a, b, c] + [d] == [a, b, c, d] && [a, b, c, d] + [e] == [a, b, c, d, e];
  }

  lemma MapOfSnoc(pairs: seq<(string, Value)>, p: (string, Value))
    ensures MapOf(pairs + [p]) == MapOf(pairs)[p.0 := p.1]
  {
    assert (pairs + [p])[..|pairs|] == pairs;
  }

  /** `data` with every missing default key filled in. */
  function Merged(data: Object, defaults: Object): Object {
    map k | k in data.Keys + defaults.Keys :: if k in data then data[k] else defaults[k]
  }

  /** The loop of main.py:148-150: fills in, in place, every default key the
      stored settings lack. */
  method MergeDefaults(data: Object, defaults: seq<(string, Value)>) returns (r: Object)
    requires KeysDistinct(defaults)
    ensures r == Merged(data, MapOf(defaults))
    ensures forall i | 0 <= i < |defaults| :: defaults[i].0 in r
    ensures forall k | k in data :: k in r && r[k] == data[k]
    ensures forall k | k in r :: k in data || exists i | 0 <= i < |defaults| :: defaults[i].0 == k
  {
    r := data;
    var i := 0;
    assert Merged(data, MapOf(defaults[..0])) == data;
    while i < |defaults|
      invariant 0 <= i <= |defaults|
      invariant r == Merged(data, MapOf(defaults[..i]))
    {
      var (k, v) := defaults[i];
      MergeLoopStep(data, defaults, i);
      if k !in r {
        r := r[k := v];
      }
      i := i + 1;
    }
    assert defaults[..i] == defaults;
    MergedKeys(data, defaults);
  }

  /** One turn of the loop of main.py:148-150. */
  lemma MergeLoopStep(data: Object, defaults: seq<(string, Value)>, i: nat)
    requires KeysDistinct(defaults) && i < |defaults|
    ensures var r := Merged(data, MapOf(defaults[..i]));
            var p := defaults[i];
            Merged(data, MapOf(defaults[..i + 1])) == if p.0 !in r then r[p.0 := p.1] else r
  {
    var pre := defaults[..i];
    var p := defaults[i];
    forall j | 0 <= j < |pre| ensures pre[j].0 != p.0 {
      assert pre[j] == defaults[j];
    }
    assert defaults[..i + 1] == pre + [p];
    MergedStep(data, pre, p);
  }

  /** What the merge keeps and adds. */
  lemma MergedKeys(data: Object, defaults: seq<(string, Value)>)
    ensures var r := Merged(data, MapOf(defaults));
            && (forall i | 0 <= i < |defaults| :: defaults[i].0 in r)
            && (forall k | k in data :: k in r && r[k] == data[k])
            && (forall k | k in r :: k in data || exists i | 0 <= i < |defaults| :: defaults[i].0 == k)
  {
    MapOfKeys(defaults);
  }

  /** One more default pair with a new key: filled in only when the stored
      settings lack it. */
  lemma MergedStep(data: Object, pairs: seq<(string, Value)>, p: (string, Value))
    requires forall i | 0 <= i < |pairs| :: pairs[i].0 != p.0
    ensures var before := Merged(data, MapOf(pairs));
            Merged(data, MapOf(pairs + [p])) == if p.0 in before then before else before[p.0 := p.1]
  {
    var ps := pairs + [p];
    assert ps[..|ps| - 1] == pairs;
    MapOfKeys(pairs);
    assert p.0 !in MapOf(pairs);
    MergedAdd(data, MapOf(pairs), p.0, p.1);
  }

  lemma MergedAdd(data: Object, defaults: Object, k: string, v: Value)
    requires k !in defaults
    ensures var before := Merged(data, defaults);
            Merged(data, defaults[k := v]) == if k in before then before else before[k := v]
  {
    var before := Merged(data, defaults);
    var after := Merged(data, defaults[k := v]);
    if k in data {
      assert after.Keys == before.Keys;
    } else {
      assert after.Keys == before.Keys + {k};
    }
  }

  /** The keys of a dict's items are distinct. */
  predicate KeysDistinct(pairs: seq<(string, Value)>) {
    forall i, j | 0 <= i < j < |pairs| :: pairs[i].0 != pairs[j].0
  }

  /** Merging is idempotent: filling in the defaults of settings that were
      already filled in changes nothing. */
  lemma MergedIdempotent(data: Object, defaults: Object)
    ensures Merged(Merged(data, defaults), defaults) == Merged(data, defaults)
  {
    var m := Merged(data, defaults);
    assert Merged(m, defaults).Keys == m.Keys;
  }

  /** What load_settings returns for a settings file (main.py:140-153). */
  function LoadedSettings(doc: Document<Object>, downloadsDir: string): (s: Object)
    ensures doc.Stored? ==> forall k | k in doc.content :: k in s && s[k] == doc.content[k]
    ensures forall k | k in DefaultSettings(downloadsDir) :: k in s
    ensures !doc.Stored? ==> s == DefaultSettings(downloadsDir)
  {
    match doc
    case Stored(data) => Merged(data, DefaultSettings(downloadsDir))
    case _ => DefaultSettings(downloadsDir)
  }

  /** The stored value of a key survives unless it is absent, when the
      default takes its place. */
  lemma LoadedSettingsValue(doc: Document<Object>, downloadsDir: string, k: string)
    requires k in DefaultSettings(downloadsDir)
    ensures var s := LoadedSettings(doc, downloadsDir);
            s[k] == if doc.Stored? && k in doc.content then doc.content[k] else DefaultSettings(downloadsDir)[k]
  {
  }

  /** The settings after "Apply" (main.py:1187-1196): the four edited keys
      replaced, an empty path entry meaning the downloads folder. */
  function Applied(current: Object, format: string, theme: string, embed: bool,
                   pathEntry: string, downloadsDir: string): Object
  {
    current["default_format" := Str(format)]["theme" := Str(theme)]
           ["embed_thumbnail" := Bool(embed)]
           ["default_download_path" := Str(if pathEntry != [] then pathEntry else downloadsDir)]
  }

  /** The applied download path is the entry, or the downloads folder when
      the entry is empty, so never empty; every other key is untouched. */
  lemma AppliedPath(current: Object, format: string, theme: string, embed: bool,
                    pathEntry: string, downloadsDir: string)
    requires downloadsDir != []
    ensures var s := Applied(current, format, theme, embed, pathEntry, downloadsDir);
            && s["default_download_path"].Str?
            && s["default_download_path"].s != []
            && (pathEntry != [] ==> s["default_download_path"] == Str(pathEntry))
            && (pathEntry == [] ==> s["default_download_path"] == Str(downloadsDir))
            && s["default_format"] == Str(format) && s["theme"] == Str(theme)
            && s["embed_thumbnail"] == Bool(embed)
            && forall k | k in current && k !in {"default_format", "theme", "embed_thumbnail", "default_download_path"}
                 :: k in s && s[k] == current[k]
  {
  }

  // ---------------------------------------------------------------
  // History
  // ---------------------------------------------------------------

  /** What load_history returns (main.py:163-173): nothing for a missing or
      unreadable file. */
  function HistoryOf(doc: Document<seq<Object>>): seq<Object> {
    if doc.Stored? then doc.content else []
  }

  /** list.pop(index) for an index in range. */
  function RemoveAt<T>(s: seq<T>, i: nat): (r: seq<T>)
    requires i < |s|
    ensures |r| == |s| - 1
    ensures forall k | 0 <= k < i :: r[k] == s[k]
    ensures forall k | i <= k < |r| :: r[k] == s[k + 1]
  {
    s[..i] + s[i + 1..]
  }

  /** Putting the removed entry back where it was restores the history. */
  lemma RemoveAtInverse<T>(s: seq<T>, i: nat)
    requires i < |s|
    ensures var r := RemoveAt(s, i);
            r[..i] + [s[i]] + r[i..] == s
  {
    var r := RemoveAt(s, i);
    assert r[..i] == s[..i];
    assert r[i..] == s[i + 1..];
  }

  /** The settings and history files, and str(DOWNLOADS_DIR). */
  class Files {
    var settingsDoc: Document<Object>
    var historyDoc: Document<seq<Object>>
    const downloadsDir: string

    constructor(settingsDoc: Document<Object>, historyDoc: Document<seq<Object>>, downloadsDir: string)
      ensures this.settingsDoc == settingsDoc && this.historyDoc == historyDoc
      ensures this.downloadsDir == downloadsDir
    {
      this.settingsDoc := settingsDoc;
      this.historyDoc := historyDoc;
      this.downloadsDir := downloadsDir;
    }

    /** save_settings (main.py:155-161); a failing write is not modelled. */
    method SaveSettings(settings: Object)
      modifies this
      ensures settingsDoc == Stored(settings)
      ensures historyDoc == old(historyDoc)
    {
      settingsDoc := Stored(settings);
    }

    /** load_settings (main.py:140-153): a missing file is first written
        with the defaults. */
    method LoadSettings() returns (settings: Object)
      modifies this
      ensures settings == LoadedSettings(old(settingsDoc), downloadsDir)
      ensures settingsDoc == if old(settingsDoc).Missing? then Stored(DefaultSettings(downloadsDir)) else old(settingsDoc)
      ensures historyDoc == old(historyDoc)
    {
      match settingsDoc
      case Missing =>
        SaveSettings(DefaultSettings(downloadsDir));
        settings := DefaultSettings(downloadsDir);
      case Unreadable =>
        settings := DefaultSettings(downloadsDir);
      case Stored(data) =>
        settings := MergeDefaults(data, DefaultPairs(downloadsDir));
    }

    /** on_apply_settings (main.py:1187-1196). */
    method ApplySettings(current: Object, format: string, theme: string, embed: bool, pathEntry: string)
      returns (settings: Object)
      modifies this
      ensures settings == Applied(current, format, theme, embed, pathEntry, downloadsDir)
      ensures settingsDoc == Stored(settings)
      ensures historyDoc == old(historyDoc)
    {
      settings := current;
      settings := settings["default_format" := Str(format)];
      settings := settings["theme" := Str(theme)];
      settings := settings["embed_thumbnail" := Bool(embed)];
      var path := if pathEntry != [] then pathEntry else downloadsDir;
      settings := settings["default_download_path" := Str(path)];
      SaveSettings(settings);
    }

    /** on_reset_defaults (main.py:1198-1202): only when the user confirms. */
    method ResetToDefaults(current: Object, confirmed: bool) returns (settings: Object)
      modifies this
      ensures confirmed ==> settings == DefaultSettings(downloadsDir) && settingsDoc == Stored(settings)
      ensures !confirmed ==> settings == current && settingsDoc == old(settingsDoc)
      ensures historyDoc == old(historyDoc)
    {
      settings := current;
      if confirmed {
        SaveSettings(DefaultSettings(downloadsDir));
        settings := DefaultSettings(downloadsDir);
      }
    }

    /** load_history (main.py:163-173): a missing file is first written as
        an empty list. */
    method LoadHistory() returns (history: seq<Object>)
      modifies this
      ensures history == HistoryOf(old(historyDoc))
      ensures historyDoc == if old(historyDoc).Missing? then Stored([]) else old(historyDoc)
      ensures settingsDoc == old(settingsDoc)
    {
      match historyDoc
      case Missing =>
        historyDoc := Stored([]);
        history := [];
      case Unreadable =>
        history := [];
      case Stored(h) =>
        history := h;
    }

    /** append_history (main.py:175-180): the new entry goes first, no cap. */
    method AppendHistory(entry: Object)
      modifies this
      ensures historyDoc == Stored([entry] + HistoryOf(old(historyDoc)))
      ensures settingsDoc == old(settingsDoc)
    {
      var history := LoadHistory();
      history := [entry] + history;
      historyDoc := Stored(history);
    }

    /** delete_history_entry (main.py:182-188): written back only when the
        index is in range. */
    method DeleteHistoryEntry(index: int)
      modifies this
      ensures var h := HistoryOf(old(historyDoc));
              historyDoc == if 0 <= index < |h| then Stored(RemoveAt(h, index))
                            else if old(historyDoc).Missing? then Stored([])
                            else old(historyDoc)
      ensures settingsDoc == old(settingsDoc)
    {
      var history := LoadHistory();
      if 0 <= index < |history| {
        history := history[..index] + history[index + 1..];
        historyDoc := Stored(history);
      }
    }

    /** clear_history (main.py:190-193). */
    method ClearHistory()
      modifies this
      ensures historyDoc == Stored([])
      ensures settingsDoc == old(settingsDoc)
    {
      historyDoc := Stored([]);
    }
  }
}
