/** The batch loop shared by the HTTP and TCP log processors. The tap
    folder is extended with an index from an id found in each loaded tap
    (a request id, a trace id) to its file name; each access-log entry
    names an id, and the loop consumes the matching tap. The two
    processors differ only in how a tap and an entry give their ids. */
module TapBatch {
  import opened Wrappers
  import opened Json
  import Taps

  /** The tap folder with its id index. */
  datatype Indexed<K> = Indexed(taps: Taps.Folder, index: map<K, string>)

  /** `on_file_loaded`: index a loaded tap under its id, if it has one. */
  function OnFileLoaded<K>(index: map<K, string>, name: string, id: Option<K>): (r: map<K, string>)
    ensures id.Some? ==> r == index[id.value := name]
    ensures id.None? ==> r == index
  {
    match id
    case Some(k) => index[k := name]
    case None => index
  }

  /** The hook over the files one refresh loaded, in order: every id is
      either untouched or points at one of those files. */
  function IndexLoaded<K>(index: map<K, string>, names: seq<string>, cache: map<string, JValue>, idOf: JValue -> Option<K>)
    : (r: map<K, string>)
    requires forall n :: n in names ==> n in cache
    ensures forall k :: k in r ==> (k in index && r[k] == index[k]) || r[k] in names
    ensures forall k :: k in index ==> k in r
    decreases |names|
  {
    if |names| == 0 then index
    else
      var r := IndexLoaded(OnFileLoaded(index, names[0], idOf(cache[names[0]])), names[1..], cache, idOf);
      assert forall n :: n in names[1..] ==> n in names;
      r
  }

  /** `refresh` with the hook: new taps are loaded and indexed. */
  function Refresh<K>(f: Indexed<K>, listing: seq<Taps.DirEntry>, load: Taps.Loader, idOf: JValue -> Option<K>)
    : (r: Indexed<K>)
    ensures forall k :: k in r.index ==> (k in f.index && r.index[k] == f.index[k]) || r.index[k] in r.taps.cache
  {
    var (taps, loaded) := Taps.Refresh(f.taps, listing, load);
    Indexed(taps, IndexLoaded(f.index, loaded, taps.cache, idOf))
  }

  /** An access-log line: its parsed JSON and the file offset after it. */
  datatype LogLine = LogLine(data: JValue, endPosition: int)

  /** A tap matched to its log entry, handed to `process_tap`. */
  datatype Matched = Matched(file: string, tap: JValue, entry: JValue)

  /** One entry of the loop. `key` is the entry's id, None when the entry
      has none. An entry is skipped without an id, without an indexed
      non-empty file name, or without truthy tap data; otherwise its tap
      is popped and matched. The index entry and the cached data are
      consumed even when the entry is then skipped. */
  function Step<K>(f: Indexed<K>, key: Option<K>, line: LogLine): (r: (Indexed<K>, Option<Matched>))
    ensures r.1.Some? ==> Truthy(r.1.value.tap) && r.1.value.entry == line.data
    ensures r.1.Some? ==> r.1.value.file in r.0.taps.toRemove
    ensures f.taps.toRemove <= r.0.taps.toRemove
  {
    if key.None? then (f, None)
    else
      var file := if key.value in f.index then Some(f.index[key.value]) else None;
      var index := f.index - {key.value};
      if file.None? || |file.value| == 0 then (f.(index := index), None)
      else
        var (taps, data) := Taps.Pop(f.taps, file.value);
        var g := Indexed(taps, index);
        if data.None? || !Truthy(data.value) then (g, None)
        else (g, Some(Matched(file.value, data.value, line.data)))
  }

  /** The matches of the loop, in order, and the folder after it. */
  function Loop<K>(f: Indexed<K>, lines: seq<LogLine>, keyOf: JValue -> Option<K>): (r: (Indexed<K>, seq<Matched>))
    ensures |r.1| <= |lines|
    ensures f.taps.toRemove <= r.0.taps.toRemove
    ensures forall m :: m in r.1 ==> Truthy(m.tap) && m.file in r.0.taps.toRemove
    decreases |lines|
  {
    if |lines| == 0 then (f, [])
    else
      var (g, m) := Step(f, keyOf(lines[0].data), lines[0]);
      var (h, rest) := Loop(g, lines[1..], keyOf);
      (h, (if m.Some? then [m.value] else []) + rest)
  }

  /** What a batch does: the matched taps, the dictionary to archive, the
      log position to record, and the tap files deleted by the cleanup. */
  datatype Batch<K> = Batch(folder: Indexed<K>, matched: seq<Matched>, toArchive: map<string, JValue>,
    position: Option<int>, deleted: set<string>)

  /** `to_archive[file] = data` over the matches. */
  function Archive(ms: seq<Matched>): (r: map<string, JValue>)
    ensures forall m :: m in ms ==> m.file in r
    ensures forall n :: n in r ==> exists m :: m in ms && m.file == n && m.tap == r[n]
  {
    if |ms| == 0 then map[]
    else
      var init := Archive(ms[..|ms| - 1]);
      var last := ms[|ms| - 1];
      assert forall m :: m in ms ==> m in ms[..|ms| - 1] || m == last;
      assert forall m :: m in ms[..|ms| - 1] ==> m in ms;
      init[last.file := last.tap]
  }

  /** `process_new_access_log_entries` on the entries read this time. */
  function ProcessEntries<K>(f: Indexed<K>, lines: seq<LogLine>, listing: seq<Taps.DirEntry>, load: Taps.Loader,
    idOf: JValue -> Option<K>, keyOf: JValue -> Option<K>): (r: Batch<K>)
    ensures |lines| == 0 ==> r.position.None?
    ensures |lines| > 0 ==> r.position == Some(lines[|lines| - 1].endPosition)
    ensures |r.matched| <= |lines|
    ensures forall m :: m in r.matched ==> Truthy(m.tap) && m.file in r.deleted && m.file in r.toArchive
    ensures r.folder.taps.toRemove == {}
  {
    var g := Refresh(f, listing, load, idOf);
    var (h, matched) := Loop(g, lines, keyOf);
    var (taps, deleted) := Taps.Cleanup(h.taps);
    Batch(Indexed(taps, h.index), matched, Archive(matched),
      if |lines| > 0 then Some(lines[|lines| - 1].endPosition) else None, deleted)
  }

  /** An entry without an id changes nothing and matches nothing. */
  lemma NoKeySkipped<K>(f: Indexed<K>, line: LogLine)
    ensures Step(f, None, line) == (f, None)
  {
  }

  /** An entry whose id indexes no tap matches nothing and leaves the tap
      cache alone. */
  lemma NoTapSkipped<K>(f: Indexed<K>, key: K, line: LogLine)
    requires key !in f.index
    ensures Step(f, Some(key), line) == (f, None)
  {
    assert f.index - {key} == f.index;
  }

  /** An entry whose id indexes a loaded tap with truthy data is matched
      to it, and the tap leaves both the index and the cache. */
  lemma IndexedTapMatched<K>(f: Indexed<K>, key: K, line: LogLine)
    requires key in f.index && |f.index[key]| > 0
    requires f.index[key] in f.taps.cache && Truthy(f.taps.cache[f.index[key]])
    ensures var (g, m) := Step(f, Some(key), line);
      && m == Some(Matched(f.index[key], f.taps.cache[f.index[key]], line.data))
      && key !in g.index
      && f.index[key] !in g.taps.cache
  {
  }

  /** A tap that is indexed but empty is consumed from the index without a
      match: its file stays on disk for a later refresh. */
  lemma EmptyTapUnmatched<K>(f: Indexed<K>, key: K, line: LogLine)
    requires key in f.index && |f.index[key]| > 0
    requires f.index[key] in f.taps.cache && !Truthy(f.taps.cache[f.index[key]])
    requires f.index[key] !in f.taps.toRemove
    ensures var (g, m) := Step(f, Some(key), line);
      m.None? && key !in g.index && f.index[key] !in g.taps.toRemove
  {
  }
}
