/** The tap folder: Envoy writes one JSON file per tapped exchange; the
    processor loads new `.json` files into a cache, retries a file that
    fails to load up to three times, marks for removal what it has
    consumed, given up on or does not recognise, and deletes those on
    cleanup. The directory listing and the file reader are parameters;
    each refresh reports the files it loaded, in order, for the
    `on_file_loaded` hook of the HTTP and TCP processors. */
module Taps {
  import opened Wrappers
  import opened Json
  import opened PyStr

  const MaxLoadRetries: nat := 3

  /** An entry of the directory listing. */
  datatype DirEntry = DirEntry(name: string, isFile: bool)

  /** `json.load` on a file: `None` when reading or parsing raises. */
  type Loader = string -> Option<JValue>

  datatype Folder = Folder(cache: map<string, JValue>, toRemove: set<string>, failed: map<string, nat>)

  const EmptyFolder := Folder(map[], {}, map[])

  /** A file is tried at most `MaxLoadRetries` times before it is given up
      on, and one that has used them all is marked for removal. */
  predicate Valid(f: Folder) {
    forall n :: n in f.failed ==> 1 <= f.failed[n] <= MaxLoadRetries && (f.failed[n] == MaxLoadRetries ==> n in f.toRemove)
  }

  /** `try_load_file`: on success cache the data; on failure count the
      attempt and give up at the third. */
  function TryLoad(f: Folder, name: string, load: Loader): (r: (Folder, bool))
    ensures r.1 <==> load(name).Some?
    ensures r.1 ==> r.0 == f.(cache := f.cache[name := load(name).value])
    ensures !r.1 ==> r.0.cache == f.cache && name in r.0.failed
    ensures !r.1 ==> r.0.failed[name] == (if name in f.failed then f.failed[name] else 0) + 1
    ensures !r.1 ==> (name in r.0.toRemove <==> name in f.toRemove || r.0.failed[name] >= MaxLoadRetries)
    ensures !r.1 ==> r.0.toRemove - {name} == f.toRemove - {name}
    ensures !r.1 ==> forall n :: n != name ==> (n in r.0.failed <==> n in f.failed) && (n in f.failed ==> r.0.failed[n] == f.failed[n])
  {
    match load(name)
    case Some(data) => (f.(cache := f.cache[name := data]), true)
    case None =>
      var count := (if name in f.failed then f.failed[name] else 0) + 1;
      var toRemove := if count >= MaxLoadRetries then f.toRemove + {name} else f.toRemove;
      (f.(failed := f.failed[name := count], toRemove := toRemove), false)
  }

  /** Whether `refresh` looks at an entry at all. */
  predicate Fresh(f: Folder, name: string) {
    name !in f.cache && name !in f.toRemove
  }

  /** `refresh` over a listing: skip what is cached or marked, load regular
      `.json` files, mark other regular files, ignore the rest. Returns the
      names loaded, in order. */
  function Refresh(f: Folder, entries: seq<DirEntry>, load: Loader): (r: (Folder, seq<string>))
    ensures forall n :: n in f.cache ==> n in r.0.cache && r.0.cache[n] == f.cache[n]
    ensures f.toRemove <= r.0.toRemove
    ensures forall n :: n in r.1 ==> n in r.0.cache && EndsWith(n, ".json") && load(n).Some? && r.0.cache[n] == load(n).value
    ensures forall n :: n in r.1 ==> n !in f.cache && n !in f.toRemove
    ensures forall n :: n in f.failed ==> n in r.0.failed
    ensures forall i :: 0 <= i < |entries| && entries[i].isFile && Fresh(f, entries[i].name) ==>
      if !EndsWith(entries[i].name, ".json") then entries[i].name in r.0.toRemove
      else if load(entries[i].name).Some? then entries[i].name in r.1
      else entries[i].name in r.0.failed
    decreases |entries|
  {
    if |entries| == 0 then (f, [])
    else
      var e := entries[0];
      var (f1, loaded) :=
        if !Fresh(f, e.name) || !e.isFile then (f, [])
        else if EndsWith(e.name, ".json") then
          var (g, ok) := TryLoad(f, e.name, load);
          (g, if ok then [e.name] else [])
        else (f.(toRemove := f.toRemove + {e.name}), []);
      var (f2, rest) := Refresh(f1, entries[1..], load);
      assert forall n :: n != e.name ==> (Fresh(f1, n) <==> Fresh(f, n));
      assert forall i :: 1 <= i < |entries| ==> entries[1..][i - 1] == entries[i];
      (f2, loaded + rest)
  }

  /** `pop_filename`: take the data out of the cache, and mark the file for
      removal when the data is non-empty. */
  function Pop(f: Folder, name: string): (r: (Folder, Option<JValue>))
    ensures name !in r.0.cache
    ensures r.1 == (if name in f.cache then Some(f.cache[name]) else None)
    ensures name in r.0.toRemove <==> name in f.toRemove || (r.1.Some? && Truthy(r.1.value))
    ensures r.0.failed == f.failed
  {
    if name in f.cache then
      var data := f.cache[name];
      var cache := f.cache - {name};
      (Folder(cache, if Truthy(data) then f.toRemove + {name} else f.toRemove, f.failed), Some(data))
    else (f, None)
  }

  /** `cleanup`: delete every marked file (reported as the set returned) and
      forget it in the cache and the retry counts. */
  function Cleanup(f: Folder): (r: (Folder, set<string>))
    ensures r.1 == f.toRemove && r.0.toRemove == {}
    ensures forall n :: n in r.0.cache <==> n in f.cache && n !in f.toRemove
    ensures forall n :: n in r.0.failed <==> n in f.failed && n !in f.toRemove
  {
    (Folder(f.cache - f.toRemove, {}, f.failed - f.toRemove), f.toRemove)
  }

  lemma EmptyValid()
    ensures Valid(EmptyFolder)
  {
  }

  /** Every operation keeps the retry bound. */
  lemma TryLoadValid(f: Folder, name: string, load: Loader)
    requires Valid(f) && Fresh(f, name)
    ensures Valid(TryLoad(f, name, load).0)
  {
  }

  lemma {:induction false} RefreshValid(f: Folder, entries: seq<DirEntry>, load: Loader)
    requires Valid(f)
    ensures Valid(Refresh(f, entries, load).0)
    decreases |entries|
  {
    if |entries| > 0 {
      var e := entries[0];
      var f1 :=
        if !Fresh(f, e.name) || !e.isFile then f
        else if EndsWith(e.name, ".json") then TryLoad(f, e.name, load).0
        else f.(toRemove := f.toRemove + {e.name});
      if Fresh(f, e.name) && e.isFile && EndsWith(e.name, ".json") {
        TryLoadValid(f, e.name, load);
      }
      RefreshValid(f1, entries[1..], load);
    }
  }

  lemma PopValid(f: Folder, name: string)
    requires Valid(f)
    ensures Valid(Pop(f, name).0)
  {
  }

  lemma CleanupValid(f: Folder)
    requires Valid(f)
    ensures Valid(Cleanup(f).0)
  {
  }

  /** A file whose attempts are used up is never tried again until cleanup
      deletes it: refresh leaves its count alone and does not load it. */
  lemma {:induction false} GivenUpStaysGivenUp(f: Folder, entries: seq<DirEntry>, load: Loader, name: string)
    requires Valid(f) && name in f.failed && f.failed[name] == MaxLoadRetries
    ensures var r := Refresh(f, entries, load);
      name in r.0.failed && r.0.failed[name] == MaxLoadRetries && name !in r.1
    decreases |entries|
  {
    if |entries| > 0 {
      var e := entries[0];
      var f1 :=
        if !Fresh(f, e.name) || !e.isFile then f
        else if EndsWith(e.name, ".json") then TryLoad(f, e.name, load).0
        else f.(toRemove := f.toRemove + {e.name});
      if Fresh(f, e.name) && e.isFile && EndsWith(e.name, ".json") {
        TryLoadValid(f, e.name, load);
      }
      RefreshValid(f, [e], load);
      GivenUpStaysGivenUp(f1, entries[1..], load, name);
    }
  }

  /** A tap whose data is empty is popped without being marked, so the next
      refresh that still lists it loads it again. */
  lemma EmptyTapIsReloaded(f: Folder, name: string, load: Loader)
    requires name in f.cache && !Truthy(f.cache[name]) && name !in f.toRemove
    requires EndsWith(name, ".json") && load(name).Some?
    ensures var g := Pop(f, name).0;
      Refresh(g, [DirEntry(name, true)], load).1 == [name]
  {
  }

  /** A non-empty tap, once popped, is not loaded again and is deleted by
      the next cleanup. */
  lemma PoppedTapIsDeleted(f: Folder, name: string, entries: seq<DirEntry>, load: Loader)
    requires name in f.cache && Truthy(f.cache[name])
    ensures var g := Pop(f, name).0;
      var h := Refresh(g, entries, load);
      name !in h.1 && name in Cleanup(h.0).1
  {
    var g := Pop(f, name).0;
    assert name in g.toRemove;
  }
}
