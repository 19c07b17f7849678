// The staging index: the working-file paths staged for the next state, each with
// the digest of the contents stored for it, kept in memory and in .landle/index.
module Staging {
  import opened Base
  import opened Dict
  import opened Json
  import opened FileSystem
  import opened Objects

  /** Path -> digest of the staged contents, in staging order. */
  type Entries = Dict<Path, Digest>

  function EntriesJson(e: Entries): Json {
    Obj(seq(|e|, i requires 0 <= i < |e| => (e[i].0, Str(e[i].1))))
  }

  /** json.dump(entries, f, indent=4): the bytes of the index file. */
  function IndexBytes(e: Entries): (b: Bytes)
    ensures b != [] && Loads(b) == Some(EntriesJson(e))
  {
    Dumps(EntriesJson(e))
  }

  /** The entries of a loaded object whose values are all strings. */
  function StringsOf(ms: seq<(string, Json)>): (r: Option<Entries>)
    ensures r.Some? ==> |r.value| == |ms|
    ensures r.Some? ==> forall i :: 0 <= i < |ms| ==> ms[i] == (r.value[i].0, Str(r.value[i].1))
  {
    if ms == [] then Some([])
    else if !ms[0].1.Str? then None
    else
      match StringsOf(ms[1..])
      case None => None
      case Some(rest) => Some([(ms[0].0, ms[0].1.s)] + rest)
  }

  lemma {:induction false} StringsOfEntries(e: Entries)
    ensures StringsOf(EntriesJson(e).members) == Some(e)
    decreases |e|
  {
    if e != [] {
      assert EntriesJson(e).members[1..] == EntriesJson(e[1..]).members;
      StringsOfEntries(e[1..]);
      assert e == [e[0]] + e[1..];
    }
  }

  /** Index.load: the entries read from the index file; none when the file is
      missing or does not hold a JSON object of strings. */
  function LoadEntries(file: Option<Bytes>): (e: Entries)
    ensures UniqueKeys(e)
  {
    match file
    case None => []
    case Some(b) =>
      match Loads(b)
      case Some(Obj(ms)) =>
        (match StringsOf(FromPairs(ms))
         case Some(e) => e
         case None => [])
      case _ => []
  }

  /** Loading what was saved gives back the same entries in the same order. */
  lemma SaveLoad(e: Entries)
    requires UniqueKeys(e)
    ensures LoadEntries(Some(IndexBytes(e))) == e
  {
    var ms := EntriesJson(e).members;
    assert UniqueKeys(ms);
    FromUniquePairs(ms);
    StringsOfEntries(e);
  }

  /** A missing index file and the empty one init_repo creates both load as no entries. */
  lemma LoadFallback()
    ensures LoadEntries(None) == []
    ensures LoadEntries(Some([])) == []
  {}

  // ---- staging several files ----

  /** The entries, store and index file at some point of staging. */
  datatype Staged = Staged(entries: Entries, objects: map<Digest, Bytes>, index: Option<Bytes>)

  /** add_file on each of `files` in turn, stopping at the first that fails: the
      state reached and the outcome. */
  function AddAll(s: Staged, work: map<Path, Bytes>, hash: Bytes -> Digest, initialized: bool, files: seq<Path>): (r: (Staged, Result<()>))
    requires UniqueKeys(s.entries)
    ensures r.0 == s || r.0.index == Some(IndexBytes(r.0.entries))
    ensures r.0.objects.Keys <= s.objects.Keys + set p | p in files && p in work :: hash(work[p])
    decreases |files|
  {
    if files == [] then (s, Ok(()))
    else if files[0] !in work then (s, Err(PathNotFound(files[0])))
    else if !initialized then (s, Err(NotInitialized))
    else
      var data := work[files[0]];
      var e := Put(s.entries, files[0], hash(data));
      AddAll(Staged(e, Stored(s.objects, hash, data), Some(IndexBytes(e))), work, hash, initialized, files[1..])
  }

  /** Staging keeps keys unique and the store content-addressed, never loses an
      object, and leaves every path it does not list as it was. */
  lemma {:induction false} AddAllKeeps(s: Staged, work: map<Path, Bytes>, hash: Bytes -> Digest, initialized: bool, files: seq<Path>)
    requires UniqueKeys(s.entries)
    ensures var t := AddAll(s, work, hash, initialized, files).0;
      && UniqueKeys(t.entries)
      && (ContentAddressed(s.objects, hash) ==> ContentAddressed(t.objects, hash))
      && (forall d :: d in s.objects ==> d in t.objects && t.objects[d] == s.objects[d])
      && (forall p :: p !in files ==> (p in ToMap(t.entries) <==> p in ToMap(s.entries)))
      && (forall p :: p !in files && p in ToMap(s.entries) ==> ToMap(t.entries)[p] == ToMap(s.entries)[p])
    decreases |files|
  {
    if files != [] && files[0] in work && initialized {
      var data := work[files[0]];
      var e := Put(s.entries, files[0], hash(data));
      var next := Staged(e, Stored(s.objects, hash, data), Some(IndexBytes(e)));
      if ContentAddressed(s.objects, hash) {
        StoredKeepsAddressing(s.objects, hash, data);
      }
      AddAllKeeps(next, work, hash, initialized, files[1..]);
      assert AddAll(s, work, hash, initialized, files) == AddAll(next, work, hash, initialized, files[1..]);
      assert forall p :: p !in files ==> p != files[0] && p !in files[1..];
    }
  }

  /** When staging succeeds every listed file exists and its path maps to the
      digest of its contents; with a collision-free hash the store holds those
      contents under that digest. */
  lemma {:induction false} AddAllStagesEvery(s: Staged, work: map<Path, Bytes>, hash: Bytes -> Digest, initialized: bool, files: seq<Path>)
    requires UniqueKeys(s.entries)
    requires ContentAddressed(s.objects, hash) && Injective(hash)
    ensures var (t, r) := AddAll(s, work, hash, initialized, files);
      r.Ok? ==> forall p :: p in files ==>
        && p in work
        && p in ToMap(t.entries) && ToMap(t.entries)[p] == hash(work[p])
        && hash(work[p]) in t.objects && t.objects[hash(work[p])] == work[p]
    decreases |files|
  {
    if files != [] && files[0] in work && initialized {
      var p0 := files[0];
      var data := work[p0];
      var e := Put(s.entries, p0, hash(data));
      var objs := Stored(s.objects, hash, data);
      var s' := Staged(e, objs, Some(IndexBytes(e)));
      StoredKeepsAddressing(s.objects, hash, data);
      AddAllStagesEvery(s', work, hash, initialized, files[1..]);
      AddAllKeeps(s', work, hash, initialized, files[1..]);
      var (t, r) := AddAll(s, work, hash, initialized, files);
      if r.Ok? {
        forall p | p in files
          ensures && p in work
                  && p in ToMap(t.entries) && ToMap(t.entries)[p] == hash(work[p])
                  && hash(work[p]) in t.objects && t.objects[hash(work[p])] == work[p]
        {
          if p !in files[1..] {
            assert p == p0;
          }
        }
      }
    }
  }

  /** A failed staging run stops at a listed file that is missing, or at the first
      file when the repository is not initialized. */
  lemma {:induction false} AddAllFails(s: Staged, work: map<Path, Bytes>, hash: Bytes -> Digest, initialized: bool, files: seq<Path>)
    requires UniqueKeys(s.entries)
    ensures var r := AddAll(s, work, hash, initialized, files).1;
      r.Err? ==> (exists p :: p in files && p !in work && r == Err(PathNotFound(p))) || (!initialized && r == Err(NotInitialized))
    decreases |files|
  {
    if files != [] && files[0] in work && initialized {
      var data := work[files[0]];
      var e := Put(s.entries, files[0], hash(data));
      AddAllFails(Staged(e, Stored(s.objects, hash, data), Some(IndexBytes(e))), work, hash, initialized, files[1..]);
      var r := AddAll(s, work, hash, initialized, files).1;
      if r.Err? {
        var p :| p in files[1..] && p !in work && r == Err(PathNotFound(p));
        assert p in files;
      }
    } else if files != [] && files[0] !in work {
      assert files[0] in files;
    }
  }

  class Index {
    const disk: Disk
    var entries: Entries

    ghost predicate Valid()
      reads this, disk
    {
      disk.Valid() && UniqueKeys(entries)
    }

    constructor (disk: Disk)
      requires disk.Valid()
      ensures Valid() && this.disk == disk
      ensures entries == LoadEntries(disk.index)
    {
      this.disk := disk;
      entries := [];
      new;
      Load();
    }

    /** Replaces the entries by what the index file holds. */
    method Load()
      requires disk.Valid()
      modifies this`entries
      ensures Valid() && entries == LoadEntries(disk.index)
    {
      entries := LoadEntries(disk.index);
    }

    /** Writes the entries to the index file, which fails without .landle. */
    method Save() returns (r: Result<()>)
      requires Valid()
      modifies disk`index
      ensures Valid()
      ensures r == if disk.initialized then Ok(()) else Err(NotInitialized)
      ensures disk.index == if r.Ok? then Some(IndexBytes(entries)) else old(disk.index)
    {
      if !disk.initialized {
        return Err(NotInitialized);
      }
      disk.index := Some(IndexBytes(entries));
      r := Ok(());
    }

    /** Stores the contents of working file `path`, stages the path with their
        digest (replacing any digest it had) and saves the index. */
    method AddFile(path: Path) returns (r: Result<()>)
      requires Valid()
      modifies this`entries, disk`objects, disk`index
      ensures Valid()
      ensures r == if path !in disk.work then Err(PathNotFound(path))
                   else if !disk.initialized then Err(NotInitialized)
                   else Ok(())
      ensures r.Err? ==> entries == old(entries) && disk.objects == old(disk.objects) && disk.index == old(disk.index)
      ensures r.Ok? ==>
        && entries == Put(old(entries), path, disk.hash(disk.work[path]))
        && ToMap(entries) == old(ToMap(entries))[path := disk.hash(disk.work[path])]
        && disk.objects == Stored(old(disk.objects), disk.hash, disk.work[path])
        && disk.index == Some(IndexBytes(entries))
    {
      if path !in disk.work {
        return Err(PathNotFound(path));
      }
      var data := disk.work[path];
      var digest :- FileContent(data).Store(disk);
      entries := Put(entries, path, digest);
      r := Save();
    }

    /** Stages every file of a directory: `listing` is None when the path is not a
        directory, and otherwise the files found beneath it in walk order. */
    method AddDir(listing: Option<seq<Path>>) returns (r: Result<()>)
      requires Valid()
      modifies this`entries, disk`objects, disk`index
      ensures Valid()
      ensures listing.None? ==> r == Err(NotADirectory) && unchanged(this, disk)
      ensures listing.Some? ==>
        var (t, outcome) := AddAll(old(Staged(entries, disk.objects, disk.index)), disk.work, disk.hash, disk.initialized, listing.value);
        r == outcome && Staged(entries, disk.objects, disk.index) == t
    {
      if listing.None? {
        return Err(NotADirectory);
      }
      var files := listing.value;
      ghost var start := Staged(entries, disk.objects, disk.index);
      var i := 0;
      while i < |files|
        invariant 0 <= i <= |files|
        invariant Valid()
        invariant AddAll(start, disk.work, disk.hash, disk.initialized, files)
               == AddAll(Staged(entries, disk.objects, disk.index), disk.work, disk.hash, disk.initialized, files[i..])
      {
        ghost var here := Staged(entries, disk.objects, disk.index);
        assert files[i..][0] == files[i] && files[i..][1..] == files[i + 1..];
        var added := AddFile(files[i]);
        if added.Err? {
          assert AddAll(here, disk.work, disk.hash, disk.initialized, files[i..]) == (here, added);
          return added;
        }
        assert AddAll(here, disk.work, disk.hash, disk.initialized, files[i..])
            == AddAll(Staged(entries, disk.objects, disk.index), disk.work, disk.hash, disk.initialized, files[i + 1..]);
        i := i + 1;
      }
      r := Ok(());
    }
  }
}
