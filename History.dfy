// Saving the staged files as a new state on the current branch, walking the
// history back from the branch tip, and restoring the files of a saved state.
module History {
  import opened Base
  import opened Text
  import opened Dict
  import opened Json
  import opened FileSystem
  import opened Objects
  import opened Refs
  import opened Staging

  /** The kind every tree entry a save makes carries. */
  const FileKind: string := "fileContent"

  // ---- saving ----

  /** The tree a save builds from the staged entries: each path mapped to
      (FileKind, its staged digest), in staging order. */
  function TreeOf(e: Entries): (t: Dict<Path, TreeEntry>)
    ensures |t| == |e| && forall i :: 0 <= i < |e| ==> t[i].0 == e[i].0
    ensures UniqueKeys(e) ==> UniqueKeys(t)
  {
    seq(|e|, i requires 0 <= i < |e| => (e[i].0, TreeEntry(FileKind, e[i].1)))
  }

  /** The committed tree has exactly the staged paths, each with its staged digest. */
  lemma CommittedTree(e: Entries)
    requires UniqueKeys(e)
    ensures ToMap(TreeOf(e)).Keys == ToMap(e).Keys
    ensures forall p :: p in ToMap(e) ==> ToMap(TreeOf(e))[p] == TreeEntry(FileKind, ToMap(e)[p])
  {
    var t := TreeOf(e);
    assert KeySet(t) == KeySet(e) by {
      forall k | k in KeySet(e) ensures k in KeySet(t) {
        var i :| 0 <= i < |e| && e[i].0 == k;
        assert t[i].0 == k;
      }
    }
    forall p | p in ToMap(e) ensures ToMap(t)[p] == TreeEntry(FileKind, ToMap(e)[p]) {
      var i :| 0 <= i < |e| && e[i].0 == p;
      ToMapAt(e, i);
      ToMapAt(t, i);
    }
  }

  /** save_state's parent: the stripped tip of the branch, None when the branch
      file is missing or holds only white space. */
  function ParentOf(refs: map<string, string>, ref: string): (r: Option<Digest>)
    ensures ref !in refs ==> r == None
    ensures r.Some? ==> r.value != [] && !IsSpace(r.value[0]) && !IsSpace(r.value[|r.value| - 1])
  {
    var t := Tip(refs, ref);
    if t == "" then None else Some(t)
  }

  lemma ParentIsTip(refs: map<string, string>, ref: string, digest: Digest)
    requires IsHexText(digest)
    ensures ParentOf(refs[ref := digest + "\n"], ref) == Some(digest)
    ensures ref !in refs ==> ParentOf(refs, ref) == None
    ensures ref in refs && AllSpace(refs[ref]) ==> ParentOf(refs, ref) == None
  {
    TipRoundTrip(refs, ref, digest);
    if ref in refs && AllSpace(refs[ref]) {
      StripAllSpace(refs[ref]);
    }
  }

  /** The state save_state records for staged entries `e` on branch `ref`. */
  function NewState(e: Entries, hash: Bytes -> Digest, refs: map<string, string>, ref: string, message: string, now: int): State
    requires UniqueKeys(e)
  {
    State(hash(TreeBytes(TreeOf(e))), now, ParentOf(refs, ref), message)
  }

  /** What a save works on and changes: the store, the branch files, the index
      file and the staged entries. */
  datatype Saved = Saved(objects: map<Digest, Bytes>, refs: map<string, string>, index: Option<Bytes>, entries: Entries)

  /** save_state: nothing happens when nothing is staged; otherwise the tree is
      stored (failing without .landle), HEAD is read (failing when missing, after
      the tree is stored), the new state with the branch tip as parent is stored,
      the branch moves to it and the index is emptied. */
  function Save(before: Saved, hash: Bytes -> Digest, initialized: bool, head: Option<string>, message: string, now: int): (r: (Saved, Result<Option<Digest>>))
    requires UniqueKeys(before.entries)
    ensures r.1 == Ok(None) <==> before.entries == []
    ensures r.1.Ok? ==> r.0.entries == []
  {
    var e := before.entries;
    if e == [] then (before, Ok(None))
    else if !initialized then (before, Err(NotInitialized))
    else
      var objects := Stored(before.objects, hash, TreeBytes(TreeOf(e)));
      match HeadRef(head)
      case Err(err) => (before.(objects := objects), Err(err))
      case Ok(ref) =>
        var s := NewState(e, hash, before.refs, ref, message, now);
        var d := hash(StateBytes(s));
        (Saved(Stored(objects, hash, StateBytes(s)), before.refs[ref := d + "\n"], Some(IndexBytes([])), []), Ok(Some(d)))
  }

  /** A save with nothing staged, or without .landle, changes nothing. */
  lemma SaveEarly(before: Saved, hash: Bytes -> Digest, initialized: bool, head: Option<string>, message: string, now: int)
    requires UniqueKeys(before.entries) && (before.entries == [] || !initialized)
    ensures Save(before, hash, initialized, head, message, now)
         == (before, if before.entries == [] then Ok(None) else Err(NotInitialized))
  {}

  /** A save without HEAD stores the tree and fails, changing nothing else. */
  lemma SaveWithoutHead(before: Saved, hash: Bytes -> Digest, head: Option<string>, message: string, now: int)
    requires UniqueKeys(before.entries) && before.entries != [] && head.None?
    ensures Save(before, hash, true, head, message, now)
         == (before.(objects := Stored(before.objects, hash, TreeBytes(TreeOf(before.entries)))), Err(HeadMissing))
  {}

  /** A save with HEAD stores the tree and the new state, moves the branch and
      empties the index. */
  lemma SaveCommits(before: Saved, hash: Bytes -> Digest, head: Option<string>, message: string, now: int)
    requires UniqueKeys(before.entries) && before.entries != [] && head.Some?
    ensures var ref := HeadRef(head).value;
      var s := NewState(before.entries, hash, before.refs, ref, message, now);
      var d := hash(StateBytes(s));
      Save(before, hash, true, head, message, now)
        == (Saved(Stored(Stored(before.objects, hash, TreeBytes(TreeOf(before.entries))), hash, StateBytes(s)),
                  before.refs[ref := d + "\n"], Some(IndexBytes([])), []),
            Ok(Some(d)))
  {}

  /** A save keeps the store content-addressed and every object in it, keeps the
      staged keys unique, and on success empties the index, whose file then loads
      as no entries. */
  lemma SaveKeeps(before: Saved, hash: Bytes -> Digest, initialized: bool, head: Option<string>, message: string, now: int)
    requires UniqueKeys(before.entries) && ContentAddressed(before.objects, hash)
    ensures var (after, r) := Save(before, hash, initialized, head, message, now);
      && ContentAddressed(after.objects, hash)
      && (forall d :: d in before.objects ==> d in after.objects && after.objects[d] == before.objects[d])
      && UniqueKeys(after.entries)
      && (r.Ok? && r.value.Some? ==> after.entries == [] && LoadEntries(after.index) == [])
      && (r.Err? ==> after.entries == before.entries && after.refs == before.refs && after.index == before.index)
  {
    var e := before.entries;
    if e != [] && initialized {
      var tree := TreeBytes(TreeOf(e));
      StoredKeepsAddressing(before.objects, hash, tree);
      if head.Some? {
        var s := NewState(e, hash, before.refs, HeadRef(head).value, message, now);
        StoredKeepsAddressing(Stored(before.objects, hash, tree), hash, StateBytes(s));
        SaveLoad([]);
      }
    }
  }

  /** After a save the branch HEAD names points at the new state, whose parent is
      the previous tip, so the history from the branch is the old one with the new
      state in front. */
  lemma SaveExtendsHistory(before: Saved, hash: Bytes -> Digest, head: Option<string>, message: string, now: int,
                           ds: seq<Digest>, ss: seq<State>)
    requires UniqueKeys(before.entries) && before.entries != [] && head.Some?
    requires ContentAddressed(before.objects, hash) && SoundHash(hash)
    requires Chain(before.objects, ds, ss) && First(ds) == Tip(before.refs, HeadRef(head).value)
    ensures var (after, r) := Save(before, hash, true, head, message, now);
      var ref := HeadRef(head).value;
      var s := NewState(before.entries, hash, before.refs, ref, message, now);
      && r == Ok(Some(Tip(after.refs, ref)))
      && Chain(after.objects, [Tip(after.refs, ref)] + ds, [s] + ss)
      && Walk(after.objects, Tip(after.refs, ref), |ds| + 1) == Some((Visits([Tip(after.refs, ref)] + ds, [s] + ss), Ok(())))
  {
    var e := before.entries;
    var ref := HeadRef(head).value;
    var tree := TreeBytes(TreeOf(e));
    var mid := Stored(before.objects, hash, tree);
    var s := NewState(e, hash, before.refs, ref, message, now);
    var d := hash(StateBytes(s));
    var (after, r) := Save(before, hash, true, head, message, now);
    StoredKeepsAddressing(before.objects, hash, tree);
    StoredKeepsAddressing(mid, hash, StateBytes(s));
    TipRoundTrip(before.refs, ref, d);
    assert Tip(after.refs, ref) == d;
    assert Next(s) == First(ds);
    CommitExtendsChain(before.objects, after.objects, ds, ss, d, s);
    ChainWalk(after.objects, [d] + ds, [s] + ss);
  }

  /** Saving and then changing to the saved state lays the staged files over the
      working directory, given that their blobs are stored. */
  lemma SaveThenChange(before: Saved, hash: Bytes -> Digest, head: Option<string>, message: string, now: int, work: map<Path, Bytes>)
    requires UniqueKeys(before.entries) && before.entries != [] && head.Some?
    requires ContentAddressed(before.objects, hash) && Injective(hash)
    requires forall i :: 0 <= i < |before.entries| ==> before.entries[i].1 in before.objects
    ensures var (after, r) := Save(before, hash, true, head, message, now);
      r.Ok? && r.value.Some? && ChangeOutcome(work, after.objects, r.value.value) == (work + StagedFiles(before.objects, before.entries), Ok(()))
  {
    var e := before.entries;
    var s := NewState(e, hash, before.refs, HeadRef(head).value, message, now);
    CommitThenRestore(before.objects, hash, e, work, s.parent, message, now);
  }

  // ---- the history walk ----

  /** One state show_history prints. */
  datatype Visit = Visit(digest: Digest, state: State)

  /** The digest the walk goes to after a state: its parent, or "" for none. */
  function Next(s: State): Digest {
    if s.parent.Some? then s.parent.value else ""
  }

  /** show_history from digest `h`: the states printed and the outcome. The walk
      ends at an empty digest or one with no stored object, and fails at an object
      that is not a state record. None when `fuel` states are not enough. */
  function Walk(objects: map<Digest, Bytes>, h: Digest, fuel: nat): (r: Option<(seq<Visit>, Result<()>)>)
    ensures r.Some? && r.value.1.Err? ==> r.value.1.error.CorruptObject?
    decreases fuel
  {
    if h == "" || h !in objects then Some(([], Ok(())))
    else
      match ParseState(objects[h])
      case None => Some(([], Err(CorruptObject(h))))
      case Some(s) =>
        if fuel == 0 then None
        else
          match Walk(objects, Next(s), fuel - 1)
          case None => None
          case Some((vs, r)) => Some(([Visit(h, s)] + vs, r))
  }

  /** The walk prints at most `fuel` states; every one is stored under its
      digest, the first is the start, and each one after it is the parent of the
      one before. */
  lemma {:induction false} WalkVisits(objects: map<Digest, Bytes>, h: Digest, fuel: nat)
    requires Walk(objects, h, fuel).Some?
    ensures var vs := Walk(objects, h, fuel).value.0;
      && |vs| <= fuel
      && (vs != [] ==> vs[0].digest == h)
      && (forall i :: 0 <= i < |vs| ==>
            vs[i].digest != "" && vs[i].digest in objects && ParseState(objects[vs[i].digest]) == Some(vs[i].state))
      && (forall i :: 0 < i < |vs| ==> vs[i].digest == Next(vs[i - 1].state))
    decreases fuel
  {
    if h != "" && h in objects && ParseState(objects[h]).Some? {
      var s := ParseState(objects[h]).value;
      WalkVisits(objects, Next(s), fuel - 1);
      var rest := Walk(objects, Next(s), fuel - 1).value.0;
      var vs := Walk(objects, h, fuel).value.0;
      assert vs == [Visit(h, s)] + rest;
      forall i | 0 < i < |vs| ensures vs[i].digest == Next(vs[i - 1].state) {
        assert vs[i] == rest[i - 1];
        if i > 1 { assert vs[i - 1] == rest[i - 2]; }
      }
    }
  }

  ghost predicate WalkEnds(objects: map<Digest, Bytes>, h: Digest, fuel: nat) {
    Walk(objects, h, fuel).Some?
  }

  /** More fuel than the walk needs changes nothing. */
  lemma {:induction false} WalkFuel(objects: map<Digest, Bytes>, h: Digest, n: nat, m: nat)
    requires WalkEnds(objects, h, n) && n <= m
    ensures Walk(objects, h, m) == Walk(objects, h, n)
    decreases n
  {
    if h != "" && h in objects && ParseState(objects[h]).Some? {
      WalkFuel(objects, Next(ParseState(objects[h]).value), n - 1, m - 1);
    }
  }

  /** One step of the walk from a stored state record. */
  lemma WalkStep(objects: map<Digest, Bytes>, h: Digest, fuel: nat)
    requires WalkEnds(objects, h, fuel) && h != "" && h in objects && ParseState(objects[h]).Some?
    ensures fuel > 0
    ensures var s := ParseState(objects[h]).value;
      && WalkEnds(objects, Next(s), fuel - 1)
      && Walk(objects, h, fuel).value
         == ([Visit(h, s)] + Walk(objects, Next(s), fuel - 1).value.0, Walk(objects, Next(s), fuel - 1).value.1)
  {}

  /** Digests `ds` hold states `ss`, each state's parent is the next digest and
      the last state has no parent. */
  ghost predicate Chain(objects: map<Digest, Bytes>, ds: seq<Digest>, ss: seq<State>) {
    && |ds| == |ss|
    && (forall i :: 0 <= i < |ds| ==> ds[i] != "" && ds[i] in objects && ParseState(objects[ds[i]]) == Some(ss[i]))
    && (forall i :: 0 <= i < |ds| - 1 ==> Next(ss[i]) == ds[i + 1])
    && (ss != [] ==> Next(ss[|ss| - 1]) == "")
  }

  function First(ds: seq<Digest>): Digest {
    if ds == [] then "" else ds[0]
  }

  /** The visits for digests `ds` holding states `ss`, pairwise. */
  function Visits(ds: seq<Digest>, ss: seq<State>): (vs: seq<Visit>)
    requires |ds| == |ss|
    ensures |vs| == |ds| && forall i :: 0 <= i < |ds| ==> vs[i] == Visit(ds[i], ss[i])
  {
    if ds == [] then [] else [Visit(ds[0], ss[0])] + Visits(ds[1..], ss[1..])
  }

  /** Over a chain of N states the walk from its newest digest shows exactly those
      N states, newest first, and ends without error. */
  lemma {:induction false} ChainWalk(objects: map<Digest, Bytes>, ds: seq<Digest>, ss: seq<State>)
    requires Chain(objects, ds, ss)
    ensures Walk(objects, First(ds), |ds|) == Some((Visits(ds, ss), Ok(())))
    decreases |ds|
  {
    if ds != [] {
      var rest, restStates := ds[1..], ss[1..];
      ChainTail(objects, ds, ss);
      ChainWalk(objects, rest, restStates);
      var h, s := ds[0], ss[0];
      assert h != "" && h in objects && ParseState(objects[h]) == Some(s);
      assert Next(s) == First(rest) by {
        if rest == [] {
          assert ss[|ss| - 1] == s;
        }
      }
      WalkCons(objects, h, s, |ds|, Visits(rest, restStates));
    }
  }

  /** A walk that ends normally from a state's parent, preceded by that state. */
  lemma WalkCons(objects: map<Digest, Bytes>, h: Digest, s: State, fuel: nat, vs: seq<Visit>)
    requires h != "" && h in objects && ParseState(objects[h]) == Some(s) && fuel > 0
    requires Walk(objects, Next(s), fuel - 1) == Some((vs, Ok(())))
    ensures Walk(objects, h, fuel) == Some(([Visit(h, s)] + vs, Ok(())))
  {}

  /** Dropping the newest state of a chain leaves a chain. */
  lemma ChainTail(objects: map<Digest, Bytes>, ds: seq<Digest>, ss: seq<State>)
    requires Chain(objects, ds, ss) && ds != []
    ensures Chain(objects, ds[1..], ss[1..])
  {
    var rest, restStates := ds[1..], ss[1..];
    forall i | 0 <= i < |rest| ensures rest[i] != "" && rest[i] in objects && ParseState(objects[rest[i]]) == Some(restStates[i]) {
      assert rest[i] == ds[i + 1] && restStates[i] == ss[i + 1];
    }
    forall i | 0 <= i < |rest| - 1 ensures Next(restStates[i]) == rest[i + 1] {
      assert restStates[i] == ss[i + 1] && rest[i + 1] == ds[i + 2];
    }
    if restStates != [] {
      assert restStates[|restStates| - 1] == ss[|ss| - 1];
    }
  }

  /** Adding objects without touching existing ones, and a state whose parent is
      the chain's newest digest, gives a chain one longer. */
  lemma CommitExtendsChain(objects: map<Digest, Bytes>, later: map<Digest, Bytes>, ds: seq<Digest>, ss: seq<State>, d: Digest, s: State)
    requires Chain(objects, ds, ss)
    requires forall k :: k in objects ==> k in later && later[k] == objects[k]
    requires d != "" && d in later && later[d] == StateBytes(s)
    requires Next(s) == First(ds)
    ensures Chain(later, [d] + ds, [s] + ss)
  {
    assert ParseState(later[d]) == Some(s) by { StateRoundTrip(s); }
    ChainGrows(objects, later, ds, ss);
    ChainCons(later, ds, ss, d, s);
  }

  /** A chain stays a chain when objects are added and none is changed. */
  lemma ChainGrows(objects: map<Digest, Bytes>, later: map<Digest, Bytes>, ds: seq<Digest>, ss: seq<State>)
    requires Chain(objects, ds, ss)
    requires forall k :: k in objects ==> k in later && later[k] == objects[k]
    ensures Chain(later, ds, ss)
  {
    forall i | 0 <= i < |ds| ensures ds[i] != "" && ds[i] in later && ParseState(later[ds[i]]) == Some(ss[i]) {
      assert later[ds[i]] == objects[ds[i]];
    }
  }

  /** A stored state whose parent is a chain's newest digest heads a longer chain. */
  lemma ChainCons(objects: map<Digest, Bytes>, ds: seq<Digest>, ss: seq<State>, d: Digest, s: State)
    requires Chain(objects, ds, ss)
    requires d != "" && d in objects && ParseState(objects[d]) == Some(s)
    requires Next(s) == First(ds)
    ensures Chain(objects, [d] + ds, [s] + ss)
  {
    var ds', ss' := [d] + ds, [s] + ss;
    forall i | 0 <= i < |ds'| ensures ds'[i] != "" && ds'[i] in objects && ParseState(objects[ds'[i]]) == Some(ss'[i]) {
      if i > 0 {
        assert ds'[i] == ds[i - 1] && ss'[i] == ss[i - 1];
      }
    }
    forall i | 0 <= i < |ds'| - 1 ensures Next(ss'[i]) == ds'[i + 1] {
      if i > 0 {
        assert ss'[i] == ss[i - 1] && ds'[i + 1] == ds[i];
      }
    }
    if ss == [] {
      assert ss' == [s];
    } else {
      assert ss'[|ss'| - 1] == ss[|ss| - 1];
    }
  }

  // ---- restoring ----

  /** Writing one tree entry back, as intended: a FileKind entry's blob goes to
      its path, other kinds are skipped, and a missing blob is an error. */
  function RestoreStep(work: map<Path, Bytes>, objects: map<Digest, Bytes>, entry: (Path, TreeEntry)): (r: Result<map<Path, Bytes>>)
    ensures r.Err? <==> entry.1.kind == FileKind && entry.1.digest !in objects
    ensures r.Err? ==> r.error == ObjectMissing(entry.1.digest)
    ensures r.Ok? ==> work.Keys <= r.value.Keys && forall p :: p in work && p != entry.0 ==> r.value[p] == work[p]
    ensures r.Ok? && entry.1.kind == FileKind ==> entry.0 in r.value && r.value[entry.0] == objects[entry.1.digest]
  {
    var (path, e) := entry;
    if e.kind != FileKind then Ok(work)
    else if e.digest !in objects then Err(ObjectMissing(e.digest))
    else Ok(work[path := objects[e.digest]])
  }

  /** Writing one tree entry back as the source does it: the parent directory is
      made with os.makedirs(os.path.dirname(path)) before the write, and that call
      raises when the path has no directory part. */
  function RestoreStepAsWritten(work: map<Path, Bytes>, objects: map<Digest, Bytes>, entry: (Path, TreeEntry)): (r: Result<map<Path, Bytes>>)
    ensures r.Ok? ==> r == RestoreStep(work, objects, entry)
    ensures r.Err? <==> RestoreStep(work, objects, entry).Err? || (entry.1.kind == FileKind && '/' !in entry.0)
  {
    var (path, e) := entry;
    if e.kind != FileKind then Ok(work)
    else if e.digest !in objects then Err(ObjectMissing(e.digest))
    else if '/' !in path then Err(NoParentDirectory(path))
    else Ok(work[path := objects[e.digest]])
  }

  /** A file at the top of the working directory cannot be restored as written,
      although its blob is stored; the intended step writes it. */
  lemma TopLevelFileRestore(work: map<Path, Bytes>, objects: map<Digest, Bytes>, d: Digest)
    requires d in objects
    ensures RestoreStepAsWritten(work, objects, ("a.txt", TreeEntry(FileKind, d))) == Err(NoParentDirectory("a.txt"))
    ensures RestoreStep(work, objects, ("a.txt", TreeEntry(FileKind, d))) == Ok(work["a.txt" := objects[d]])
  {
    assert "a.txt"[0] != '/' && "a.txt"[1] != '/' && "a.txt"[2] != '/' && "a.txt"[3] != '/' && "a.txt"[4] != '/';
  }

  /** The entries restored in order, stopping at the first that fails: the
      working directory reached and the outcome. */
  function Restore(work: map<Path, Bytes>, objects: map<Digest, Bytes>, es: Dict<Path, TreeEntry>): (r: (map<Path, Bytes>, Result<()>))
    ensures work.Keys <= r.0.Keys
    ensures r.1.Err? ==> r.1.error.ObjectMissing?
    decreases |es|
  {
    if es == [] then (work, Ok(()))
    else
      match RestoreStep(work, objects, es[0])
      case Err(e) => (work, Err(e))
      case Ok(w) => Restore(w, objects, es[1..])
  }

  /** One step of change_state's loop: restoring from entry `i` on is entry `i`'s
      step followed by the rest, or stops at entry `i` when that step fails. */
  lemma RestoreAt(work: map<Path, Bytes>, objects: map<Digest, Bytes>, es: Dict<Path, TreeEntry>, i: nat)
    requires i < |es|
    ensures Restore(work, objects, es[i..]) ==
      match RestoreStep(work, objects, es[i])
      case Err(e) => (work, Err(e))
      case Ok(w) => Restore(w, objects, es[i + 1..])
  {
    assert es[i..][0] == es[i];
    assert es[i..][1..] == es[i + 1..];
  }

  /** The paths of the FileKind entries, the only ones a restore writes. */
  function FilePaths(es: Dict<Path, TreeEntry>): set<Path> {
    set i | 0 <= i < |es| && es[i].1.kind == FileKind :: es[i].0
  }

  /** Every blob a restore of `es` needs is stored. */
  predicate BlobsPresent(objects: map<Digest, Bytes>, es: Dict<Path, TreeEntry>) {
    forall i :: 0 <= i < |es| && es[i].1.kind == FileKind ==> es[i].1.digest in objects
  }

  /** The files a restore of `es` writes, each FileKind path with its blob. */
  function FilesOf(objects: map<Digest, Bytes>, es: Dict<Path, TreeEntry>): map<Path, Bytes> {
    FilesIn(objects, ToMap(es))
  }

  /** The FileKind paths of a path-to-entry mapping, each with its stored blob. */
  function FilesIn(objects: map<Digest, Bytes>, m: map<Path, TreeEntry>): map<Path, Bytes> {
    map p | p in m && m[p].kind == FileKind && m[p].digest in objects :: objects[m[p].digest]
  }

  /** A restore never deletes a file, writes only FileKind paths, and leaves every
      other file as it was. */
  lemma {:induction false} RestoreFrame(work: map<Path, Bytes>, objects: map<Digest, Bytes>, es: Dict<Path, TreeEntry>)
    ensures var w := Restore(work, objects, es).0;
      && work.Keys <= w.Keys <= work.Keys + FilePaths(es)
      && forall p :: p in work && p !in FilePaths(es) ==> w[p] == work[p]
    decreases |es|
  {
    if es != [] {
      var rest := es[1..];
      assert FilePaths(rest) <= FilePaths(es) by {
        forall p | p in FilePaths(rest) ensures p in FilePaths(es) {
          var i :| 0 <= i < |rest| && rest[i].1.kind == FileKind && rest[i].0 == p;
          assert es[i + 1] == rest[i];
        }
      }
      match RestoreStep(work, objects, es[0])
      case Err(_) =>
      case Ok(w) =>
        RestoreFrame(w, objects, rest);
        if es[0].1.kind == FileKind {
          assert es[0].0 in FilePaths(es);
        }
    }
  }

  /** A restore succeeds exactly when every blob it needs is stored. */
  lemma {:induction false} RestoreSucceeds(work: map<Path, Bytes>, objects: map<Digest, Bytes>, es: Dict<Path, TreeEntry>)
    ensures Restore(work, objects, es).1.Ok? <==> BlobsPresent(objects, es)
    decreases |es|
  {
    if es != [] {
      match RestoreStep(work, objects, es[0])
      case Err(_) =>
        assert !BlobsPresent(objects, es);
      case Ok(w) =>
        RestoreSucceeds(w, objects, es[1..]);
        assert BlobsPresent(objects, es) <==> BlobsPresent(objects, es[1..]) by {
          if BlobsPresent(objects, es[1..]) {
            forall i | 0 <= i < |es| && es[i].1.kind == FileKind ensures es[i].1.digest in objects {
              if i > 0 { assert es[1..][i - 1] == es[i]; }
            }
          }
        }
    }
  }

  /** When its blobs are stored, restoring a tree with distinct paths lays its
      files over the working directory. */
  lemma {:induction false} RestoreResult(work: map<Path, Bytes>, objects: map<Digest, Bytes>, es: Dict<Path, TreeEntry>)
    requires UniqueKeys(es) && BlobsPresent(objects, es)
    ensures Restore(work, objects, es) == (work + FilesOf(objects, es), Ok(()))
    decreases |es|
  {
    if es == [] {
      assert FilesOf(objects, es) == map[];
      assert work + map[] == work;
    } else {
      var rest := es[1..];
      assert UniqueKeys(rest);
      assert BlobsPresent(objects, rest) by {
        forall i | 0 <= i < |rest| && rest[i].1.kind == FileKind ensures rest[i].1.digest in objects {
          assert rest[i] == es[i + 1];
        }
      }
      var w := RestoreStep(work, objects, es[0]).value;
      RestoreResult(w, objects, rest);
      StepThenFiles(work, objects, es);
      assert Restore(work, objects, es) == Restore(w, objects, rest);
    }
  }

  /** One restore step followed by the files of the tail gives the files of the tree. */
  lemma StepThenFiles(work: map<Path, Bytes>, objects: map<Digest, Bytes>, es: Dict<Path, TreeEntry>)
    requires UniqueKeys(es) && es != [] && BlobsPresent(objects, es)
    ensures RestoreStep(work, objects, es[0]).Ok?
    ensures RestoreStep(work, objects, es[0]).value + FilesOf(objects, es[1..]) == work + FilesOf(objects, es)
  {
    ToMapFront(es);
    OverlayStep(work, objects, ToMap(es[1..]), es[0].0, es[0].1);
    assert es[0] == (es[0].0, es[0].1);
  }

  /** The step for a path the mapping lacks, then the mapping's files, gives the
      files of the mapping with that path added. */
  lemma OverlayStep(work: map<Path, Bytes>, objects: map<Digest, Bytes>, m: map<Path, TreeEntry>, p: Path, e: TreeEntry)
    requires p !in m && (e.kind == FileKind ==> e.digest in objects)
    ensures RestoreStep(work, objects, (p, e)).Ok?
    ensures RestoreStep(work, objects, (p, e)).value + FilesIn(objects, m) == work + FilesIn(objects, m[p := e])
  {
    FilesInAdd(objects, m, p, e);
    if e.kind == FileKind {
      OverlayFront(work, FilesIn(objects, m), p, objects[e.digest]);
    }
  }

  /** Adding a path the mapping lacks adds it to the files exactly when its entry
      is a stored FileKind blob. */
  lemma FilesInAdd(objects: map<Digest, Bytes>, m: map<Path, TreeEntry>, p: Path, e: TreeEntry)
    requires p !in m
    ensures p !in FilesIn(objects, m)
    ensures FilesIn(objects, m[p := e]) == if e.kind == FileKind && e.digest in objects
      then FilesIn(objects, m)[p := objects[e.digest]]
      else FilesIn(objects, m)
  {}

  lemma OverlayFront(work: map<Path, Bytes>, files: map<Path, Bytes>, p: Path, v: Bytes)
    requires p !in files
    ensures work[p := v] + files == (work + files)[p := v]
  {}

  /** change_state on digest `h`: the working directory reached and the outcome. */
  function ChangeOutcome(work: map<Path, Bytes>, objects: map<Digest, Bytes>, h: Digest): (r: (map<Path, Bytes>, Result<()>))
    ensures work.Keys <= r.0.Keys
    ensures r.1.Err? && !r.1.error.ObjectMissing? ==> r.0 == work
    ensures r.1.Ok? ==>
      && h in objects && TreeField(objects[h]).Some?
      && TreeField(objects[h]).value in objects && ParseTree(objects[TreeField(objects[h]).value]).Some?
  {
    if h !in objects then (work, Err(StateNotFound(h)))
    else
      match TreeField(objects[h])
      case None => (work, Err(CorruptObject(h)))
      case Some(t) =>
        if t !in objects then (work, Err(ObjectMissing(t)))
        else
          match ParseTree(objects[t])
          case None => (work, Err(CorruptObject(t)))
          case Some(es) => Restore(work, objects, es)
  }

  /** When the state and its tree are stored and readable, change_state is the
      restore of that tree. */
  lemma ChangeRestores(work: map<Path, Bytes>, objects: map<Digest, Bytes>, h: Digest)
    requires h in objects && TreeField(objects[h]).Some?
    requires TreeField(objects[h]).value in objects && ParseTree(objects[TreeField(objects[h]).value]).Some?
    ensures ChangeOutcome(work, objects, h) == Restore(work, objects, ParseTree(objects[TreeField(objects[h]).value]).value)
  {}

  /** The staged files as the store holds them: each staged path with the bytes
      stored under its digest. */
  function StagedFiles(objects: map<Digest, Bytes>, e: Entries): map<Path, Bytes> {
    var m := ToMap(e);
    map p | p in m && m[p] in objects :: objects[m[p]]
  }

  /** The sorted tree of staged entries needs only blobs the store already had,
      and restores exactly the staged files. */
  lemma StagedTreeFiles(objects: map<Digest, Bytes>, saved: map<Digest, Bytes>, e: Entries)
    requires UniqueKeys(e) && forall i :: 0 <= i < |e| ==> e[i].1 in objects
    requires forall d :: d in objects ==> d in saved && saved[d] == objects[d]
    ensures BlobsPresent(saved, SortByKey(TreeOf(e)))
    ensures FilesOf(saved, SortByKey(TreeOf(e))) == StagedFiles(objects, e)
  {
    var t := TreeOf(e);
    var sorted := SortByKey(t);
    forall i | 0 <= i < |sorted| && sorted[i].1.kind == FileKind ensures sorted[i].1.digest in saved {
      assert sorted[i] in multiset(t);
      var j :| 0 <= j < |t| && t[j] == sorted[i];
      assert t[j].1.digest == e[j].1;
    }
    SortByKeyToMap(t);
    StagedMapFiles(objects, saved, e);
  }

  lemma StagedMapFiles(objects: map<Digest, Bytes>, saved: map<Digest, Bytes>, e: Entries)
    requires UniqueKeys(e) && forall i :: 0 <= i < |e| ==> e[i].1 in objects
    requires forall d :: d in objects ==> d in saved && saved[d] == objects[d]
    ensures var m := ToMap(TreeOf(e));
      FilesIn(saved, m) == StagedFiles(objects, e)
  {
    CommittedTree(e);
    forall p | p in ToMap(e) ensures ToMap(e)[p] in objects {
      var j :| 0 <= j < |e| && e[j].0 == p;
      ToMapAt(e, j);
    }
  }

  /** Saving the staged entries and then changing to the new state lays the staged
      files over the working directory, given that their blobs are stored. */
  lemma CommitThenRestore(objects: map<Digest, Bytes>, hash: Bytes -> Digest, e: Entries, work: map<Path, Bytes>,
                          parent: Option<Digest>, message: string, now: int)
    requires ContentAddressed(objects, hash) && Injective(hash)
    requires UniqueKeys(e) && forall i :: 0 <= i < |e| ==> e[i].1 in objects
    ensures var tree := TreeBytes(TreeOf(e));
      var record := StateBytes(State(hash(tree), now, parent, message));
      var saved := Stored(Stored(objects, hash, tree), hash, record);
      ChangeOutcome(work, saved, hash(record)) == (work + StagedFiles(objects, e), Ok(()))
  {
    var t := TreeOf(e);
    var tree := TreeBytes(t);
    var s := State(hash(tree), now, parent, message);
    var record := StateBytes(s);
    var mid := Stored(objects, hash, tree);
    var saved := Stored(mid, hash, record);
    StoredKeepsAddressing(objects, hash, tree);
    StoredKeepsAddressing(mid, hash, record);
    assert saved[hash(record)] == record;
    assert saved[hash(tree)] == tree;
    assert TreeField(saved[hash(record)]) == Some(hash(tree)) by { StateRoundTrip(s); }
    assert ParseTree(saved[hash(tree)]) == Some(SortByKey(t)) by { TreeRoundTrip(t); }
    StagedTreeFiles(objects, saved, e);
    RestoreResult(work, saved, SortByKey(t));
  }

  /** The loop of show_history from digest `start`: follows parent links while the
      digest is non-empty and stored, and stops at an object that is not a state
      record. The walk is assumed to end. */
  method WalkHistory(objects: map<Digest, Bytes>, start: Digest) returns (shown: seq<Visit>, r: Result<()>)
    requires exists n :: WalkEnds(objects, start, n)
    ensures forall n :: WalkEnds(objects, start, n) ==> Walk(objects, start, n) == Some((shown, r))
  {
    ghost var n: nat :| WalkEnds(objects, start, n);
    ghost var fuel: nat := n;
    var h := start;
    shown, r := [], Ok(());
    assert shown + Walk(objects, h, fuel).value.0 == Walk(objects, h, fuel).value.0;
    while h != ""
      invariant r == Ok(()) && WalkEnds(objects, h, fuel)
      invariant Walk(objects, start, n).value == (shown + Walk(objects, h, fuel).value.0, Walk(objects, h, fuel).value.1)
      decreases fuel
    {
      if h !in objects {
        assert Walk(objects, h, fuel) == Some(([], Ok(())));
        break;
      }
      var s := ParseState(objects[h]);
      if s.None? {
        r := Err(CorruptObject(h));
        assert Walk(objects, h, fuel) == Some(([], r));
        break;
      }
      WalkAdvance(objects, start, n, shown, h, fuel);
      shown := shown + [Visit(h, s.value)];
      h := Next(s.value);
      fuel := fuel - 1;
    }
    assert Walk(objects, h, fuel) == Some(([], r));
    assert shown + [] == shown;
    assert Walk(objects, start, n) == Some((shown, r));
    forall m: nat | WalkEnds(objects, start, m) ensures Walk(objects, start, m) == Some((shown, r)) {
      if m <= n { WalkFuel(objects, start, m, n); } else { WalkFuel(objects, start, n, m); }
    }
  }

  /** One step of WalkHistory's loop: printing the state at `h` keeps the walk
      from `start` equal to what is printed so far followed by the rest. */
  lemma WalkAdvance(objects: map<Digest, Bytes>, start: Digest, n: nat, shown: seq<Visit>, h: Digest, fuel: nat)
    requires WalkEnds(objects, h, fuel) && h != "" && h in objects && ParseState(objects[h]).Some?
    requires WalkEnds(objects, start, n)
    requires Walk(objects, start, n).value == (shown + Walk(objects, h, fuel).value.0, Walk(objects, h, fuel).value.1)
    ensures fuel > 0
    ensures var s := ParseState(objects[h]).value;
      && WalkEnds(objects, Next(s), fuel - 1)
      && Walk(objects, start, n).value
         == ((shown + [Visit(h, s)]) + Walk(objects, Next(s), fuel - 1).value.0, Walk(objects, Next(s), fuel - 1).value.1)
  {
    WalkStep(objects, h, fuel);
    var s := ParseState(objects[h]).value;
    var rest := Walk(objects, Next(s), fuel - 1).value;
    assert shown + ([Visit(h, s)] + rest.0) == (shown + [Visit(h, s)]) + rest.0;
  }

  /** A new tree holding each staged path with its staged digest. */
  method BuildTree(staged: Entries) returns (tree: Tree)
    requires UniqueKeys(staged)
    ensures fresh(tree) && tree.Valid() && tree.entries == TreeOf(staged)
  {
    tree := new Tree();
    var i := 0;
    while i < |staged|
      modifies tree
      invariant 0 <= i <= |staged|
      invariant tree.Valid() && tree.entries == TreeOf(staged[..i])
    {
      var (path, digest) := staged[i];
      TreeOfSnoc(staged, i);
      tree.SetEntry(path, TreeEntry(FileKind, digest));
      i := i + 1;
    }
    assert staged[..i] == staged;
  }

  /** The tree of one more staged entry is the tree so far with that entry set. */
  lemma TreeOfSnoc(e: Entries, i: nat)
    requires UniqueKeys(e) && i < |e|
    ensures UniqueKeys(TreeOf(e[..i]))
    ensures TreeOf(e[..i + 1]) == Put(TreeOf(e[..i]), e[i].0, TreeEntry(FileKind, e[i].1))
  {
    var t := TreeOf(e[..i]);
    assert UniqueKeys(e[..i]);
    assert e[i].0 !in KeySet(t) by {
      forall j | 0 <= j < i ensures t[j].0 != e[i].0 {
        assert t[j].0 == e[j].0;
      }
    }
    PutNew(t, e[i].0, TreeEntry(FileKind, e[i].1));
    assert TreeOf(e[..i + 1]) == t + [(e[i].0, TreeEntry(FileKind, e[i].1))];
  }

  /** Builds the tree of the staged entries and stores it. */
  method StoreTree(disk: Disk, staged: Entries) returns (r: Result<Digest>)
    requires disk.Valid() && UniqueKeys(staged)
    modifies disk`objects
    ensures disk.Valid()
    ensures r == if disk.initialized then Ok(disk.hash(TreeBytes(TreeOf(staged)))) else Err(NotInitialized)
    ensures disk.objects == if r.Ok? then Stored(old(disk.objects), disk.hash, TreeBytes(TreeOf(staged))) else old(disk.objects)
  {
    var tree := BuildTree(staged);
    r := tree.Store(disk);
  }

  class StateManager {
    const disk: Disk
    const repo: Repo
    const index: Index

    ghost predicate Valid()
      reads this, repo, index, disk
    {
      repo.disk == disk && index.disk == disk && index.Valid()
    }

    constructor (disk: Disk, workingDir: Path)
      requires disk.Valid()
      ensures Valid() && this.disk == disk
      ensures index.entries == LoadEntries(disk.index)
    {
      this.disk := disk;
      repo := new Repo(disk, workingDir);
      index := new Index(disk);
    }

    /** Records the staged files as a new state on the current branch and clears
        the index; does nothing when nothing is staged. */
    method SaveState(message: string, now: int) returns (r: Result<Option<Digest>>)
      requires Valid()
      modifies index`entries, disk`objects, disk`refs, disk`index
      ensures Valid()
      ensures (Saved(disk.objects, disk.refs, disk.index, index.entries), r)
           == Save(old(Saved(disk.objects, disk.refs, disk.index, index.entries)), disk.hash, disk.initialized, disk.head, message, now)
    {
      ghost var before := Saved(disk.objects, disk.refs, disk.index, index.entries);
      var staged := index.entries;
      if staged == [] {
        SaveEarly(before, disk.hash, disk.initialized, disk.head, message, now);
        return Ok(None);
      }
      // 1. the tree of the staged files
      var stored := StoreTree(disk, staged);
      if stored.Err? {
        SaveEarly(before, disk.hash, disk.initialized, disk.head, message, now);
        return Err(stored.error);
      }
      r := Commit(before, stored.value, message, now);
    }

    /** The rest of SaveState once the tree of the staged files is stored. */
    method Commit(ghost before: Saved, treeDigest: Digest, message: string, now: int) returns (r: Result<Option<Digest>>)
      requires Valid() && disk.initialized && UniqueKeys(before.entries) && before.entries != []
      requires treeDigest == disk.hash(TreeBytes(TreeOf(before.entries)))
      requires disk.objects == Stored(before.objects, disk.hash, TreeBytes(TreeOf(before.entries)))
      requires disk.refs == before.refs && disk.index == before.index && index.entries == before.entries
      modifies index`entries, disk`objects, disk`refs, disk`index
      ensures Valid()
      ensures (Saved(disk.objects, disk.refs, disk.index, index.entries), r)
           == Save(before, disk.hash, true, disk.head, message, now)
    {
      // 2. the branch HEAD names, which fails after the tree is stored
      var ref := repo.GetHead();
      if ref.Err? {
        SaveWithoutHead(before, disk.hash, disk.head, message, now);
        return Err(ref.error);
      }
      ghost var s := NewState(before.entries, disk.hash, before.refs, ref.value, message, now);
      assert s == State(treeDigest, now, ParentOf(disk.refs, ref.value), message);
      var d := Record(treeDigest, ref.value, message, now);
      SaveCommits(before, disk.hash, disk.head, message, now);
      r := Ok(Some(d));
    }

    /** Steps 2 to 5 of a save once the tree is stored: the new state takes the
        branch tip as its parent, is stored, becomes the branch tip, and the index
        is cleared. */
    method Record(treeDigest: Digest, ref: string, message: string, now: int) returns (d: Digest)
      requires Valid() && disk.initialized && disk.head.Some? && ref == HeadRef(disk.head).value
      modifies index`entries, disk`objects, disk`refs, disk`index
      ensures Valid()
      ensures var s := State(treeDigest, now, ParentOf(old(disk.refs), ref), message);
        && d == disk.hash(StateBytes(s))
        && disk.objects == Stored(old(disk.objects), disk.hash, StateBytes(s))
        && disk.refs == old(disk.refs)[ref := d + "\n"]
        && index.entries == []
        && disk.index == Some(IndexBytes([]))
    {
      // the stripped branch file, None when it is missing or blank
      var parent := ParentOf(disk.refs, ref);
      // 3. the new state
      var s := State(treeDigest, now, parent, message);
      var stored := s.Store(disk);
      assert stored.Ok?;
      d := stored.value;
      Advance(ref, d);
    }

    /** Steps 4 and 5 of a save: the branch moves to the new state and the index
        is cleared. */
    method Advance(ref: string, d: Digest)
      requires Valid() && disk.initialized && disk.head.Some? && ref == HeadRef(disk.head).value
      modifies index`entries, disk`refs, disk`index
      ensures Valid()
      ensures disk.refs == old(disk.refs)[ref := d + "\n"]
      ensures index.entries == [] && disk.index == Some(IndexBytes([]))
    {
      // 4. the branch moves to it
      var moved := repo.UpdateHeadLatestState(d);
      assert moved.Ok?;
      // 5. the index is cleared
      index.entries := [];
      var saved := index.Save();
      assert saved.Ok?;
    }

    /** The states on the current branch, newest first, following parent links. The
        walk is assumed to end: with parent links that form a cycle the source never
        returns. */
    method ShowHistory() returns (shown: seq<Visit>, r: Result<()>)
      requires Valid()
      requires disk.head.Some? ==> exists n :: WalkEnds(disk.objects, Tip(disk.refs, HeadRef(disk.head).value), n)
      ensures disk.head.None? ==> shown == [] && r == Err(HeadMissing)
      ensures disk.head.Some? ==> forall n ::
        WalkEnds(disk.objects, Tip(disk.refs, HeadRef(disk.head).value), n) ==>
        Walk(disk.objects, Tip(disk.refs, HeadRef(disk.head).value), n) == Some((shown, r))
    {
      var head := repo.GetHead();
      if head.Err? {
        return [], Err(head.error);
      }
      // the stripped branch file, "" when it is missing or blank
      shown, r := WalkHistory(disk.objects, Tip(disk.refs, head.value));
    }

    /** Writes the files of the state with digest `h` into the working directory. */
    method ChangeState(h: Digest) returns (r: Result<()>)
      requires Valid()
      modifies disk`work
      ensures Valid()
      ensures (disk.work, r) == ChangeOutcome(old(disk.work), disk.objects, h)
    {
      if h !in disk.objects {
        return Err(StateNotFound(h));
      }
      var treeDigest := TreeField(disk.objects[h]);
      if treeDigest.None? {
        return Err(CorruptObject(h));
      }
      var t := treeDigest.value;
      if t !in disk.objects {
        return Err(ObjectMissing(t));
      }
      var tree := ParseTree(disk.objects[t]);
      if tree.None? {
        return Err(CorruptObject(t));
      }
      var es := tree.value;
      ChangeRestores(disk.work, disk.objects, h);
      var i := 0;
      while i < |es|
        invariant 0 <= i <= |es|
        invariant Restore(old(disk.work), disk.objects, es) == Restore(disk.work, disk.objects, es[i..])
      {
        var (path, e) := es[i];
        RestoreAt(disk.work, disk.objects, es, i);
        if e.kind != FileKind {
          i := i + 1;
          continue;
        }
        if e.digest !in disk.objects {
          return Err(ObjectMissing(e.digest));
        }
        disk.work := disk.work[path := disk.objects[e.digest]];
        i := i + 1;
      }
      r := Ok(());
    }
  }
}
