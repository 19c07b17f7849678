// The three kinds of stored object (file contents, trees and states), the bytes
// each is stored as, and the write-once, content-addressed store they go to.
module Objects {
  import opened Base
  import opened Text
  import opened Dict
  import opened Json
  import opened FileSystem

  // ---- the store ----

  /** The objects after a check-then-write of `data`: written under its digest
      unless an object with that digest is already there. */
  function Stored(objects: map<Digest, Bytes>, hash: Bytes -> Digest, data: Bytes): (r: map<Digest, Bytes>)
    ensures r.Keys == objects.Keys + {hash(data)}
    ensures forall d :: d in objects ==> r[d] == objects[d]
    ensures hash(data) !in objects ==> r[hash(data)] == data
  {
    if hash(data) in objects then objects else objects[hash(data) := data]
  }

  /** A content-addressed store stays content-addressed, and with a collision-free
      hash the object under the new digest is exactly the data written. */
  lemma StoredKeepsAddressing(objects: map<Digest, Bytes>, hash: Bytes -> Digest, data: Bytes)
    requires ContentAddressed(objects, hash)
    ensures ContentAddressed(Stored(objects, hash, data), hash)
    ensures Injective(hash) ==> Stored(objects, hash, data)[hash(data)] == data
  {
    if Injective(hash) && hash(data) in objects {
      assert hash(objects[hash(data)]) == hash(data);
    }
  }

  /** Storing the same bytes again changes nothing. */
  lemma StoredIdempotent(objects: map<Digest, Bytes>, hash: Bytes -> Digest, data: Bytes)
    ensures Stored(Stored(objects, hash, data), hash, data) == Stored(objects, hash, data)
  {}

  /** The check-then-write every store method performs: hash, and write only when
      no object with that digest exists; writing fails without the objects folder. */
  method StoreObject(disk: Disk, data: Bytes) returns (r: Result<Digest>)
    requires disk.Valid()
    modifies disk`objects
    ensures disk.Valid()
    ensures r == if disk.initialized then Ok(disk.hash(data)) else Err(NotInitialized)
    ensures disk.objects == if r.Ok? then Stored(old(disk.objects), disk.hash, data) else old(disk.objects)
  {
    var digest := disk.hash(data);
    if digest in disk.objects {
      return Ok(digest);
    }
    if !disk.initialized {
      return Err(NotInitialized);
    }
    disk.objects := disk.objects[digest := data];
    r := Ok(digest);
  }

  // ---- file contents ----

  /** The bytes of one working file, stored as they are. */
  datatype FileContent = FileContent(content: Bytes) {
    method Store(disk: Disk) returns (r: Result<Digest>)
      requires disk.Valid()
      modifies disk`objects
      ensures disk.Valid()
      ensures r == if disk.initialized then Ok(disk.hash(content)) else Err(NotInitialized)
      ensures disk.objects == if r.Ok? then Stored(old(disk.objects), disk.hash, content) else old(disk.objects)
    {
      r := StoreObject(disk, content);
    }
  }

  // ---- trees ----

  /** The value of one tree entry, written as the pair (kind, digest). */
  datatype TreeEntry = TreeEntry(kind: string, digest: Digest)

  function EntryJson(e: TreeEntry): Json {
    Arr([Str(e.kind), Str(e.digest)])
  }

  /** Unpacking `(obj_type, obj_hash)` from a loaded entry. */
  function EntryOf(j: Json): (r: Option<TreeEntry>)
    ensures r.Some? ==> EntryJson(r.value) == j
  {
    if j.Arr? && |j.items| == 2 && j.items[0].Str? && j.items[1].Str? then
      assert j.items == [j.items[0], j.items[1]];
      Some(TreeEntry(j.items[0].s, j.items[1].s))
    else None
  }

  lemma EntryRoundTrip(e: TreeEntry)
    ensures EntryOf(EntryJson(e)) == Some(e)
  {}

  /** The members of the JSON object a tree's entries are written as. */
  function MembersOf(es: Dict<Path, TreeEntry>): (ms: seq<(string, Json)>)
    ensures |ms| == |es|
    ensures forall i :: 0 <= i < |es| ==> ms[i] == (es[i].0, EntryJson(es[i].1))
  {
    seq(|es|, i requires 0 <= i < |es| => (es[i].0, EntryJson(es[i].1)))
  }

  /** The entries of a loaded tree object, or None when a value is not a pair of strings. */
  function EntriesOf(ms: seq<(string, Json)>): (r: Option<Dict<Path, TreeEntry>>)
    ensures r.Some? ==> |r.value| == |ms|
    ensures r.Some? ==> forall i :: 0 <= i < |ms| ==> r.value[i].0 == ms[i].0 && EntryJson(r.value[i].1) == ms[i].1
  {
    if ms == [] then Some([])
    else
      match EntryOf(ms[0].1)
      case None => None
      case Some(e) =>
        match EntriesOf(ms[1..])
        case None => None
        case Some(rest) => Some([(ms[0].0, e)] + rest)
  }

  lemma {:induction false} EntriesOfMembers(es: Dict<Path, TreeEntry>)
    ensures EntriesOf(MembersOf(es)) == Some(es)
    decreases |es|
  {
    if es != [] {
      assert MembersOf(es)[1..] == MembersOf(es[1..]);
      EntriesOfMembers(es[1..]);
      assert es == [es[0]] + es[1..];
    }
  }

  /** json.dumps(entries, sort_keys=True).encode(): the bytes a tree is stored as. */
  function TreeBytes(es: Dict<Path, TreeEntry>): (b: Bytes)
    requires UniqueKeys(es)
    ensures Loads(b).Some? && Loads(b).value.Obj?
    ensures var ms := Loads(b).value.members;
      |ms| == |es| && SortedByKey(ms) && KeySet(ms) == KeySet(es)
  {
    SortedMembers(es);
    Dumps(Obj(MembersOf(SortByKey(es))))
  }

  /** The members of a sorted tree are in key order and have the tree's keys. */
  lemma SortedMembers(es: Dict<Path, TreeEntry>)
    requires UniqueKeys(es)
    ensures var ms := MembersOf(SortByKey(es));
      |ms| == |es| && SortedByKey(ms) && KeySet(ms) == KeySet(es)
  {
    var s := SortByKey(es);
    assert KeySet(s) == KeySet(es) by { SortByKeyToMap(es); }
    assert |s| == |multiset(s)| == |multiset(es)| == |es|;
    SameKeys(s, MembersOf(s));
  }


  /** json.loads of a stored tree: the dict whose items a restore walks. */
  function ParseTree(b: Bytes): (r: Option<Dict<Path, TreeEntry>>)
    ensures r.Some? ==> UniqueKeys(r.value)
  {
    match Loads(b)
    case Some(Obj(ms)) => EntriesOf(FromPairs(ms))
    case _ => None
  }

  /** Reading a stored tree back gives its entries in key order. */
  lemma TreeRoundTrip(es: Dict<Path, TreeEntry>)
    requires UniqueKeys(es)
    ensures ParseTree(TreeBytes(es)) == Some(SortByKey(es))
  {
    var s := SortByKey(es);
    SortedKeysUnique(s);
    var ms := MembersOf(s);
    assert UniqueKeys(ms);
    FromUniquePairs(ms);
    EntriesOfMembers(s);
  }

  /** Trees with the same entries, filled in any order, are stored as the same
      bytes and so under the same digest. */
  lemma TreeOrderIndependent(e1: Dict<Path, TreeEntry>, e2: Dict<Path, TreeEntry>, hash: Bytes -> Digest)
    requires UniqueKeys(e1) && UniqueKeys(e2)
    requires ToMap(e1) == ToMap(e2)
    ensures TreeBytes(e1) == TreeBytes(e2)
    ensures hash(TreeBytes(e1)) == hash(TreeBytes(e2))
  {
    CanonicalOrderIndependent(e1, e2);
  }

  /** A directory snapshot whose entries the caller fills in place. */
  class Tree {
    var entries: Dict<Path, TreeEntry>

    ghost predicate Valid()
      reads this
    {
      UniqueKeys(entries)
    }

    constructor ()
      ensures Valid() && entries == []
    {
      entries := [];
    }

    /** entries[path] = (kind, digest) */
    method SetEntry(path: Path, e: TreeEntry)
      requires Valid()
      modifies this
      ensures Valid()
      ensures entries == Put(old(entries), path, e)
      ensures ToMap(entries) == old(ToMap(entries))[path := e]
    {
      entries := Put(entries, path, e);
    }

    method Store(disk: Disk) returns (r: Result<Digest>)
      requires Valid() && disk.Valid()
      modifies disk`objects
      ensures disk.Valid()
      ensures r == if disk.initialized then Ok(disk.hash(TreeBytes(entries))) else Err(NotInitialized)
      ensures disk.objects == if r.Ok? then Stored(old(disk.objects), disk.hash, TreeBytes(entries)) else old(disk.objects)
    {
      r := StoreObject(disk, TreeBytes(entries));
    }
  }

  // ---- states ----

  /** A history node: the tree it snapshots, its parent state (None for the
      first), a message and the creation time in whole seconds. */
  datatype State = State(tree: Digest, timestamp: int, parent: Option<Digest> := None, message: string := "") {
    method Store(disk: Disk) returns (r: Result<Digest>)
      requires disk.Valid()
      modifies disk`objects
      ensures disk.Valid()
      ensures r == if disk.initialized then Ok(disk.hash(StateBytes(this))) else Err(NotInitialized)
      ensures disk.objects == if r.Ok? then Stored(old(disk.objects), disk.hash, StateBytes(this)) else old(disk.objects)
    {
      r := StoreObject(disk, StateBytes(this));
    }
  }

  /** A state made without parent or message has neither. */
  lemma StateDefaults(tree: Digest, now: int)
    ensures State(tree, now).parent == None && State(tree, now).message == ""
  {}

  /** The four-field record a state is written as, in the order it is built. */
  function StateRecord(s: State): (d: Dict<string, Json>)
    ensures UniqueKeys(d)
  {
    [ ("tree", Str(s.tree)),
      ("parent", if s.parent.Some? then Str(s.parent.value) else Null),
      ("message", Str(s.message)),
      ("timestamp", Int(s.timestamp)) ]
  }

  /** The record's members in key order. */
  function SortedStateRecord(s: State): Dict<string, Json> {
    [ ("message", Str(s.message)),
      ("parent", if s.parent.Some? then Str(s.parent.value) else Null),
      ("timestamp", Int(s.timestamp)),
      ("tree", Str(s.tree)) ]
  }

  /** Sorting the record by key, as sort_keys=True does, gives the members in the
      order SortedStateRecord lists them. */
  lemma RecordInKeyOrder(s: State)
    ensures SortByKey(StateRecord(s)) == SortedStateRecord(s)
  {
    var rec, sorted := StateRecord(s), SortedStateRecord(s);
    assert Below("message", "parent") && Below("parent", "timestamp") && Below("timestamp", "tree");
    BelowTransitive("message", "parent", "timestamp");
    BelowTransitive("message", "timestamp", "tree");
    BelowTransitive("parent", "timestamp", "tree");
    assert SortedByKey(sorted);
    var bySort := SortByKey(rec);
    forall x ensures x in bySort <==> x in sorted {
      calc {
        x in bySort;
        x in multiset(bySort);
        x in multiset(rec);
        x in rec;
        x in sorted;
      }
    }
    SortedUnique(bySort, sorted);
  }

  /** json.dumps(record, sort_keys=True).encode(): the bytes a state is stored as,
      the members in key order (RecordInKeyOrder). Reading them back recovers
      the state's tree, parent, message and time. */
  function StateBytes(s: State): (b: Bytes)
    ensures ParseState(b) == Some(s)
  {
    StateFields(s);
    StateOfFields(SortedStateRecord(s), s);
    Dumps(Obj(SortedStateRecord(s)))
  }

  /** d.get(key) on a loaded JSON object: the last member with that key. */
  function Field(ms: seq<(string, Json)>, key: string): Option<Json>
    decreases |ms|
  {
    if ms == [] then None
    else if ms[|ms| - 1].0 == key then Some(ms[|ms| - 1].1)
    else Field(ms[..|ms| - 1], key)
  }

  /** A field is what the mapping the members denote holds for its key. */
  lemma {:induction false} FieldToMap(ms: seq<(string, Json)>, key: string)
    ensures Field(ms, key) == if key in ToMap(ms) then Some(ToMap(ms)[key]) else None
    decreases |ms|
  {
    if ms != [] {
      FieldToMap(ms[..|ms| - 1], key);
    }
  }

  /** A loaded state record: "tree", "message" and "timestamp" must be present and
      "parent" is read with .get, so a missing one means no parent. None when the
      members are not such a record. */
  function StateOf(ms: seq<(string, Json)>): Option<State> {
    var tree, parent, message, time := Field(ms, "tree"), Field(ms, "parent"), Field(ms, "message"), Field(ms, "timestamp");
    if && tree.Some? && tree.value.Str?
       && message.Some? && message.value.Str?
       && time.Some? && time.value.Int?
       && (parent.None? || parent.value.Null? || parent.value.Str?)
    then
      var p := if parent.Some? && parent.value.Str? then Some(parent.value.s) else None;
      Some(State(tree.value.s, time.value.i, p, message.value.s))
    else None
  }

  /** json.loads of a stored state. */
  function ParseState(b: Bytes): (r: Option<State>)
    ensures r.Some? ==> Loads(b).Some? && Loads(b).value.Obj?
  {
    match Loads(b)
    case Some(Obj(ms)) => StateOf(ms)
    case _ => None
  }

  /** state_data['tree'] of a loaded state record. */
  function TreeField(b: Bytes): (r: Option<Digest>)
    ensures r.Some? ==> Loads(b).Some? && Loads(b).value.Obj?
    ensures r.Some? ==> var m := ToMap(Loads(b).value.members);
      "tree" in m && m["tree"] == Str(r.value)
  {
    match Loads(b)
    case Some(Obj(ms)) =>
      FieldToMap(ms, "tree");
      var tree := Field(ms, "tree");
      if tree.Some? && tree.value.Str? then Some(tree.value.s) else None
    case _ => None
  }

  /** show_history and change_state read the same tree from a state record. */
  lemma StateTreeField(b: Bytes)
    requires ParseState(b).Some?
    ensures TreeField(b) == Some(ParseState(b).value.tree)
  {}

  /** Each field of the loaded record holds what the state was built with. */
  lemma StateFields(s: State)
    ensures var ms := SortedStateRecord(s);
      && Field(ms, "tree") == Some(Str(s.tree))
      && Field(ms, "parent") == Some(if s.parent.Some? then Str(s.parent.value) else Null)
      && Field(ms, "message") == Some(Str(s.message))
      && Field(ms, "timestamp") == Some(Int(s.timestamp))
  {
    var ms := SortedStateRecord(s);
    var ms3, ms2, ms1 := ms[..3], ms[..2], ms[..1];
    assert ms3[..2] == ms2 && ms2[..1] == ms1;
    assert |"tree"| == 4 && |"timestamp"| == 9 && |"parent"| == 6 && |"message"| == 7;
    assert Field(ms, "parent") == Field(ms3, "parent") == Field(ms2, "parent");
    assert Field(ms, "message") == Field(ms3, "message") == Field(ms2, "message") == Field(ms1, "message");
  }

  /** change_state reads a stored state's tree back as the tree it was built with. */
  lemma StateRoundTrip(s: State)
    ensures TreeField(StateBytes(s)) == Some(s.tree)
  {
    StateTreeField(StateBytes(s));
  }

  lemma StateOfFields(ms: seq<(string, Json)>, s: State)
    requires Field(ms, "tree") == Some(Str(s.tree))
    requires Field(ms, "parent") == Some(if s.parent.Some? then Str(s.parent.value) else Null)
    requires Field(ms, "message") == Some(Str(s.message))
    requires Field(ms, "timestamp") == Some(Int(s.timestamp))
    ensures StateOf(ms) == Some(s)
  {}
}
