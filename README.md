# landle core, modelled in Dafny

landle is a small content-addressed version-control engine. It keeps the
following under `<working dir>/.landle`:

- `objects/` holds write-once objects named by the SHA-256 hex digest of their
  bytes. There are three kinds:
  - file contents (blobs);
  - trees, which are JSON maps from path to `("fileContent", digest)`;
  - states, which are JSON records of tree, parent, message and timestamp.
- `HEAD` holds the line `ref: refs/heads/main`.
- `refs/heads/<branch>` files hold the newest state of each branch.
- `index` is a JSON map from staged path to blob digest.

The engine has the following operations:

- **Staging.** `add_file` and `add_dir` store file contents and record them in
  the index.
- **Saving.** `save_state` turns the index into a tree and a state whose parent
  is the branch tip, moves the branch and clears the index.
- **History.** `show_history` follows parent links back from the tip.
- **Restoring.** `change_state` writes a state's files back into the working
  directory.

## How the model is built

The file system is replaced by the explicit state of a `FileSystem.Disk`
object. It has these parts:

- the object store `objects: map<Digest, Bytes>`;
- the text of HEAD;
- the branch files, keyed by their path relative to `.landle`;
- the bytes of the index file;
- the working directory `work: map<Path, Bytes>`;
- a flag recording whether the `.landle` folders exist.

Python's classes are modelled as follows:

- `FileContent` and `State` are never changed after construction, so they are
  the datatypes `Objects.FileContent` and `Objects.State`. Each has a `Store`
  method that writes it to the disk.
- `Objects.Tree` and `Staging.Index` are classes. They keep their in-memory `entries` as a field
  that their methods update.
- `Refs.Repo` and `History.StateManager` hold no mutable state of their own. In
  Python they only read and write files, so their methods modify the `Disk`
  fields that stand for those files.
- Each method's `modifies` clause names exactly the fields it changes.

Each method is proved against a specification function:

- `Objects.Stored` for a check-then-write;
- `History.Save` for `save_state`;
- `History.Walk` for `show_history`;
- `History.ChangeOutcome` and `History.Restore` for `change_state`;
- `Staging.AddAll` for `add_dir`.

The properties are proved as lemmas about those functions.

The model stands in for Python's data handling as follows:

- **Dictionaries.** A Python `dict` is a `Dict.Dict`: a sequence of key-value
  pairs with unique keys, kept in insertion order. `Dict.ToMap` gives the
  mapping it denotes, and `Dict.Put` is `d[k] = v`.
- **`sort_keys=True`.** This is `Dict.SortByKey`, an insertion sort under
  Python's string order `Text.Below`.
- **JSON.** `Json.Dumps`/`Json.Loads` is a tagged, length-prefixed encoding,
  with a proved round trip. It is not JSON text. It covers the JSON values the
  engine writes: null, integers, strings, arrays and objects.
- **SHA-256.** The hash is an opaque function `hash: Bytes -> Digest` held by
  the disk. Where deduplication or a round trip through the store needs it,
  a lemma assumes collision freedom (`Base.Injective`) or hexadecimal output
  (`Base.HexOutput`) explicitly.
- **Failures.** A Python exception is an `Err(Error)` result, and a
  `print`-and-return is a plain return.
- **Time and directory listings.** The current time is a parameter `now`. The
  list of files `os.walk` finds is a parameter `listing`.

## Model

| member | source | states |
|---|---|---|
| Objects.Stored | core/objects.py:27-31 | the store after a check-then-write: it gains exactly the data's digest, keeps every old object as it was, and holds the data there if the digest was new |
| Objects.StoredKeepsAddressing | core/objects.py:25-33 | a content-addressed store stays so after a write, and with a collision-free hash the object under the returned digest is exactly the data |
| Objects.StoredIdempotent | core/objects.py:22-33 | storing the same bytes twice leaves the store as storing them once |
| Objects.StoreObject | core/objects.py:25-33 | returns the hash of the data and stores it write-once; fails and changes nothing when the objects folder is missing |
| Objects.FileContent.Store | core/objects.py:22-33 | FileContent.store returns hash(content) and afterwards the store holds the content under it, unless an object with that digest was already there, which is left untouched |
| Objects.Tree.constructor | core/objects.py:40-44 | a new tree has no entries |
| Objects.Tree.SetEntry | core/state_manager.py:29 | `tree.entries[path] = entry` replaces or appends that key alone; the denoted mapping gains exactly path := entry |
| Objects.Tree.Store | core/objects.py:46-58 | stores the sorted-key serialisation of the entries under its hash, adding at most that one object |
| Objects.EntryOf | core/state_manager.py:99 | unpacking `(obj_type, obj_hash)` succeeds only on a two-string pair, and then gives back the entry that serialises to it |
| Objects.EntryRoundTrip | core/objects.py:41-44 | an entry `(type, hash)` reads back as itself |
| Objects.EntriesOfMembers | core/objects.py:49 | decoding the members of a serialised tree gives back the same entries |
| Objects.TreeBytes | core/objects.py:49 | the stored tree is one JSON object with one member per entry, in key order, whose keys are exactly the tree's paths |
| Objects.ParseTree | core/state_manager.py:96-97 | a loaded tree keeps one item per path, as json.loads does |
| Objects.TreeRoundTrip | core/objects.py:49-51 | loading a stored tree gives its entries in key order |
| Objects.TreeOrderIndependent | core/objects.py:49-51 | two trees with the same entries, filled in any order, serialise to identical bytes and so get the same digest |
| Objects.State.Store | core/objects.py:70-89 | stores the four-field record under its hash, write-once |
| Objects.StateDefaults | core/objects.py:64-68 | a state made without parent or message has a null parent and an empty message |
| Objects.StateRecord | core/objects.py:73-78 | the record has the four distinct keys tree, parent, message, timestamp |
| Objects.RecordInKeyOrder | core/objects.py:80 | sorting the record by key gives message, parent, timestamp, tree, the order the stored bytes list them |
| Objects.StateBytes | core/objects.py:73-80 | reading the stored record back recovers the state's tree, parent (none when null), message and timestamp |
| Objects.ParseState | core/state_manager.py:75-76 | a state is read only from bytes that load as a JSON object |
| Objects.TreeField | core/state_manager.py:91-94 | `state_data['tree']` is the string the loaded object's dict holds under "tree" |
| Objects.StateTreeField | core/state_manager.py:94 | a record that reads as a state gives change_state that state's tree |
| Objects.FieldToMap | core/state_manager.py:79-83 | reading a field of a loaded object gives what the mapping its members denote holds for that key, or nothing when the key is absent |
| Objects.StateFields | core/objects.py:73-80 | each field of the loaded state record holds the value it was built with, parent null when there is none |
| Objects.StateRoundTrip | core/state_manager.py:91-94 | change_state reads a stored state's tree field back as the tree the state was built with |
| Objects.StateOfFields | core/state_manager.py:76-83 | a record whose four fields hold a state's values decodes to that state |
| Refs.LayoutOf | core/repo.py:35-46 | `.landle` lies under the working directory, and the objects, refs, index and HEAD paths all lie under `.landle` |
| Refs.Join | core/repo.py:39-46 | an absolute name replaces the directory; otherwise the result is the directory and the name with at most one separator added |
| Refs.JoinUnder | core/repo.py:39-46 | joining a relative name to a directory gives a path strictly inside it |
| Refs.UnderJoin | core/repo.py:43 | a name joined to a path inside a directory stays inside it |
| Refs.MainBranchPath | core/repo.py:63 | the main branch file init_repo creates is the file HEAD's `refs/heads/main` names relative to `.landle` |
| Refs.RefsHeadsMain | core/repo.py:63 | joining refs, heads and main one after another gives the same path as joining `refs/heads/main` at once |
| Refs.ParseHead | core/repo.py:78-84 | get_head returns the stripped HEAD text, or that text less one leading `ref: ` |
| Refs.HeadRef | core/repo.py:72-84 | fails, with HeadMissing, exactly when there is no HEAD file; otherwise gives the stripped text, with or without one leading `ref: ` |
| Refs.SymbolicHead | core/repo.py:78-84 | a `ref: <branch>` line with any white space around it yields exactly the branch |
| Refs.DetachedHead | core/repo.py:78-84 | a HEAD holding a bare hex digest yields that digest unchanged |
| Refs.InitialHeadRef | core/repo.py:59-60 | after init_repo, get_head returns `refs/heads/main` |
| Refs.Tip | core/state_manager.py:37-39 | the tip read from a branch file is stripped: empty, or free of white space at both ends |
| Refs.TipRoundTrip | core/repo.py:99-100 | a digest written with a trailing newline reads back, stripped, as that digest |
| Refs.Repo.constructor | core/repo.py:35-46 | a repository's paths are the layout of its working directory |
| Refs.Repo.InitRepo | core/repo.py:49-69 | a no-op when `.landle` exists; otherwise creates it with HEAD naming main, an empty main branch file and an empty index |
| Refs.InitialRepoEmpty | core/repo.py:59-67 | after init_repo, HEAD names the main branch and that branch has no tip |
| Refs.Repo.GetHead | core/repo.py:72-84 | fails when there is no HEAD file, otherwise returns the parsed HEAD text |
| Refs.Repo.UpdateHeadLatestState | core/repo.py:93-100 | overwrites only the branch file HEAD names, with the digest and a newline; fails and changes nothing without HEAD |
| Staging.IndexBytes | core/index.py:32-35 | the index file save writes is never empty and loads as the JSON object of the entries |
| Staging.StringsOf | core/index.py:25 | the loaded index entries are exactly the object's members, each with a string value |
| Staging.StringsOfEntries | core/index.py:25 | decoding the members of saved entries gives the entries back |
| Staging.LoadEntries | core/index.py:21-29 | loaded entries have unique keys |
| Staging.SaveLoad | core/index.py:21-35 | loading the index file save wrote gives back the same entries in the same order |
| Staging.LoadFallback | core/index.py:21-29 | a missing index file and the empty one init_repo writes both load as no entries |
| Staging.AddAll | core/index.py:62-65 | after staging a list of files the index file is either untouched or holds the entries reached, and the store gains only the contents of listed files |
| Staging.AddAllKeeps | core/index.py:62-65 | staging a list of files keeps keys unique and the store content-addressed, loses no object, and leaves every unlisted path's entry as it was |
| Staging.AddAllStagesEvery | core/index.py:44-50 | when staging succeeds every listed file exists, is staged with the digest of its contents, and (collision-free hash) the store holds those contents under it |
| Staging.AddAllFails | core/index.py:41-42 | a failed staging run stopped at a listed file that does not exist, or because the repository is not initialized |
| Staging.Index.constructor | core/index.py:14-18 | a new index holds what the index file loads as |
| Staging.Index.Load | core/index.py:21-29 | replaces the entries by the index file's contents, or by none when it is missing or malformed |
| Staging.Index.Save | core/index.py:32-35 | the index file afterwards holds the serialised entries |
| Staging.Index.AddFile | core/index.py:38-51 | fails on a missing path; otherwise stores the contents, sets entries[path] to their digest changing no other key (re-adding replaces), and saves the index |
| Staging.Index.AddDir | core/index.py:56-65 | fails and changes nothing when the path is not a directory; otherwise adds each listed file in turn, stopping at the first failure, as AddAll says |
| History.TreeOf | core/state_manager.py:27-29 | the tree has one entry per staged path, in staging order, with unique keys |
| History.CommittedTree | core/state_manager.py:27-29 | the committed tree has exactly the index's keys, each mapped to `("fileContent", staged digest)` |
| History.ParentOf | core/state_manager.py:34-39 | a missing branch file gives no parent; a parent is never empty and has no white space at either end |
| History.ParentIsTip | core/state_manager.py:34-39 | the parent is the branch tip; none when the branch file is missing or only white space |
| History.Save | core/state_manager.py:21-50 | the result is Ok(None) exactly when nothing is staged, and a successful save leaves nothing staged |
| History.SaveEarly | core/state_manager.py:22-31 | with nothing staged a save changes nothing and gives Ok(None); without `.landle` it changes nothing and fails with NotInitialized |
| History.SaveKeeps | core/state_manager.py:21-50 | a save keeps the store content-addressed and all its objects; success empties the index, whose file then loads as no entries; a failure leaves index, branches and index file untouched |
| History.SaveExtendsHistory | core/state_manager.py:42-46 | after a save the current branch tip is the new state's digest, whose parent is the old tip, so the history walk shows the new state followed by the old history |
| History.SaveThenChange | core/state_manager.py:21-110 | saving and then changing to the saved state lays the staged files over the working directory |
| History.Walk | core/state_manager.py:70-83 | the walk's only failure is a stored object that does not read as a state record |
| History.WalkVisits | core/state_manager.py:70-83 | the walk prints at most `fuel` states; each is stored under its digest and reads as that state, the first is the start, and each later one is the parent of the one before |
| History.WalkFuel | core/state_manager.py:70-83 | once the history walk ends, any larger bound gives the same result |
| History.WalkStep | core/state_manager.py:70-83 | a walk from a stored state record prints that state and continues from its parent |
| History.Visits | core/state_manager.py:78-80 | the printed visits pair each digest with its state, in order |
| History.ChainWalk | core/state_manager.py:64-83 | over a chain of N states ending in a null parent, the walk from the newest visits exactly those N states, newest first |
| History.CommitExtendsChain | core/state_manager.py:42-46 | storing a state whose parent is the chain's newest digest extends the chain by one |
| History.RestoreStep | core/state_manager.py:99-110 | one entry fails exactly when it is a fileContent entry whose blob is missing; otherwise only the entry's path may change, and a fileContent entry's path then holds its blob |
| History.RestoreStepAsWritten | core/state_manager.py:108 | the step as written agrees with RestoreStep whenever it succeeds, and it also fails on a fileContent path with no directory part |
| History.TopLevelFileRestore | core/state_manager.py:108 | the entry "a.txt" with a stored blob fails as written and is written by the corrected step |
| History.Restore | core/state_manager.py:99-110 | restoring entries in order never deletes a file, and its only failure is a missing blob |
| History.RestoreFrame | core/state_manager.py:99-110 | a restore never deletes a file and writes only fileContent paths of the tree; every other file keeps its contents |
| History.RestoreSucceeds | core/state_manager.py:99-110 | a restore succeeds exactly when every fileContent blob it needs is stored |
| History.RestoreResult | core/state_manager.py:99-110 | with its blobs stored, restoring a tree writes each fileContent entry's blob to its path over the working directory |
| History.StepThenFiles | core/state_manager.py:99-110 | one restore step then the files of the rest gives the files of the whole tree |
| History.OverlayStep | core/state_manager.py:100-110 | writing one entry then the files of the others equals the files of all of them, other kinds skipped |
| History.FilesInAdd | core/state_manager.py:100-101 | an entry adds its path to the restored files exactly when it is a stored fileContent blob |
| History.ChangeOutcome | core/state_manager.py:85-110 | change_state never deletes a file; a failure other than a missing object leaves the working directory as it was; success means the state, its tree field and its tree are all stored and readable |
| History.StagedTreeFiles | core/state_manager.py:27-110 | the sorted tree of the staged entries needs only blobs already stored and restores exactly the staged files |
| History.StagedMapFiles | core/state_manager.py:27-29 | the files the committed tree denotes are the staged files |
| History.CommitThenRestore | core/state_manager.py:27-110 | commit then restore reproduces the staged files over the working directory |
| History.WalkHistory | core/state_manager.py:70-83 | the loop's printed states and outcome are the history walk's, stopping at an empty digest, a missing object, or a record that is not a state |
| History.BuildTree | core/state_manager.py:27-29 | the loop fills a new tree with each staged path mapped to `("fileContent", digest)` |
| History.StoreTree | core/state_manager.py:27-31 | the built tree is stored under the hash of its sorted serialisation |
| History.StateManager.constructor | core/state_manager.py:16-19 | the manager's repo and index share one disk, and the index holds what the index file loads as |
| History.StateManager.SaveState | core/state_manager.py:21-50 | changes the store, branch files, index file and entries exactly as Save says: nothing when the index is empty; otherwise tree, then state with the tip as parent, then branch update, then index cleared |
| History.StateManager.Commit | core/state_manager.py:34-46 | once the tree is stored, the disk and staged entries become what Save gives: HeadMissing with only the tree added when HEAD is missing, otherwise the recorded state on its branch with the index emptied |
| History.StateManager.Record | core/state_manager.py:34-50 | stores the state with the branch tip as parent, moves the branch to it, then clears and saves the index |
| History.StateManager.Advance | core/state_manager.py:46-50 | moves the branch HEAD names to the digest, then clears the index and its file |
| History.StateManager.ShowHistory | core/state_manager.py:55-83 | fails without HEAD; otherwise shows the states the walk from the branch tip visits (none when the branch file is missing or blank) |
| History.StateManager.ChangeState | core/state_manager.py:85-110 | fails when the state is not stored or its tree is missing or malformed; otherwise writes the fileContent entries in order as ChangeOutcome says |
| Text.Strip | core/repo.py:79 | the stripped text is no longer and has no white space at either end |
| Text.StripPadded | core/repo.py:79 | strip recovers any text without white space at its ends from the same text padded on both sides |
| Text.StripAllSpace | core/state_manager.py:39 | a branch file of only white space strips to the empty string |
| Text.BelowTotal | core/objects.py:49 | any two distinct keys are ordered one way or the other |
| Text.BelowTransitive | core/objects.py:49 | key order is transitive |
| Dict.Put | core/index.py:50 | `d[k] = v` keeps keys unique, replaces k's value in place or appends it, and the denoted mapping gains exactly k := v |
| Dict.PutTwice | core/index.py:50 | assigning a key twice leaves the dict, order included, as assigning the second value alone does, so re-adding a path keeps only the last digest |
| Dict.SortByKey | core/objects.py:49 | sort_keys gives a key-ordered permutation of the entries |
| Dict.CanonicalOrderIndependent | core/objects.py:49 | dicts with the same mapping sort to the same sequence whatever their insertion order |
| Dict.SortByKeyToMap | core/objects.py:49 | sorting does not change the mapping |
| Dict.FromPairs | core/index.py:25 | json.loads keeps one member per key, last value winning |
| Json.Dumps | core/objects.py:49 | a written document is never empty and loads back as the same value |
| Json.Loads | core/index.py:26-27 | an empty file is not a JSON document |

## Left out

- Printing: every `print`, the `list_saved_files` listing and show_history's
  output format are left out. ShowHistory returns the visited states instead.
- Real SHA-256 and JSON text:
  - SHA-256 is an opaque function;
  - JSON text layout (spacing, `indent=4`, escapes) is replaced by a tagged
    byte encoding. It keeps member order and the round trips for null,
    integers, strings, arrays and objects;
  - JSON booleans and floating-point numbers are left out, because the
    engine never writes them. A file holding one cannot be represented, so
    the model has no counterpart for the source reading such a value.
- Objects.StateBytes writes the record with its members already in key order.
  Objects.RecordInKeyOrder proves this is what sorting the build-order record
  gives.
- Time: `time.time()` is the parameter `now`, already truncated to whole
  seconds.
- Path handling:
  - `os.path.abspath` is not modelled: the working directory is given already
    absolute;
  - `os.makedirs` directory creation is not modelled: the working directory is
    a flat map from path to bytes;
  - the order in which `os.walk` lists files is the `listing` parameter of
    AddDir.
- Objects.StoreObject: the check-then-write on a missing objects folder is
  modelled as the `initialized` flag. Partial writes and I/O errors other than
  a missing `.landle` are not modelled.
- Staging.Index.AddDir and History.StateManager.ChangeState: `.landle` lies
  inside the working directory (Refs.LayoutOf proves it). The model keeps the
  working files (`Disk.work`) apart from the store, HEAD, the branch files
  and the index. It does not capture these effects of that aliasing:
  - `add dir .` walks into `.landle`, because os.walk does not skip
    dot-directories. It stages HEAD, the index, the branch files and every
    object file;
  - a later change_state to that state writes those files back. This
    resets the branch file to the tip it had at staging time, which is the
    new state's parent, and it restores a stale index;
  - ChangeState's frame (only `work` changes) and History.RestoreFrame hold
    only because of this separation.
- Concurrency: races between processes on the index and branch files are not
  modelled.
- Refs.Repo.UpdateHeadLatestState: a HEAD naming a path whose directory does
  not exist fails to open in the source. The model writes the branch file
  anyway.
- Digests as paths: the source joins HEAD's text and digests to a
  directory and uses the result as a file name. The model keys objects and
  branch files by the text itself, so it does not capture these aliases:
  - a HEAD or digest that is absolute or contains `..` names a file outside
    `.landle`;
  - a HEAD such as `ref: index` or `ref: HEAD` names another `.landle` file.
    Refs.Repo.UpdateHeadLatestState would then overwrite the index or HEAD
    itself;
  - a HEAD that names a directory rather than a branch file. Examples are
    text that strips to "", and `ref: .`, `ref: refs`, `ref: refs/heads` or
    `ref: objects`. The source joins it to `.landle` and opens the directory,
    which raises IsADirectoryError:
    - save_state raises after the tree is stored, with the index kept;
    - show_history raises;
    - update_head_latest_state raises.

    The model treats such a name as a branch file:
    - History.Save succeeds, writes the branch file under that name and
      clears the staged entries;
    - History.StateManager.ShowHistory shows no states when that branch has
      no tip;
    - Refs.Repo.UpdateHeadLatestState writes the branch file under that name.
- Staging.Index.AddFile: add_file on a directory path, which raises in the
  source, is not distinguished. The working directory holds files only.
- Staging.LoadEntries: a well-formed index file that is not an object of
  strings loads in the source as whatever JSON it holds. The model loads it
  as no entries.
- History.Walk: the model reads a state record more strictly than
  show_history does. Each of these cases is a CorruptObject error in the
  model:
  - a missing or non-string "tree" field. show_history never reads the tree
    and prints such a state normally;
  - a message that is not a string, or a timestamp that is not an integer.
    show_history prints a value of any type;
  - a missing message or timestamp. show_history prints the state's header
    and then raises KeyError, and the model does not capture that partial
    print;
  - a parent that is neither a string nor null. A falsy one (0, an empty
    list or object, or `false`, which the model cannot represent) ends
    show_history's walk normally. A truthy one makes the next path join
    raise.
- History.StateManager.ChangeState: the model reads a tree entry only as an
  array of two strings. Any other value makes the whole tree CorruptObject
  before anything is written. change_state treats such values as follows:
  - a value that unpacks into two items whose first is not "fileContent"
    (`[1, "x"]`, a two-character string, a two-member object) is skipped,
    and the restore goes on;
  - a value that does not unpack into two items raises at that entry, after
    the earlier entries were written;
  - "fileContent" paired with a non-string digest raises at that entry.
- History.StateManager.ShowHistory: requires the walk from the branch tip to
  end. With parent links that form a cycle the source loops forever, and
  acyclicity cannot be derived from an opaque hash.
- The command-line front end is not part of this model, including its
  argument dispatch. In that front end the shortcut `s` is claimed by both
  save and state, and save wins.

## Findings

| source | as written | input that shows it | evidently intended | confidence | as-written member | corrected member |
|---|---|---|---|---|---|---|
| core/state_manager.py:108 | `os.makedirs(os.path.dirname(file_path), exist_ok=True)` raises for a path with no directory part, because `os.makedirs('')` fails | a saved tree with the entry `"a.txt"` (a file staged from the top of the working directory) | top-level files are restored like any other | not executed | History.RestoreStepAsWritten | History.RestoreStep |
