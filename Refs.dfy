// The repository layout under <working dir>/.landle, the HEAD pointer and the
// branch files it names.
module Refs {
  import opened Base
  import opened Text
  import opened FileSystem

  // ---- paths ----

  /** os.path.join(a, b): b alone when it is absolute, otherwise b appended to a
      with one separator. */
  function Join(a: Path, b: string): (r: Path)
    ensures StartsWith(b, "/") ==> r == b
    ensures !StartsWith(b, "/") ==> |a| + |b| <= |r| <= |a| + |b| + 1
  {
    if StartsWith(b, "/") then b
    else if a == [] || a[|a| - 1] == '/' then a + b
    else a + "/" + b
  }

  /** `p` names something strictly inside directory `dir`. */
  predicate Under(p: Path, dir: Path) {
    var d := Join(dir, "");
    |d| < |p| && StartsWith(p, d)
  }

  lemma JoinUnder(dir: Path, name: string)
    requires name != [] && name[0] != '/'
    ensures Under(Join(dir, name), dir)
  {
    assert !StartsWith(name, "/");
    var d := Join(dir, "");
    assert !StartsWith("", "/");
    assert Join(dir, name) == d + name;
  }

  lemma UnderJoin(dir: Path, sub: Path, name: string)
    requires Under(sub, dir) && name != [] && name[0] != '/'
    ensures Under(Join(sub, name), dir)
  {
    assert !StartsWith(name, "/");
    var d := Join(dir, "");
    assert !StartsWith("", "/");
    var p := Join(sub, name);
    assert StartsWith(p, sub);
    assert p[..|d|] == sub[..|d|];
  }

  datatype Layout = Layout(
    workingDir: Path,
    landleFolder: Path,
    objectsDir: Path,
    refsDir: Path,
    indexFile: Path,
    headFile: Path)

  /** The paths a repository rooted at `workingDir` (already made absolute) uses. */
  function LayoutOf(workingDir: Path): (l: Layout)
    ensures l.workingDir == workingDir && Under(l.landleFolder, workingDir)
    ensures Under(l.objectsDir, l.landleFolder) && Under(l.refsDir, l.landleFolder)
    ensures Under(l.indexFile, l.landleFolder) && Under(l.headFile, l.landleFolder)
  {
    var landle := Join(workingDir, ".landle");
    JoinUnder(workingDir, ".landle");
    JoinUnder(landle, "objects");
    JoinUnder(landle, "refs");
    UnderJoin(landle, Join(landle, "refs"), "heads");
    JoinUnder(landle, "index");
    JoinUnder(landle, "HEAD");
    Layout(workingDir, landle, Join(landle, "objects"), Join(Join(landle, "refs"), "heads"),
           Join(landle, "index"), Join(landle, "HEAD"))
  }

  /** Branch files are named by their path relative to .landle: the main branch
      file the layout creates is the one "refs/heads/main" resolves to. */
  lemma MainBranchPath(workingDir: Path)
    ensures var l := LayoutOf(workingDir);
      Join(l.refsDir, "main") == Join(l.landleFolder, MainBranch)
  {
    var landle := Join(workingDir, ".landle");
    JoinEnds(workingDir, ".landle");
    assert landle[|landle| - 1] == 'e';
    RefsHeadsMain(landle);
  }

  lemma RefsHeadsMain(landle: Path)
    requires landle != [] && landle[|landle| - 1] != '/'
    ensures Join(Join(Join(landle, "refs"), "heads"), "main") == Join(landle, MainBranch)
  {
    JoinPlain(landle, "refs");
    JoinPlain(landle + "/" + "refs", "heads");
    JoinPlain(landle + "/" + "refs" + "/" + "heads", "main");
    JoinPlain(landle, MainBranch);
    assert MainBranch == "refs" + "/" + "heads" + "/" + "main";
  }

  lemma JoinPlain(a: Path, b: string)
    requires b != [] && b[0] != '/'
    requires a != [] ==> a[|a| - 1] != '/'
    ensures Join(a, b) == if a == [] then b else a + "/" + b
  {
    assert !StartsWith(b, "/");
  }

  lemma JoinEnds(a: Path, b: string)
    requires b != []
    ensures |Join(a, b)| >= |b| && Join(a, b)[|Join(a, b)| - |b|..] == b
  {}

  // ---- HEAD ----

  const MainBranch: string := "refs/heads/main"
  const InitialHead: string := "ref: refs/heads/main\n"

  /** get_head on the HEAD text: stripped, then one leading "ref: " removed. */
  function ParseHead(text: string): (r: string)
    ensures r == Strip(text) || "ref: " + r == Strip(text)
  {
    var line := Strip(text);
    if StartsWith(line, "ref: ") then
      assert line == line[..5] + line[5..];
      line[5..]
    else line
  }

  /** get_head: fails when there is no HEAD file. */
  function HeadRef(head: Option<string>): (r: Result<string>)
    ensures r.Err? <==> head.None?
    ensures r.Err? ==> r.error == HeadMissing
    ensures r.Ok? ==> r.value == Strip(head.value) || "ref: " + r.value == Strip(head.value)
  {
    match head
    case None => Err(HeadMissing)
    case Some(text) => Ok(ParseHead(text))
  }

  /** A symbolic HEAD line, however padded, yields the branch it names. */
  lemma SymbolicHead(pre: string, branch: string, post: string)
    requires AllSpace(pre) && AllSpace(post)
    requires branch != [] && !IsSpace(branch[|branch| - 1])
    ensures ParseHead(pre + "ref: " + branch + post) == branch
  {
    var t := "ref: " + branch;
    assert pre + "ref: " + branch + post == pre + t + post;
    StripPadded(pre, t, post);
    assert t[..5] == "ref: " && t[5..] == branch;
  }

  /** A HEAD holding a bare digest yields that digest. */
  lemma DetachedHead(pre: string, digest: Digest, post: string)
    requires AllSpace(pre) && AllSpace(post) && IsHexText(digest)
    ensures ParseHead(pre + digest + post) == digest
  {
    assert !IsSpace(digest[0]) && !IsSpace(digest[|digest| - 1]);
    StripPadded(pre, digest, post);
    assert !IsHexDigit('r');
  }

  /** The HEAD written by init_repo names the main branch. */
  lemma InitialHeadRef()
    ensures HeadRef(Some(InitialHead)) == Ok(MainBranch)
  {
    assert InitialHead == [] + "ref: " + MainBranch + "\n";
    SymbolicHead([], MainBranch, "\n");
  }

  // ---- branch tips ----

  /** The stripped text of branch file `ref`, or "" when there is no such file. */
  function Tip(refs: map<string, string>, ref: string): (t: string)
    ensures t == [] || (!IsSpace(t[0]) && !IsSpace(t[|t| - 1]))
  {
    if ref in refs then Strip(refs[ref]) else ""
  }

  /** A digest written with a trailing newline reads back as that digest. */
  lemma TipRoundTrip(refs: map<string, string>, ref: string, digest: Digest)
    requires IsHexText(digest)
    ensures Tip(refs[ref := digest + "\n"], ref) == digest
  {
    assert !IsSpace(digest[0]) && !IsSpace(digest[|digest| - 1]);
    assert [] + digest + "\n" == digest + "\n";
    StripPadded([], digest, "\n");
  }

  class Repo {
    const layout: Layout
    const disk: Disk

    constructor (disk: Disk, workingDir: Path)
      ensures this.disk == disk && layout == LayoutOf(workingDir)
    {
      this.disk := disk;
      layout := LayoutOf(workingDir);
    }

    /** Creates .landle with its folders, a HEAD naming the main branch, an empty
        main branch file and an empty index file; does nothing when .landle exists. */
    method InitRepo()
      requires disk.Valid()
      modifies disk`initialized, disk`head, disk`refs, disk`index
      ensures disk.Valid()
      ensures old(disk.initialized) ==> unchanged(disk)
      ensures !old(disk.initialized) ==>
        && disk.initialized
        && disk.head == Some(InitialHead)
        && disk.refs == map[MainBranch := ""]
        && disk.index == Some([])
    {
      if disk.initialized {
        return;
      }
      disk.initialized := true;
      disk.head := Some(InitialHead);
      disk.refs := disk.refs[MainBranch := ""];
      disk.index := Some([]);
    }

    method GetHead() returns (r: Result<string>)
      ensures r == HeadRef(disk.head)
    {
      r := HeadRef(disk.head);
    }

    /** Overwrites the branch file HEAD names with the digest and a newline. */
    method UpdateHeadLatestState(digest: Digest) returns (r: Result<()>)
      requires disk.Valid()
      modifies disk`refs
      ensures disk.Valid()
      ensures r == if disk.head.None? then Err(HeadMissing) else Ok(())
      ensures disk.refs == if r.Ok? then old(disk.refs)[HeadRef(disk.head).value := digest + "\n"] else old(disk.refs)
    {
      var ref := GetHead();
      if ref.Err? {
        return Err(ref.error);
      }
      assert disk.head.Some? && ref.value == HeadRef(disk.head).value;
      assert disk.initialized;
      disk.refs := disk.refs[ref.value := digest + "\n"];
      r := Ok(());
    }
  }

  /** After init_repo, HEAD names the main branch and that branch has no tip. */
  lemma InitialRepoEmpty()
    ensures HeadRef(Some(InitialHead)) == Ok(MainBranch)
    ensures Tip(map[MainBranch := ""], MainBranch) == ""
  {
    InitialHeadRef();
  }
}
