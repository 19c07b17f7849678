// The part of the file system the engine touches, as explicit state: the
// .landle folder (object store, HEAD, branch files, index file) and the
// working directory the user stages from and restores into.
module FileSystem {
  import opened Base

  /** Every stored object sits under the digest of its own bytes. */
  ghost predicate ContentAddressed(objects: map<Digest, Bytes>, hash: Bytes -> Digest) {
    forall d :: d in objects ==> hash(objects[d]) == d
  }

  class Disk {
    /** hashlib.sha256(...).hexdigest(), which the engine does not look inside. */
    const hash: Bytes -> Digest
    /** .landle/ with objects/ and refs/heads/ exists. */
    var initialized: bool
    /** .landle/objects/<digest> files. */
    var objects: map<Digest, Bytes>
    /** The text of .landle/HEAD, if the file exists. */
    var head: Option<string>
    /** Branch files by their path relative to .landle, such as "refs/heads/main". */
    var refs: map<string, string>
    /** The bytes of .landle/index, if the file exists. */
    var index: Option<Bytes>
    /** Working-directory files by path. */
    var work: map<Path, Bytes>

    ghost predicate Valid()
      reads this
    {
      && ContentAddressed(objects, hash)
      && (!initialized ==> objects == map[] && head == None && refs == map[] && index == None)
    }

    /** A project directory with no .landle folder yet. */
    constructor (hash: Bytes -> Digest, work: map<Path, Bytes>)
      ensures Valid() && this.hash == hash && this.work == work
      ensures !initialized
    {
      this.hash := hash;
      initialized := false;
      objects := map[];
      head := None;
      refs := map[];
      index := None;
      this.work := work;
    }
  }
}
