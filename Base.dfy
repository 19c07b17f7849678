// Shared vocabulary of the landle model: optional values, results, the errors the
// engine raises, bytes, digests and the assumptions made about the hash function.
module Base {

  datatype Option<+T> = None | Some(value: T)

  datatype Result<+T> = Ok(value: T) | Err(error: Error) {
    predicate IsFailure() { Err? }
    function PropagateFailure<U>(): Result<U> requires Err? { Err(error) }
    function Extract(): T requires Ok? { value }
  }

  /** The conditions under which the engine raises instead of completing. */
  datatype Error =
    | HeadMissing                  // the HEAD file does not exist
    | NotInitialized               // the .landle layout is missing, so a write under it fails
    | PathNotFound(path: Path)     // add_file on a path that does not exist
    | NotADirectory                // add_dir on something that is not a directory
    | StateNotFound(digest: Digest) // change_state on a digest with no stored object
    | ObjectMissing(digest: Digest) // a referenced tree or blob is not in the store
    | CorruptObject(digest: Digest) // stored bytes do not decode as the expected record
    | NoParentDirectory(path: Path) // os.makedirs('') raised while restoring `path`

  newtype byte = b: int | 0 <= b < 256

  type Bytes = seq<byte>

  /** A digest as the engine handles it: the hexadecimal text of a SHA-256 hash. */
  type Digest = string

  /** A working-directory path as the user or the directory walk spelled it. */
  type Path = string

  predicate IsHexDigit(c: char) {
    '0' <= c <= '9' || 'a' <= c <= 'f'
  }

  /** What `hexdigest()` produces: non-empty lower-case hexadecimal text. */
  predicate IsHexText(s: string) {
    |s| > 0 && forall i :: 0 <= i < |s| ==> IsHexDigit(s[i])
  }

  /** Every digest the hash function yields is hexadecimal text. */
  ghost predicate HexOutput(hash: Bytes -> Digest) {
    forall b :: IsHexText(hash(b))
  }

  /** Collision freedom of the hash, the assumption behind deduplication. It is
      consistent because digests are not bounded in length here. */
  ghost predicate Injective(hash: Bytes -> Digest) {
    forall a, b :: hash(a) == hash(b) ==> a == b
  }

  /** The hash assumptions the history and round-trip arguments rest on. */
  ghost predicate SoundHash(hash: Bytes -> Digest) {
    HexOutput(hash) && Injective(hash)
  }
}
