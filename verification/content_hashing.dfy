/** The primitive hasher the settings fingerprinter depends on. Its digest
    algorithm is not modelled: each operation is a function supplied by the
    caller, deterministic and possibly failing. */
module ContentHashing {
  import opened Wrappers

  newtype byte = x: int | 0 <= x < 256

  /** An absolute file-system path. */
  datatype AbsolutePath = AbsolutePath(pathString: string)

  /** A digest is the non-empty text of a hash (hex output in practice). */
  type Digest = s: string | |s| > 0 witness "0"

  /** Why a hashing call threw. */
  datatype HashError =
    | HashingFailed(reason: string)
    | FileNotFound(path: AbsolutePath)

  type HashResult<T> = Result<T, HashError>

  /** The `ContentHashing` capability: hashing a string, an ordered list of
      strings, and raw bytes; `files` is the read-only file system whose
      contents `hash(path:)` reads. */
  datatype ContentHasher = ContentHasher(
    hashString: string -> HashResult<Digest>,
    hashStrings: seq<string> -> HashResult<Digest>,
    hashData: seq<byte> -> HashResult<Digest>,
    files: map<AbsolutePath, seq<byte>>)

  /** `hash(path:)`: the digest of the file's bytes; a missing file throws. */
  function HashPath(h: ContentHasher, path: AbsolutePath): (r: HashResult<Digest>)
    ensures path !in h.files ==> r == Failure(FileNotFound(path))
  {
    if path in h.files then h.hashData(h.files[path]) else Failure(FileNotFound(path))
  }

  /** The hypothesis under which digests tell inputs apart: two lists of
      strings that hash successfully to the same digest are the same list. */
  ghost predicate CollisionFree(h: ContentHasher) {
    forall a, b ::
      (h.hashStrings(a).Success? && h.hashStrings(b).Success? &&
       h.hashStrings(a).value == h.hashStrings(b).value) ==> a == b
  }
}
