/** Shared vocabulary: raw bytes, optional values, results and the error taxonomy of the
    repository-synchronisation code. */
module Common {

  /** One octet of a document as read from the network or from disk. */
  newtype byte = x: int | 0 <= x < 256

  type Bytes = seq<byte>

  /** Go's `nil`-able value: either absent or present. */
  datatype Option<+T> = None | Some(value: T)

  /** Go's `(value, error)` pair, with exactly one half meaningful. */
  datatype Result<+T, +E> = Success(value: T) | Failure(error: E)

  /** The kinds of error the synchronisation code produces or passes through. */
  datatype Error =
    | NoSuchBackend(name: string)   // registry lookup of a name nobody registered
    | Fetch(msg: string)            // the HTTP GET of the remote metadata failed
    | Io(msg: string)               // a local file or directory operation failed
    | Parse(msg: string)            // a non-empty metadata document did not decode
    | NoValidBackend                // every candidate backend was skipped or failed
}
