/** Small result types shared by the model. */
module Common {

  /** A value that may be absent (Python's `None`). */
  datatype Option<T> = None | Some(value: T) {
    function GetOr(default: T): T {
      match this
      case Some(v) => v
      case None => default
    }
  }

  /** What a call into a library does: it returns a value or raises with a message. */
  datatype Outcome<T> = Ok(value: T) | Fault(message: string)

  /** `s.startswith(p)`. */
  predicate HasPrefix(s: string, p: string) {
    |p| <= |s| && s[..|p|] == p
  }

  /** Raw bytes of a file or an upload. */
  type Bytes = seq<bv8>
}
