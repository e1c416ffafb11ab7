/** Failure-compatible wrappers shared by every component of the model. */
module Base {

  /** A value that may be missing (Go's nil pointer, Python's None). */
  datatype Option<T> = None | Some(value: T)

  /** A value or the error that the source returns or raises instead. */
  datatype Result<T, E> = Ok(value: T) | Err(error: E)

  /** The two implementations of the same core that the repository ships. */
  datatype Twin = GoTwin | PyTwin

  /** The elements of an optional value as a sequence of length 0 or 1. */
  function OptSeq<T>(o: Option<T>): seq<T>
  {
    match o
    case None => []
    case Some(x) => [x]
  }
}
