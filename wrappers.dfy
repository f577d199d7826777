/** Failure-compatible wrappers shared by the whole model. */
module Wrappers {

  /** A value that may be missing: an absent request field, an unmatched lookup. */
  datatype Option<+T> = None | Some(value: T) {

    /** The wrapped value if present, else `default`. */
    function GetOr(default: T): T {
      match this
      case Some(v) => v
      case None => default
    }
  }

  /** The outcome of an operation that either yields a value or fails with an error. */
  datatype Result<+T, +E> = Ok(value: T) | Err(error: E)

  /** The outcome of a check that either passes or fails with an error. */
  datatype Outcome<+E> = Pass | Fail(error: E)
}
