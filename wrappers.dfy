/** Null-or-value and value-or-error shapes shared by every model. */
module Wrappers {

  /** A Java reference that may be null, or a Python value that may be None. */
  datatype Option<+T> = None | Some(value: T)

  /** A call that returns a value or throws. */
  datatype Result<+T, +E> = Ok(value: T) | Err(error: E)
}
