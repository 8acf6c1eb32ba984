/** Failure-carrying values used for the source's nulls and thrown exceptions. */
module Wrappers {

  /** A Java reference that may be null, or a lookup that may find nothing. */
  datatype Option<+T> = None | Some(value: T)

  /** A call that either returns a value or throws an exception described by `error`. */
  datatype Result<+T, +E> = Ok(value: T) | Err(error: E)
}
