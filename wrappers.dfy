/** Failure-carrying result types shared by the model. */
module Wrappers {

  /** A value that may be absent (SQL NULL, a missing header, Python's None). */
  datatype Option<+T> = None | Some(value: T)

  /** An operation that either yields a value or fails with an error. */
  datatype Result<+T, +E> = Ok(value: T) | Err(error: E)

  /** An operation that yields nothing but may fail with an error. */
  datatype Outcome<+E> = Pass | Fail(error: E)
}
