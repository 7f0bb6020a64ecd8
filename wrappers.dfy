/** Optional values and results with an error, standing for Java's null and exceptions. */
module Wrappers {

  /** A value that may be absent (Java `null`). */
  datatype Option<+T> = None | Some(value: T)

  /** The outcome of an operation that may raise an exception. */
  datatype Result<+T, +E> = Ok(value: T) | Err(error: E)

  /** The outcome of a `void` operation that may raise an exception. */
  datatype Outcome<+E> = Pass | Fail(error: E)
}
