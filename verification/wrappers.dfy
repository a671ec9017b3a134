/** Failure-compatible wrappers used for the source's optional values and exceptions. */
module Wrappers {

  /** Java's `Optional` (and a nullable reference): present or absent. */
  datatype Option<+T> = None | Some(value: T)

  /** A computation that either yields a value or fails with the error the source would throw. */
  datatype Result<+T, +E> = Ok(value: T) | Err(error: E)
}
