/** Failure-carrying result types shared by the decoders and the coordinators. */
module Wrappers {

  /** A value that may be absent: a missing dictionary entry, a parse that failed. */
  datatype Option<+T> = None | Some(value: T)

  /** A computation that either produces a value or fails with an error. */
  datatype Result<+T, +E> = Ok(value: T) | Err(error: E)
}
