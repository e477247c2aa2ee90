/** Failure-compatible wrappers shared by the model. */
module Wrappers {

  /** An optional value: a TypeScript `T | undefined`. */
  datatype Option<+T> = None | Some(value: T)

  /** The outcome of an operation whose promise may reject with an error. */
  datatype Result<+T, +E> = Success(value: T) | Failure(error: E)
}
