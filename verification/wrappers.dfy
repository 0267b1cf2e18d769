/** Optional values and success-or-failure results. */
module Wrappers {

  /** A value that may be missing, where the application falls back to a default. */
  datatype Option<+T> = None | Some(value: T)

  /** The outcome of an operation that either succeeds with a value or is turned
      away with a reason, leaving its input as it was. */
  datatype Result<+T, +E> = Success(value: T) | Failure(error: E)
}
