/** Optional values and results with an error, shared by the other modules. */
module Wrappers {

  /** A value that may be missing: an absent or `null` request field. */
  datatype Option<+T> = None | Some(value: T)

  /** The outcome of a check that either yields a value or fails with an error. */
  datatype Result<+R, +E> = Success(value: R) | Failure(error: E)
}
