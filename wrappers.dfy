/** Optional values and results, as used for the error returns of the updater. */
module Wrappers {

  datatype Option<+T> = None | Some(value: T)

  /** A value or the error that took its place. */
  datatype Result<+T, +E> = Success(value: T) | Failure(error: E)
}
