/** Optional values and results with an error, as the parser uses them. */
module Wrappers {

  /** A value that may be absent (Ruby's `nil`). */
  datatype Option<+T> = None | Some(value: T)

  /** The outcome of an operation that can fail with an error. */
  datatype Result<+R, +E> = Success(value: R) | Failure(error: E)
}
