/** Optional values, standing for Kotlin's nullable types (`Int?`, `String?`, `TestResult?`). */
module Wrappers {

  datatype Option<+T> = None | Some(value: T)

  /** The outcome of a call that can raise an exception instead of returning. */
  datatype Result<+R, +E> = Success(value: R) | Failure(error: E)
}
