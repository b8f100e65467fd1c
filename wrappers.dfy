/** Optional values and results with an error, used for absent JSON fields and failed builds. */
module Wrappers {

  /** A value that may be absent (JavaScript `undefined` or `null`). */
  datatype Option<+T> = None | Some(value: T)

  /** Either a value or the error that aborts the computation. */
  datatype Result<+R, +E> = Success(value: R) | Failure(error: E)
}
