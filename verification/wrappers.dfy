/** Optional values and results, standing in for Go's nil pointers and `error` returns. */
module Wrappers {

  /** A value that may be absent: `None` plays the part of a nil pointer or nil slice. */
  datatype Option<+T> = None | Some(value: T)

  /** Either a value or the error that prevented computing it. */
  datatype Result<+T, +E> = Success(value: T) | Failure(error: E)
}
