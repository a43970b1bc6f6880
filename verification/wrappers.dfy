/** The two failure-carrying shapes the model returns in place of Go's
    nil pointers and `(value, error)` pairs. */
module Wrappers {

  /** A value that may be absent: Go's nil pointer, nil map or NULL column. */
  datatype Option<+T> = None | Some(value: T)

  /** Either a value or the error that prevented it. */
  datatype Result<+T, +E> = Success(value: T) | Failure(error: E)
}
