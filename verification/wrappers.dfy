/** Optional values and (value, error) pairs, as Go expresses them with nil and a second result. */
module Wrappers {

  /** A value that may be absent: Go's nil pointer, nil map or nil interface. */
  datatype Option<+T> = None | Some(value: T)

  /** A value or the text of the error that replaced it: Go's `(T, error)` result. */
  datatype Result<+T, +E> = Success(value: T) | Failure(error: E)
}
