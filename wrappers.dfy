/** Option and Result, the shapes of Go's nil-able results and (value, error) pairs. */
module Wrappers {

  datatype Option<+T> = None | Some(value: T)

  datatype Result<+T, +E> = Success(value: T) | Failure(error: E)
}
