/** Option and Result, the shapes in which the model returns Go's
    "value or nil" and "(value, error)" pairs. */
module Wrappers {

  datatype Option<+T> = None | Some(value: T)

  datatype Result<+R, +E> = Success(value: R) | Failure(error: E)
}
