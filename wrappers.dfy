/** Failure-compatible wrappers used across the model: an optional value
    (a JavaScript `undefined` or a NaN) and a result that is either a value
    or the error that ends the run. */
module Wrappers {

  datatype Option<+T> = None | Some(value: T)

  datatype Result<+T, +E> = Success(value: T) | Failure(error: E)
}
