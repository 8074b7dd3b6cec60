/** Option and Result values standing in for JavaScript's `null` and for
    an Observable that either delivers a value or errors. */
module Wrappers {

  datatype Option<+T> = None | Some(value: T)

  datatype Result<+T, +E> = Success(value: T) | Failure(error: E)
}
