/** Option and Result values, used where the Go code returns a nil
    pointer or an `error` beside its value. */
module Wrappers {

  datatype Option<+T> = None | Some(value: T)

  datatype Result<+T, +E> = Success(value: T) | Failure(error: E)
}
