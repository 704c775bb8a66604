/** The two shapes of a Go `(value, error)` return: an optional value, and a
    value-or-error. */
module Wrappers {

  datatype Option<+T> = None | Some(value: T)

  datatype Result<+T, +E> = Success(value: T) | Failure(error: E)
}
