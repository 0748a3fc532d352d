/** The two failure-carrying shapes the model needs: an optional value (the
    client's `T | null`) and a value-or-error (a promise that resolves or throws). */
module Wrappers {

  datatype Option<+T> = None | Some(value: T)

  datatype Result<+T, +E> = Success(value: T) | Failure(error: E)
}
