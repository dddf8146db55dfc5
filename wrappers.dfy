/** Wrappers used across the model: Python's `Optional`
    and an explicit success/failure result standing for a raised exception. */
module Wrappers {

  datatype Option<+T> = None | Some(value: T)

  datatype Result<+T, +E> = Success(value: T) | Failure(error: E)
}
