/** Failure-carrying results shared by every module of the model.
    `Result` stands for a Python function that either returns a value or raises. */
module Wrappers {

  datatype Option<+T> = None | Some(value: T)

  datatype Result<+T, +E> = Success(value: T) | Failure(error: E)
}
