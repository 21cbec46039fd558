/** Failure-carrying datatypes used throughout the model: `Option` stands for
    the source's `null`/`undefined`, `Result` for an operation that either
    produces a value or reports an error status to the user. */
module Wrappers {

  datatype Option<+T> = None | Some(value: T)

  datatype Result<+T, +E> = Success(value: T) | Failure(error: E)
}
