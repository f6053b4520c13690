/** Option and Result, used where the processor's Python code either
    produces a value or raises an exception that a `try` swallows. */
module Wrappers {

  datatype Option<+T> = None | Some(value: T)

  datatype Result<+T, +E> = Success(value: T) | Failure(error: E)
}
