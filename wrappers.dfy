/** Option, Result and Outcome: the error paths that the C++ code signals with
    exceptions and boolean returns are values here. */
module Wrappers {

  datatype Option<+T> = None | Some(value: T)

  datatype Result<+T, +E> = Success(value: T) | Failure(error: E)

  /** A pass/fail answer that carries only the error. */
  datatype Outcome<+E> = Pass | Fail(error: E)
}
