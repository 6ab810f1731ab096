/** Failure-carrying result types shared by the other modules. */
module Wrappers {

  datatype Option<+T> = None | Some(value: T)

  datatype Result<+T, +E> = Ok(value: T) | Err(error: E)

  /** The result of a step that changes state and either succeeds or fails. */
  datatype Outcome<+E> = Pass | Fail(error: E)
}
