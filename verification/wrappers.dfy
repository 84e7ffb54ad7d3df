/** Option, Result and Outcome values used in place of Python's None and raised exceptions. */
module Wrappers {

  datatype Option<+T> = None | Some(value: T)

  datatype Result<+T, +E> = Ok(value: T) | Err(error: E)

  /** The result of an operation that returns nothing or fails. */
  datatype Outcome<+E> = Pass | Fail(error: E)
}
