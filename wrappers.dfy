/** Option, Result and Outcome: the value-level stand-ins for Python's `None`
    returns and raised exceptions. */
module Wrappers {

  datatype Option<+T> = None | Some(value: T)

  datatype Result<+T, +E> = Success(value: T) | Failure(error: E)

  /** The outcome of a call that returns nothing (Python `-> None`) or raises. */
  datatype Outcome<+E> = Pass | Fail(error: E)
}
