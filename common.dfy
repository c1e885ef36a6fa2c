/** Failure-compatible wrappers shared by the other modules. */
module Common {

  datatype Option<+T> = None | Some(value: T)

  /** The value or error of an operation that may raise. */
  datatype Result<+T, +E> = Ok(value: T) | Err(error: E)

  /** Outcome of an operation that returns nothing or raises. */
  datatype Outcome<+E> = Done | Fail(error: E)
}
