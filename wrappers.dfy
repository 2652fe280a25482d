/** Failure-compatible result types used by the exchange delegate model. */
module Wrappers {

  datatype Option<+T> = None | Some(value: T)

  /** A value or the error the JavaScript code throws instead of returning. */
  datatype Result<+R, +E> = Ok(value: R) | Err(error: E)

  /** The outcome of an operation that returns nothing but may throw. */
  datatype Outcome<+E> = Pass | Fail(error: E)
}
