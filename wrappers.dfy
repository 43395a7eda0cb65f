/** Failure-carrying return types shared by every stage of the dashboard. */
module Wrappers {

  datatype Option<+T> = None | Some(value: T)

  /** The outcome of a stage that may raise: a value, or the error pandas would raise. */
  datatype Result<+T, +E> = Ok(value: T) | Err(error: E)
}
