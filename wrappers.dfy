/** Small failure-carrying datatypes used across the model. */
module Wrappers {

  datatype Option<+T> = None | Some(value: T)

  /** The outcome of an operation that changes state and either succeeds or reports an error. */
  datatype Outcome<+E> = Pass | Fail(error: E)
}
