/** Failure-compatible wrappers used throughout the model. */
module Outcomes {

  /** A value that may be absent: Java's null reference. */
  datatype Option<+T> = None | Some(value: T)

  /** The outcome of an engine step: a value, or the failure that aborted it. */
  datatype Result<+R, +E> = Success(value: R) | Failure(error: E) {

    predicate IsFailure() {
      Failure?
    }

    function PropagateFailure<U>(): Result<U, E>
      requires Failure?
    {
      Failure(error)
    }

    function Extract(): R
      requires Success?
    {
      value
    }
  }
}
