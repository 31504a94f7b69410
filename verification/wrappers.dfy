/** Failure-compatible result types shared by every operation of the model. */
module Wrappers {

  /** An optional value: a missing payload field, an absent query parameter. */
  datatype Option<+T> = None | Some(value: T)

  /** Either the value an operation produced or the error it reports. */
  datatype Result<+T, +E> = Success(value: T) | Failure(error: E) {
    predicate IsFailure() {
      Failure?
    }

    function PropagateFailure<U>(): Result<U, E>
      requires Failure?
    {
      Failure(error)
    }

    function Extract(): T
      requires Success?
    {
      value
    }
  }

  /** A check that either passes or reports why it failed. */
  datatype Outcome<+E> = Pass | Fail(error: E)
}
