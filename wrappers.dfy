/** Failure-compatible result type used for the script's raised errors. */
module Wrappers {

  datatype Option<+T> = None | Some(value: T)

  /** Either the computed value or the error that the script would raise. */
  datatype Result<+R, +E> = Success(value: R) | Failure(error: E) {

    predicate IsFailure() {
      Failure?
    }

    function PropagateFailure<U>(): Result<U, E>
      requires Failure?
    {
      Failure(error)
    }

    function Extract(): R
      requires Success?
    {
      value
    }
  }
}
