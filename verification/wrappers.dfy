/** Failure-compatible wrappers used throughout the model. */
module Wrappers {

  /** `None` stands for a missing value (pandas NaN / NaT). */
  datatype Option<+T> = None | Some(value: T)

  /** The outcome of an operation that pandas may abort with an exception. */
  datatype Result<+R, +E> = Success(value: R) | Failure(error: E) {

    predicate IsFailure() {
      Failure?
    }

    function PropagateFailure<U>(): Result<U, E>
      requires Failure?
    {
      Failure(error)
    }

    function Extract(): R
      requires Success?
    {
      value
    }
  }
}
