/** Option and Result, the failure-carrying values used throughout the model. */
module Wrappers {

  datatype Option<+T> = None | Some(value: T)

  /** Success(value) for a normal return, Failure(error) for a raised exception. */
  datatype Result<+R, +E> = Success(value: R) | Failure(error: E) {

    /** The same failure, as a result of another value type. */
    function PropagateFailure<U>(): Result<U, E>
      requires Failure?
    {
      Failure(error)
    }
  }
}
