/** Option and Result values: the model's stand-in for Python's None and for
    exceptions raised by the configuration handlers. */
module Results {

  datatype Option<+T> = None | Some(value: T)

  /** Either a computed value or the error the handler would have raised. */
  datatype Result<+R, +E> = Success(value: R) | Failure(error: E) {

    predicate IsFailure() {
      Failure?
    }

    function PropagateFailure<U>(): Result<U, E>
      requires Failure?
    {
      Failure(error)
    }

    function Extract(): R
      requires Success?
    {
      value
    }
  }
}
