/** Failure-compatible wrappers shared by every fallible operation of the model:
    Python exceptions become `Err` values, optional values become `Option`. */
module Results {

  /** A value that may be absent. */
  datatype Option<+T> = None | Some(value: T)

  /** Either a computed value or the error the Python code would raise. */
  datatype Result<+T, +E> = Ok(value: T) | Err(error: E) {

    /** True if this is an error (lets `:-` propagate it). */
    predicate IsFailure() {
      Err?
    }

    /** Re-types an error for propagation. */
    function PropagateFailure<U>(): Result<U, E>
      requires Err?
    {
      Err(error)
    }

    /** The carried value of an `Ok`. */
    function Extract(): T
      requires Ok?
    {
      value
    }
  }
}
