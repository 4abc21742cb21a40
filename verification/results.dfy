/** Failure-carrying result types shared by every module of the model.
    A thrown JavaScript error becomes an `Err`/`Fail` value; because any
    diagnostic aborts the whole run, an error never carries partial state. */
module Results {

  datatype Option<+T> = None | Some(value: T)

  datatype Result<+T, +E> = Ok(value: T) | Err(error: E) {
    predicate IsFailure() {
      Err?
    }

    function PropagateFailure<U>(): Result<U, E>
      requires Err?
    {
      Err(error)
    }

    function Extract(): T
      requires Ok?
    {
      value
    }
  }

  /** A check that either passes or fails with an error, with no value. */
  datatype Outcome<+E> = Pass | Fail(error: E)
}
