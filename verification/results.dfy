/** Failure-compatible wrappers used by every handler: an optional value, a
    value-or-error result, and a pass/fail outcome for validation steps. */
module Results {

  datatype Option<+T> = None | Some(value: T)

  /** The outcome of an instruction or of one of its steps. */
  datatype Result<+T, +E> = Ok(value: T) | Err(error: E) {

    predicate IsFailure() {
      Err?
    }

    function PropagateFailure<U>(): Result<U, E>
      requires Err?
    {
      Err(error)
    }

    function Extract(): T
      requires Ok?
    {
      value
    }
  }

  /** A validation step that either passes or rejects with an error. */
  datatype Outcome<+E> = Pass | Fail(error: E) {

    predicate IsFailure() {
      Fail?
    }

    function PropagateFailure<U>(): Result<U, E>
      requires Fail?
    {
      Err(error)
    }
  }

  /** `:- Need(c, e);` rejects with `e` unless `c` holds. */
  function Need<E>(condition: bool, error: E): Outcome<E> {
    if condition then Pass else Fail(error)
  }
}
