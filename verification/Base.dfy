/** Result types shared by the other modules, and the outcomes of a commit. */
module Base {

  datatype Option<+T> = None | Some(value: T)

  datatype Result<+T, +E> = Ok(value: T) | Err(error: E) {
    predicate IsFailure() {
      Err?
    }

    function PropagateFailure<U>(): Result<U, E>
      requires Err?
    {
      Err(error)
    }

    function Extract(): T
      requires Ok?
    {
      value
    }
  }

  /** What became of a commit: it may fail with or without having taken effect. */
  datatype Commit = Done | Lost | DoneButFailed
}
