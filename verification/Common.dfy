/** Result types shared by the modules. */
module Common {

  datatype Option<+T> = None | Some(value: T)

  /** The source's `Result<T, AppError>`; the error is an enumeration of the reasons a module can give. */
  datatype Result<+T, +E> = Ok(value: T) | Err(error: E) {

    predicate IsFailure() {
      Err?
    }

    function PropagateFailure<U>(): Result<U, E>
      requires Err?
    {
      Err(error)
    }

    function Extract(): T
      requires Ok?
    {
      value
    }
  }

  /** What an operation that returns nothing returns. */
  datatype Done = Done
}
