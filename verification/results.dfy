/** Absent values and failures, in place of Reactor's empty `Mono` and of thrown exceptions. */
module Results {

  /** An empty or a one-element `Mono`. */
  datatype Option<+T> = None | Some(value: T)

  /** A value, or the failure that stopped the computation; usable with `:-`. */
  datatype Result<+T, +E> = Ok(value: T) | Err(error: E) {

    predicate IsFailure() {
      Err?
    }

    function PropagateFailure<U>(): Result<U, E>
      requires Err?
    {
      Err(error)
    }

    function Extract(): T
      requires Ok?
    {
      value
    }
  }
}
