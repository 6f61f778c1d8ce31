/** Option and Result values for the lookups and the aborting error paths of the scripts. */
module Outcomes {

  datatype Option<+T> = None | Some(value: T)

  /** A computation that either delivers a value or aborts with an error. */
  datatype Result<+T, +E> = Ok(value: T) | Err(error: E) {

    predicate IsFailure() {
      Err?
    }

    function PropagateFailure<U>(): Result<U, E>
      requires Err?
    {
      Err(error)
    }

    function Extract(): T
      requires Ok?
    {
      value
    }
  }
}
