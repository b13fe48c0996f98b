/** Failure-carrying results shared by every module: `Option` for a lookup that may
    find nothing (a null pointer in the source) and `Result` for an operation that may
    throw (the exception's message is kept as the error). */
module Wrappers {

  datatype Option<+T> = None | Some(value: T)

  datatype Result<+T> = Ok(value: T) | Err(error: string) {
    predicate IsFailure() { Err? }

    function PropagateFailure<U>(): Result<U>
      requires Err?
    {
      Err(error)
    }

    function Extract(): T
      requires Ok?
    {
      value
    }
  }
}
