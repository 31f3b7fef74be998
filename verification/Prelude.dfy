/** Option and Result, shared by every module. */
module Prelude {

  datatype Option<+T> = None | Some(value: T)

  /** `Err` stands for a thrown exception or an `Err` return of the source. */
  datatype Result<+T> = Ok(value: T) | Err(error: string) {

    predicate IsFailure() {
      Err?
    }

    function PropagateFailure<U>(): Result<U>
      requires Err?
    {
      Err(error)
    }

    function Extract(): T
      requires Ok?
    {
      value
    }
  }
}
