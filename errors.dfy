/** The error kinds of the modelled functions, and a result type carrying them. */
module Errors {
  datatype Error =
    | StringConversion   // invalid or unpaired UTF-16
    | NullPointer        // a raw pointer decoder was handed null
    | Custom(msg: string)

  datatype Result<+T> = Ok(value: T) | Err(error: Error) {
    predicate IsFailure() { Err? }

    function PropagateFailure<U>(): Result<U>
      requires Err?
    {
      Err(error)
    }

    function Extract(): T
      requires Ok?
    {
      value
    }
  }

  datatype Option<+T> = None | Some(value: T)
}
