/** Failure-compatible datatypes shared by the whole model, and the Java exceptions it distinguishes. */
module Wrappers {

  datatype Option<+T> = None | Some(value: T)

  /** The exceptions the modelled code can raise. */
  datatype Error =
    | NullPointer
    | IllegalArgument
    | NumberFormat
    | ClassCast
    | NotSupported
    | NoSuchElement
    | DuplicateKey
    | DataAccess

  datatype Result<+T> = Ok(value: T) | Err(error: Error) {
    predicate IsFailure() {
      Err?
    }

    function PropagateFailure<U>(): Result<U>
      requires Err?
    {
      Err(error)
    }

    function Extract(): T
      requires Ok?
    {
      value
    }
  }
}
