/** Failure-compatible wrappers shared by the whole model: `Option` for a
    value that may be null or absent, `Result` for an operation that may
    throw, and the exceptions the modelled code raises or catches. */
module Wrappers {

  datatype Option<+T> = None | Some(value: T) {
    predicate IsFailure() { None? }

    function PropagateFailure<U>(): Option<U>
      requires None?
    {
      None
    }

    function Extract(): T
      requires Some?
    {
      value
    }
  }

  /** The .NET exceptions that matter to the pipeline, by kind. */
  datatype Exception =
    | ArgumentNull
    | NullReference
    | ArgumentInvalid
    | ArgumentOutOfRange
    | InvalidOperation
    | OperationCanceled
    | Aggregate(inner: seq<Exception>)
    | SinkRejected(status: int)
    | IoFailure

  datatype Result<+T> = Ok(value: T) | Err(error: Exception) {
    predicate IsFailure() { Err? }

    function PropagateFailure<U>(): Result<U>
      requires Err?
    {
      Err(error)
    }

    function Extract(): T
      requires Ok?
    {
      value
    }
  }
}
