/**
 * Optional values and results. A `Result` stands for a Java call that either
 * returns a value or throws; the `Exception` names the kind of exception.
 */
module Wrappers {

  datatype Option<+T> = None | Some(value: T)
  {
    function UnwrapOr(default: T): T
    {
      match this
      case Some(v) => v
      case None => default
    }
  }

  /** The Java exception kinds the modelled code can throw. */
  datatype Exception =
    | IllegalArgument
    | IllegalState
    | NullPointer
    | IndexOutOfBounds
    | NumberFormat
    | UnsupportedOperation
    | MissingFormatArgument
    | NoSuchElement
    | ClassCast
    | StackOverflow
      /** An exception wrapped into "Error parsing CSV" by the group CSV import. */
    | ParsingCsv(cause: Exception)

  datatype Result<+T> = Success(value: T) | Failure(error: Exception)
  {
    predicate IsFailure()
    {
      Failure?
    }

    function PropagateFailure<U>(): Result<U>
      requires Failure?
    {
      Failure(error)
    }

    function Extract(): T
      requires Success?
    {
      value
    }
  }
}
