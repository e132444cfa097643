/**
 * Failure-compatible wrappers shared by every module of the model.
 *
 * `Option` stands for a C# reference that may be null; `Result` stands for a
 * call that either returns a value or throws one of the exceptions listed in
 * `Error`.
 */
module Wrappers {

  datatype Option<+T> = None | Some(value: T) {

    predicate IsFailure() {
      None?
    }

    function PropagateFailure<U>(): Option<U>
      requires None?
    {
      None
    }

    function Extract(): T
      requires Some?
    {
      value
    }

    function GetOr(default: T): T {
      match this
      case Some(v) => v
      case None => default
    }
  }

  /** The exceptions the modelled code can raise, one constructor per kind. */
  datatype Error =
    | ArgumentNull(paramName: string)      // ArgumentNullException
    | Argument(reason: string)             // ArgumentException (e.g. a GUID of the wrong length)
    | NullReference                        // NullReferenceException on an unset member
    | InvalidOperation(reason: string)     // InvalidOperationException
    | InvalidCast                          // InvalidCastException
    | Format(at: nat)                      // malformed input, with the offending position
    | TextFormat(what: string)             // FormatException on malformed text
    | EndOfStream                          // the token stream ended before a value
    | DepthExceeded(maxDepth: nat)         // InsufficientExecutionStackException from the depth guard
    | IndexOutOfRange                      // IndexOutOfRangeException
    | NotSupported(reason: string)         // NotSupportedException
    | NullElement                          // a nil entry inside a payload list (see README)
    | FormatterNotRegistered               // no formatter resolved for a type

  datatype Result<+T> = Ok(value: T) | Err(error: Error) {

    predicate IsFailure() {
      Err?
    }

    function PropagateFailure<U>(): Result<U>
      requires Err?
    {
      Err(error)
    }

    function Extract(): T
      requires Ok?
    {
      value
    }
  }
}
