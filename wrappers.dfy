/** Optional values, results and outcomes, and the Java exceptions that the
    plugin raises or lets escape, as values. */
module Wrappers {

  /** A value that may be absent: Java's `null`. */
  datatype Option<+T> = None | Some(value: T) {
    predicate IsFailure() { None? }

    function PropagateFailure<U>(): Option<U>
      requires None?
    {
      None
    }

    function Extract(): T
      requires Some?
    {
      value
    }

    function GetOr(default: T): T {
      if Some? then value else default
    }
  }

  /** Either a value or the exception that replaced it. */
  datatype Result<+R, +E> = Ok(value: R) | Err(error: E) {
    predicate IsFailure() { Err? }

    function PropagateFailure<U>(): Result<U, E>
      requires Err?
    {
      Err(error)
    }

    function Extract(): R
      requires Ok?
    {
      value
    }
  }

  /** A `void` Java method: it returns normally or throws. */
  datatype Outcome<+E> = Pass | Fail(error: E)

  /** The Java exceptions the modelled code raises, each with its message
      and, where the code attaches one, its cause. */
  datatype Exception =
    | IllegalArgument(message: string)
    | IllegalState(message: string, cause: Option<Exception>)
    | NullPointer(message: string)
    | NumberFormat(message: string)
    | IO(message: string)
    | Process(message: string, cause: Option<Exception>)
}
