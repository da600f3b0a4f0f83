// The exceptions the interpreter throws, and the Result and Option wrappers
// that stand for "returns a value or throws".
module Exceptions {

  /** The exception kinds thrown by the modelled code. */
  datatype Error =
    | InsufficientStackSize   // PietDotNet.InsufficientStackSize
    | NegativeDepth           // PietDotNet.NegativeDepth
    | InvalidInput            // PietDotNet.InvalidInput
    | Terminated              // PietDotNet.Terminated
    | NotSupportedDelta       // the dispatch table has no entry for a command
    | InvalidOperation        // System.InvalidOperationException
    | ArgumentOutOfRange      // System.ArgumentOutOfRangeException
    | UndefinedEnum           // the guard against enum values without a name
    | DivideByZero            // System.DivideByZeroException
    | Overflow                // System.OverflowException
    | NullReference           // System.NullReferenceException
    | ArgumentNull            // System.ArgumentNullException
    | IndexOutOfRange         // System.IndexOutOfRangeException
    | EndOfStream             // System.IO.EndOfStreamException
    | NotImplemented          // System.NotImplementedException

  /** A value, or the exception thrown instead of returning one. */
  datatype Result<T> = Ok(value: T) | Err(error: Error)
  {
    predicate IsFailure() { Err? }

    function PropagateFailure<U>(): Result<U>
      requires Err?
    {
      Err(error)
    }

    function Extract(): T
      requires Ok?
    {
      value
    }
  }

  /** C#'s nullable values (`long?`, `char?`). */
  datatype Option<T> = None | Some(value: T)
}
