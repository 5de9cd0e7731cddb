/** Option and Result types, and the exceptions of the .NET runtime that the
    menu server can raise or catch. */
module Wrappers {

  datatype Option<+T> = None | Some(value: T)

  /** The .NET exception classes that the modelled code can throw. */
  datatype Exception =
    | ArgumentNull          // ArgumentNullException
    | Argument              // ArgumentException ("Unknown property", duplicate key)
    | ArgumentOutOfRange    // List<T> indexer with a bad index
    | IndexOutOfRange       // array indexer with a bad index
    | NullReference         // member access through a null reference
    | InvalidCast           // failed cast

  /** A computation that returns a value or throws. */
  datatype Result<+T> = Ok(value: T) | Err(error: Exception)

  /** A computation that returns nothing or throws. */
  datatype Outcome = Pass | Fail(error: Exception)
}
