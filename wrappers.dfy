/** Small shared value types: optional values, results and the Python
    exceptions the modelled code raises or catches. */
module Wrappers {

  datatype Option<T> = None | Some(value: T)

  /** The exception classes the modelled code raises, lets propagate or catches. */
  datatype PyError =
    | ValueError
    | TypeError
    | IndexError
    | KeyError
    | AttributeError
    | RuntimeError
    | ZeroDivisionError

  datatype Result<T> = Ok(value: T) | Err(error: PyError)
  {
    predicate IsOk() { Ok? }
  }
}
