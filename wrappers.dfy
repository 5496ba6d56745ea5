/** Results and the Python exceptions the modelled code raises. */
module Wrappers {

  /** The exceptions the modelled Python code can raise (and does not catch). */
  datatype PyError =
    | IndexError                 // a list index or a `split` field out of range
    | KeyError(key: string)      // a missing dictionary key
    | ValueError(message: string)
    | Exception(message: string) // a bare `raise Exception(...)`

  /** A value, or the exception raised instead of returning it. */
  datatype Result<+T> = Ok(value: T) | Err(error: PyError)

  /** An optional value (Python's `None` or a value). */
  datatype Option<+T> = None | Some(value: T)

  /** The outcome of a check that returns nothing but may raise. */
  datatype Outcome = Pass | Fail(error: PyError)
}
