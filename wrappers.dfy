/** Option and Result: the null pointers and error returns of the modelled code. */
module Wrappers {

  /** A possibly-null result: `None` stands for a returned null pointer or "no value pushed". */
  datatype Option<+T> = None | Some(value: T)

  /** A result that is either a value or an error report. */
  datatype Result<+T, +E> = Ok(value: T) | Err(error: E)
}
