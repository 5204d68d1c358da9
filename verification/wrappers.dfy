/** Option, Result and Outcome: the error paths of the model (a Python
    exception becomes an Err or a Fail value). */
module Wrappers {

  datatype Option<+T> = None | Some(value: T)

  datatype Result<+T, +E> = Ok(value: T) | Err(error: E)

  /** The result of an operation that returns nothing but may raise. */
  datatype Outcome<+E> = Pass | Fail(error: E)
}
