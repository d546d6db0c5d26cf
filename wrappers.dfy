/** Option and Result values, used where the tool raises an exception or returns nothing. */
module Wrappers {

  datatype Option<+T> = None | Some(value: T)

  /** `Ok` carries a computed value, `Err` the exception the tool would raise in its place. */
  datatype Result<+T, +E> = Ok(value: T) | Err(error: E)
}
