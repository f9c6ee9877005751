/** The two shapes JavaScript gives to a missing value and to a thrown error. */
module Wrappers {

  /** `undefined` (None) or a present value. */
  datatype Option<+T> = None | Some(value: T)

  /** A computed value, or the error that was thrown instead. */
  datatype Result<+T, +E> = Ok(value: T) | Err(error: E)
}
