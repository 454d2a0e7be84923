/** The Option type used for values that may be unavailable. */
module Wrappers {

  datatype Option<+T> = None | Some(value: T)

  /** Result of a computation that can fail with an error of type E. */
  datatype Result<+T, +E> = Ok(value: T) | Err(error: E)
}
