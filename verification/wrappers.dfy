/** Failure-carrying datatypes shared by the model. */
module Wrappers {

  /** A value that may be absent: a pandas missing value (NaN) or an
      aggregate over nothing. */
  datatype Option<+T> = None | Some(value: T)

  /** Either a computed value or the error the program raises instead. */
  datatype Result<+R, +E> = Ok(value: R) | Err(error: E)
}
