/** Failure-carrying result types shared by the whole model. */
module Wrappers {

  /** A value that may be absent. */
  datatype Option<+T> = None | Some(value: T)

  /** Either a successful value or an error describing why the operation failed. */
  datatype Result<+R, +E> = Ok(value: R) | Err(error: E)
}
