/** Option stands for a nullable reference, Result for a value or the
    exception an operation throws. */
module Wrappers {

  datatype Option<+T> = None | Some(value: T)

  datatype Result<+R, +E> = Ok(value: R) | Err(error: E)
}
