/** Values that may be missing and calls that may fail, shared by all models. */
module Wrappers {

  datatype Option<+T> = None | Some(value: T)

  datatype Result<+T, +E> = Ok(value: T) | Err(error: E)

  /** A call whose errors are not told apart. */
  type Fallible<+T> = Result<T, ()>
}
