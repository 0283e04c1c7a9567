/** Option and Result, used for the optional constructor argument of a todo
    and for the error that a duplicate action type raises. */
module Wrappers {
  datatype Option<+T> = None | Some(value: T)

  datatype Result<+R, +E> = Success(value: R) | Failure(error: E)
}
