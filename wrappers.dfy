/** Option and Result, used for the values a reader may lack and for the
    errors the query layer raises. */
module Wrappers {
  datatype Option<+T> = None | Some(value: T)

  datatype Result<+R, +E> = Success(value: R) | Failure(error: E)
}
