/** Option and Result, used for Python's `None` returns and for the exceptions
    the algorithm can raise. */
module Wrappers {

  datatype Option<+T> = None | Some(value: T)

  datatype Result<+T, +E> = Success(value: T) | Failure(error: E)

}
