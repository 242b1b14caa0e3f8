/** Option and Result: the absent filter values of the query builder and the
    error path of model loading. */
module Wrappers {

  datatype Option<+T> = None | Some(value: T)

  datatype Result<+R, +E> = Success(value: R) | Failure(error: E)
}
