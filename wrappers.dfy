/** Option and Result values standing for JavaScript's null/undefined and for thrown or rejected errors. */
module Wrappers {

  datatype Option<+T> = None | Some(value: T)

  datatype Result<+T, +E> = Success(value: T) | Failure(error: E)
}
