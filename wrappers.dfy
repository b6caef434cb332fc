/** Failure-carrying result types shared by the loaders, the statistics engine and the similarity library. */
module Wrappers {

  datatype Option<+T> = None | Some(value: T)

  datatype Result<+R, +E> = Success(value: R) | Failure(error: E)
}
