/** Optional values and the one error the model raises. */
module Outcomes {

  datatype Option<T> = None | Some(value: T)

  /** More vehicles than customers: no solution without an empty tour exists. */
  datatype InitError = InstanceUnsolvable

  datatype Result<T> = Success(value: T) | Failure(error: InitError)
}
