/** Failure-carrying wrappers used throughout the model for the exceptions
    the label code raises (ValueError, KeyError). */
module Results {

  datatype Option<+T> = None | Some(value: T)

  datatype Result<+T, +E> = Success(value: T) | Failure(error: E)
}
