/** Option and Result values for the Python code's `None` and its raised exceptions. */
module Results {

  datatype Option<+T> = None | Some(value: T)

  datatype Result<+T, +E> = Success(value: T) | Failure(error: E)
}
