/** Success or failure, for what the source reports by a return code or an exception. */
module Results {
  datatype Result<+T, +E> = Success(value: T) | Failure(error: E)
}
