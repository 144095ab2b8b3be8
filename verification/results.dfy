/** Success/failure values for the operations whose Swift code traps at run time. */
module Results {

  /** A value that may be absent. */
  datatype Option<+T> = None | Some(value: T)

  /** Either the computed value or the reason the Swift code would have stopped. */
  datatype Result<+T, +E> = Success(value: T) | Failure(error: E)
}
