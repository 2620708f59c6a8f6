/** Optional values, for Java references that may be null, and results of operations that may throw. */
module Optional {

  datatype Option<+T> = None | Some(value: T)

  /** A value, or the message of the exception thrown instead. */
  datatype Result<+T> = Success(value: T) | Failure(error: string)
}
