/** Optional values and argument errors shared by the other modules. */
module Results {

  /** A value that may be absent. In Statistics, `None` stands for the
      not-a-number that numpy returns for the statistics of an empty slice. */
  datatype Option<+T> = None | Some(value: T)

  /** The outcome of an argument check: the accepted value or the error raised. */
  datatype Result<+R, +E> = Success(value: R) | Failure(error: E)

  /** Python's `ValueError`, raised by the argument checks. */
  datatype ArgError = InvalidArgument(message: string)
}
