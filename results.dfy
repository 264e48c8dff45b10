/** Optional values and results: a nil pointer becomes `None`, a `log.Fatal` becomes `Failure`. */
module Results {

  datatype Option<+T> = None | Some(value: T)

  datatype Result<+T, +E> = Success(value: T) | Failure(error: E)
}
