/** Optional values and results with an error, used for values that may fail to parse
    and for operations that can be rejected. */
module Options {

  datatype Option<T> = None | Some(value: T)

  datatype Result<T, E> = Success(value: T) | Failure(error: E)
}
