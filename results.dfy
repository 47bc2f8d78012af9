/** Optional values and error-or-value results, used wherever the Go code
    returns a value together with an `error` or a possibly-missing value. */
module Results {

  datatype Option<T> = None | Some(value: T)

  datatype Result<T, E> = Ok(value: T) | Err(error: E)
}
