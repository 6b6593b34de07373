/** Option and success/failure values, standing in for Go's `(value, ok)` and
    `(value, error)` return pairs. */
module Results {

  datatype Option<T> = None | Some(value: T)

  datatype Outcome<T, E> = Ok(value: T) | Err(error: E)
}
