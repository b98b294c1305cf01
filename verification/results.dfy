/** Optional values and fetch outcomes.

    A Go `*value` that may be nil becomes an `Option`; the `(interface{}, error)`
    pair a fetch function returns becomes a `Result`, whose `Err` case stands for
    a non-nil error (the value beside it is then always nil in the cache's code).
 */
module Results {

  datatype Option<+T> = None | Some(value: T)

  datatype Result<+V, +E> = Ok(value: V) | Err(error: E)
}
