/** Failure-compatible wrappers used throughout the model: an optional value and a
    value-or-error result (Go's `(value, err)` return pairs). */
module Results {

  datatype Option<+T> = None | Some(value: T)

  datatype Result<+R, +E> = Success(value: R) | Failure(error: E)
}
