/** Failure-compatible wrappers used in place of Go's `(value, error)` pairs. */
module Results {

  datatype Option<+T> = None | Some(value: T)

  /** `Ok(v)` is a Go call returning `v, nil`; `Err(e)` one returning a non-nil error. */
  datatype Result<+T, +E> = Ok(value: T) | Err(error: E) {
    predicate IsFailure() { Err? }

    function PropagateFailure<U>(): Result<U, E>
      requires Err?
    {
      Err(error)
    }

    function Extract(): T
      requires Ok?
    {
      value
    }
  }
}
