/** Option and Result: the model's stand-ins for Python's `None` and for raised exceptions. */
module Results {

  /** A value that may be absent, as a Python attribute that may hold `None`. */
  datatype Option<+T> = None | Some(value: T)

  /** The outcome of a step that may raise: a value, or the error it raised. */
  datatype Result<+T, +E> = Ok(value: T) | Err(error: E)
}
