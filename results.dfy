/** Failure-carrying datatypes shared by the domain modules: the model's
    stand-in for Python's `None` results and raised exceptions. */
module Results {

  datatype Option<+T> = None | Some(value: T)

  /** The outcome of an operation that either returns a value or raises. */
  datatype Result<+T, +E> = Ok(value: T) | Err(error: E)
}
