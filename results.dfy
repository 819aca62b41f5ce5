/** Option and Result: the model's stand-ins for Python's `None` and for raised exceptions. */
module Results {

  datatype Option<+T> = None | Some(value: T)

  /** `Err` stands for an exception the source raises (or a `sys.exit`), `Ok` for a normal return. */
  datatype Result<+T, +E> = Ok(value: T) | Err(error: E)
}
