/** Result types shared by every component. */
module Options {

  datatype Option<+T> = None | Some(value: T)

  /** A value, or the exception the program throws instead. */
  datatype Result<+T, +E> = Ok(value: T) | Err(error: E)
}
