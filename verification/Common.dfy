/** Small datatypes shared by all components. */
module Common {

  datatype Option<+T> = None | Some(value: T)

  /** The error returns of the program; which error it is does not matter to any result here. */
  datatype Result<+T> = Ok(value: T) | Err
}
