/** Option and Result, the shapes in which the other modules return "nothing" and "an error". */
module Wrappers {
  datatype Option<+T> = None | Some(value: T)

  datatype Result<+T, +E> = Ok(value: T) | Err(error: E)
}
