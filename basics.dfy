/** Stock wrappers: absence (Ruby's nil) and a value-or-error result. */
module Basics {

  datatype Option<+T> = None | Some(value: T)

  datatype Result<+T, +E> = Ok(value: T) | Err(error: E)
}
