// Result and option types shared by the other modules.
module Wrappers {
  datatype Option<+T> = None | Some(value: T)

  // The outcome of an operation of the source that may throw.
  datatype Result<+T, +E> = Ok(value: T) | Err(error: E)
}
