/** Datatypes shared by every component. */
module Prelude {

  datatype Option<+T> = None | Some(value: T)

  datatype Result<+T, +E> = Ok(value: T) | Err(error: E)

  /** A request body or a file is a sequence of bytes. */
  newtype byte = x: int | 0 <= x < 256
}
