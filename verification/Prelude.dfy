/** Datatypes that stand for the Go idioms of an optional pointer and a value-or-error pair. */
module Prelude {
  datatype Option<+T> = None | Some(value: T)

  datatype Result<+T, +E> = Ok(value: T) | Err(error: E)
}
