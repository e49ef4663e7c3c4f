/** The two result shapes the other modules share. */
module Wrappers {

  /** A row or value that may be missing: a nil pointer, SQL NULL, or no row. */
  datatype Option<+T> = None | Some(value: T)

  /** The outcome of a statement: a value, or a constraint violation. */
  datatype Result<+T, +E> = Ok(value: T) | Err(error: E)
}
