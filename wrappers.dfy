/** The optional and the failing results used throughout the model. */
module Wrappers {

  /** A value or its absence (a C# `null`). */
  datatype Option<T> = None | Some(value: T)

  /** A value, or the exception the C# code would throw instead. */
  datatype Result<T, E> = Ok(value: T) | Err(error: E)
}
