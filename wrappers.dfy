/** Option and Result values, standing for Python's `None` and for raised exceptions. */
module Wrappers {

  datatype Option<T> = None | Some(value: T)

  /** `Err` stands for an exception the source raises; the operation returns no value. */
  datatype Result<T, E> = Ok(value: T) | Err(error: E)
}
