/** The two outcome types shared by the models. */
module Wrappers {

  /** A value that may be absent: a null pointer, an empty `std::any`, a failed lookup. */
  datatype Option<+T> = None | Some(value: T)

  /** A returned value, or the exception the program throws instead. */
  datatype Result<+T, +E> = Ok(value: T) | Err(error: E)
}
