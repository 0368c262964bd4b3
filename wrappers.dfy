/** Small failure-carrying datatypes shared by the other modules. */
module Wrappers {

  /** A value that may be absent: a `weak_ptr` that no longer locks, a null `UnitsPtr`. */
  datatype Option<+T> = None | Some(value: T)

  /** The outcome of an operation that can report an error, such as `std::vector::at`. */
  datatype Result<+T, +E> = Ok(value: T) | Err(error: E)
}
