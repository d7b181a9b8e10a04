/**
  Optional values and error-carrying results.

  `Option` stands for a C# reference that may be null (an asteroid slot, the
  bullet); `Result` stands for an operation that either succeeds or throws.
*/
module Options {

  datatype Option<+T> = None | Some(value: T)

  datatype Result<+T, +E> = Ok(value: T) | Err(error: E)
}
