/** Failure, absence and bytes, shared by all models. */
module Wrappers {
  datatype Option<+T> = None | Some(value: T)

  datatype Result<+T, +E> = Ok(value: T) | Err(error: E)

  type Byte = x: nat | x < 256

  function Min(a: nat, b: nat): nat { if a < b then a else b }
}
