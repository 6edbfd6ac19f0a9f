/** The failure-carrying datatypes and byte strings the other modules use. */
module Common {
  datatype Option<+T> = None | Some(value: T)

  type Byte = n: nat | n < 256

  type Bytes = seq<Byte>

  datatype Result<+T, +E> = Ok(value: T) | Err(error: E)
}
