/** Bytes and optional values. */
module Values {

  type Byte = b: nat | b < 256

  datatype Option<T> = None | Some(value: T)
}
