/** Small types that several components share. */
module Values {
  /** An eight-bit unsigned integer. */
  type Byte = x: int | 0 <= x < 256

  datatype Option<+T> = None | Some(value: T)
}
