/** Small types shared by the other modules. */
module Common {

  datatype Option<+T> = None | Some(value: T)

  /** The number of uint64 values. */
  const TWO_64: nat := 0x1_0000_0000_0000_0000
}
