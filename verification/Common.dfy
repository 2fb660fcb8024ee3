/** Shared definitions. */
module Common {
  datatype Option<+T> = None | Some(value: T)

  /** Ranges of the C unsigned types: arithmetic on them is modulo these. */
  const UINT16: nat := 0x1_0000
  const UINT32: nat := 0x1_0000_0000
}
