/** What several modules need: optional values, word sizes and powers of ten. */
module Common {
  datatype Option<+T> = None | Some(value: T)

  /** One more than the largest unsigned value of 8, 16, 32 and 64 bits. */
  const U8: nat := 0x100
  const U16: nat := 0x1_0000
  const U32: nat := 0x1_0000_0000
  const U64: nat := 0x1_0000_0000_0000_0000

  function Pow10(k: nat): (p: nat)
    ensures p >= 1
  {
    if k == 0 then 1 else 10 * Pow10(k - 1)
  }
}
