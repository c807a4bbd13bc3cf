/** Machine words of the repository's C code, as ranges of mathematical integers. */
module Words {
  const U32_LIMIT: nat := 0x1_0000_0000
  const U64_LIMIT: nat := 0x1_0000_0000_0000_0000
  const U64_MAX: nat := U64_LIMIT - 1

  type Byte = n: nat | n < 256
  type U32 = n: nat | n < U32_LIMIT
  type U64 = n: nat | n < U64_LIMIT

  datatype Option<+T> = None | Some(value: T)
}
