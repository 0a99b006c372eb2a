/**
 Bytes and unsigned 32-bit integers.
 */
module Machine {
  type Byte = n: int | 0 <= n < 256
  type Bytes = seq<Byte>

  const TWO32: nat := 0x1_0000_0000
  const U32_MAX: nat := TWO32 - 1

  type U32 = n: nat | n < TWO32
}
