/** Integer widths, and the limits more than one component enforces. */
module Limits {
  const TWO16 := 0x1_0000
  const TWO32 := 0x1_0000_0000
  const TWO63 := 0x8000_0000_0000_0000
  const TWO64 := 0x1_0000_0000_0000_0000
  const MIN64 := -TWO63
  const MAX64 := TWO63 - 1

  /** Bytes of one archive, unpacked or not, and of one temporary file. */
  const MAX_BYTES: nat := 512 * 1024 * 1024
  const MAX_ENTRIES: nat := 10_000
}
