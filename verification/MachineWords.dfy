/** Machine words: unsigned 64-bit numbers, as addresses and register contents. */
module MachineWords {

  const LIMIT := 0x1_0000_0000_0000_0000

  type Word = w: int | 0 <= w < LIMIT

  /** An octet, where it is read as a number. */
  type Byte = b: int | 0 <= b < 0x100
}
