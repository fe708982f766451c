/** Fixed-width unsigned registers, as ranges of integers. */
module Bits {
  const TWO_32: int := 0x1_0000_0000

  type Word = x: int | 0 <= x < TWO_32
  type Byte = x: int | 0 <= x < 256
  type Tag = x: int | 0 <= x < 2048
  type Nibble = x: int | 0 <= x < 16
  type Pair = x: int | 0 <= x < 4

  /** {addr[31:2], 2'b0} */
  function AlignWord(addr: Word): (r: Word)
    ensures r % 4 == 0 && r <= addr < r + 4
  {
    addr - addr % 4
  }
}
