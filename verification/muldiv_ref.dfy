/** The M extension as the instruction-set simulator defines it. */
module MulDivRef {
  import opened Bits

  const TWO_31: int := 0x8000_0000

  /** A register read as a signed number. */
  function Signed(x: Word): (r: int)
    ensures -TWO_31 <= r < TWO_31 && (r == x || r == x - TWO_32)
  {
    if x < TWO_31 then x else x - TWO_32
  }

  /** A number cut to 32 bits. */
  function Cut(x: int): (r: Word) {
    x % TWO_32
  }

  /** C's division of signed numbers truncates toward zero. */
  function TruncDiv(x: int, y: int): (q: int)
    requires y != 0
  {
    if x >= 0 then x / y else -(-x / y)
  }

  function TruncRem(x: int, y: int): (r: int)
    requires y != 0
  {
    x - y * TruncDiv(x, y)
  }

  datatype DivOp = DIV | DIVU | REM | REMU
  datatype MulOp = MUL | MULH | MULHSU | MULHU

  function DivRef(op: DivOp, a: Word, b: Word): (r: Word) {
    match op
    case DIV =>
      if Signed(a) == -TWO_31 && Signed(b) == -1 then a
      else if b != 0 then Cut(TruncDiv(Signed(a), Signed(b))) else Cut(-1)
    case DIVU => if b != 0 then a / b else Cut(-1)
    case REM =>
      if Signed(a) == -TWO_31 && Signed(b) == -1 then 0
      else if b != 0 then Cut(TruncRem(Signed(a), Signed(b))) else a
    case REMU => if b != 0 then a % b else a
  }

  /** An arithmetic shift right by 32 of the 64-bit product, or its low word. */
  function MulRef(op: MulOp, a: Word, b: Word): (r: Word) {
    match op
    case MUL => Cut(Signed(a) * Signed(b))
    case MULH => Cut(Signed(a) * Signed(b) / TWO_32)
    case MULHSU => Cut(Signed(a) * b / TWO_32)
    case MULHU => Cut(a * b / TWO_32)
  }
}
