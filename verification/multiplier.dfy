/** The two-stage multiplier of the core: 33-bit operands, a 65-bit product, and a choice of its
    high or its low word. */
module Multiplier {
  import opened Bits
  import opened MulDivRef

  const TWO_33: int := 0x2_0000_0000
  const TWO_65: int := 0x2_0000_0000_0000_0000

  type Word33 = x: int | 0 <= x < 0x2_0000_0000
  type Word65 = x: int | 0 <= x < 0x2_0000_0000_0000_0000

  datatype MulIn = NoMul | Mul(op: MulOp, a: Word, b: Word)

  datatype MulState = MulState(aE1: Word33, bE1: Word33, highE1: bool, resultE2: Word)

  const MUL_RESET := MulState(0, 0, false, 0)

  /** {signed & x[31], x} */
  function Extend33(signed: bool, x: Word): Word33 {
    if signed && x >= TWO_31 then x + TWO_32 else x
  }

  /** {{32{x[32]}}, x} */
  function Extend65(x: Word33): Word65 {
    if x >= TWO_32 then x + TWO_65 - TWO_33 else x
  }

  function Product(s: MulState): Word65 {
    (Extend65(s.aE1) * Extend65(s.bE1)) % TWO_65
  }

  /** product[63:32] or product[31:0] */
  function Chosen(s: MulState): Word {
    if s.highE1 then Product(s) / TWO_32 % TWO_32 else Product(s) % TWO_32
  }

  function Loaded(s: MulState, i: MulIn): MulState {
    match i
    case NoMul => s.(aE1 := 0, bE1 := 0, highE1 := false)
    case Mul(op, a, b) =>
      s.(aE1 := Extend33(op.MULHSU? || op.MULH?, a), bE1 := Extend33(op.MULH?, b), highE1 := !op.MUL?)
  }

  function Next(s: MulState, hold: bool, i: MulIn): MulState {
    if hold then s else Loaded(s, i).(resultE2 := Chosen(s))
  }

  // ----- The registers -----

  class MultiplierUnit {
    var operandAE1: Word33
    var operandBE1: Word33
    var mulhiSelE1: bool
    var resultE2: Word

    ghost function Abs(): MulState
      reads this
    {
      MulState(operandAE1, operandBE1, mulhiSelE1, resultE2)
    }

    constructor ()
      ensures Abs() == MUL_RESET
    {
      operandAE1, operandBE1, mulhiSelE1, resultE2 := 0, 0, false, 0;
    }

    method Tick(hold: bool, i: MulIn) returns (writebackValue: Word)
      modifies this
      ensures Abs() == Next(old(Abs()), hold, i)
      ensures writebackValue == old(resultE2)
    {
      writebackValue := resultE2;
      if !hold {
        var product := (Extend65(operandAE1) * Extend65(operandBE1)) % TWO_65;
        resultE2 := if mulhiSelE1 then product / TWO_32 % TWO_32 else product % TWO_32;
        match i {
          case NoMul => operandAE1, operandBE1, mulhiSelE1 := 0, 0, false;
          case Mul(op, a, b) =>
            operandAE1 := Extend33(op.MULHSU? || op.MULH?, a);
            operandBE1 := Extend33(op.MULH?, b);
            mulhiSelE1 := !op.MUL?;
        }
      }
    }
  }

  // ----- The product is the simulator's -----

  /** What a 33-bit operand stands for. */
  function Value(x: Word33): int {
    if x >= TWO_32 then x - TWO_33 else x
  }

  /** Multiples of 2^65 do not reach the low 64 bits. */
  lemma CutsAgree(p: int, k: int)
    ensures (p + TWO_65 * k) / TWO_32 % TWO_32 == p / TWO_32 % TWO_32
    ensures (p + TWO_65 * k) % TWO_32 == p % TWO_32
  {
  }

  lemma ProductValue(s: MulState)
    ensures exists k: int :: Product(s) == Value(s.aE1) * Value(s.bE1) + TWO_65 * k
  {
    var a, b := Value(s.aE1), Value(s.bE1);
    var i, j := if s.aE1 >= TWO_32 then 1 else 0, if s.bE1 >= TWO_32 then 1 else 0;
    assert Extend65(s.aE1) == a + TWO_65 * i && Extend65(s.bE1) == b + TWO_65 * j;
    Expand(a, i, b, j);
    var full := Extend65(s.aE1) * Extend65(s.bE1);
    var k := a * j + i * b + TWO_65 * (i * j) - full / TWO_65;
    assert Product(s) == a * b + TWO_65 * k;
  }

  lemma Expand(a: int, i: int, b: int, j: int)
    ensures (a + TWO_65 * i) * (b + TWO_65 * j) == a * b + TWO_65 * (a * j + i * b + TWO_65 * (i * j))
  {
  }

  /** The low word of a product does not depend on the signs of its factors. */
  lemma LowWordUnsigned(a: Word, b: Word)
    ensures (a * b) % TWO_32 == (Signed(a) * Signed(b)) % TWO_32
  {
    var i, j := if a >= TWO_31 then 1 else 0, if b >= TWO_31 then 1 else 0;
    var x, y := Signed(a), Signed(b);
    assert a == x + TWO_32 * i && b == y + TWO_32 * j;
    assert a * b == x * y + TWO_32 * (x * j + i * y + TWO_32 * (i * j));
  }

  /** A multiplication loaded into the first stage leaves the second with the simulator's result. */
  lemma ChosenIsRef(s: MulState, op: MulOp, a: Word, b: Word)
    ensures Chosen(Loaded(s, Mul(op, a, b))) == MulRef(op, a, b)
  {
    var t := Loaded(s, Mul(op, a, b));
    ProductValue(t);
    var p := Value(t.aE1) * Value(t.bE1);
    var k: int :| Product(t) == p + TWO_65 * k;
    CutsAgree(p, k);
    assert Value(t.aE1) == if op.MULHSU? || op.MULH? then Signed(a) else a;
    assert Value(t.bE1) == if op.MULH? then Signed(b) else b;
    if op.MUL? {
      LowWordUnsigned(a, b);
    }
  }

  // ----- Runs with holds -----

  function RunOf(ins: seq<(bool, MulIn)>): MulState {
    if ins == [] then MUL_RESET else
    Next(RunOf(ins[..|ins| - 1]), ins[|ins| - 1].0, ins[|ins| - 1].1)
  }

  /** The inputs of the cycles that are not held. */
  function Moving(ins: seq<(bool, MulIn)>): seq<MulIn> {
    if ins == [] then [] else
    Moving(ins[..|ins| - 1]) + if ins[|ins| - 1].0 then [] else [ins[|ins| - 1].1]
  }

  function Expected(i: MulIn): Word {
    if i.NoMul? then 0 else MulRef(i.op, i.a, i.b)
  }

  lemma ChosenIsExpected(s: MulState, i: MulIn)
    ensures Chosen(Loaded(s, i)) == Expected(i)
  {
    if i.Mul? {
      ChosenIsRef(s, i.op, i.a, i.b);
    }
  }

  /** However holds are interspersed, the output shows the result of the last moving cycle but
      one: a hold neither loses a product nor repeats one. */
  lemma {:induction false} HoldsAreInvisible(ins: seq<(bool, MulIn)>)
    ensures var s, m := RunOf(ins), Moving(ins);
            && (|m| >= 2 ==> s.resultE2 == Expected(m[|m| - 2]))
            && (|m| >= 1 ==> s == Loaded(s, m[|m| - 1]))
            && (|m| == 0 ==> s == MUL_RESET)
  {
    if ins != [] {
      var s := RunOf(ins[..|ins| - 1]);
      var before := Moving(ins[..|ins| - 1]);
      HoldsAreInvisible(ins[..|ins| - 1]);
      if !ins[|ins| - 1].0 && before != [] {
        ChosenIsExpected(s, before[|before| - 1]);
      }
    }
  }
}
