/** The restoring divider of the core: one quotient bit a cycle, most significant first. */
module Divider {
  import opened Arith
  import opened Bits
  import opened MulDivRef

  type Divisor = x: int | 0 <= x < 0x8000_0000_0000_0000

  datatype Start = Start(op: DivOp, a: Word, b: Word)
  datatype DivIn = Nothing | Begin(d: Start)

  datatype DivState = DivState(busy: bool, isDiv: bool, dividend: Word, divisor: Divisor, invert: bool,
                               quotient: Word, mask: Word, valid: bool, result: Word)

  const DIV_RESET := DivState(false, false, 0, 0, false, 0, 0, false, 0)

  /** ~x + 1 */
  function Neg(x: Word): Word {
    Cut(TWO_32 - x)
  }

  lemma Pow32()
    ensures Pow2(32) == TWO_32
  {
    assert Pow2(8) == 256;
    assert Pow2(16) == 65536;
    assert Pow2(24) == 0x100_0000;
  }

  function Or32(x: Word, y: Word): Word {
    Pow32();
    OrFits(x, y, 32);
    Or(x, y)
  }

  // ----- The clock -----

  predicate Complete(s: DivState) {
    s.mask == 0 && s.busy
  }

  predicate SignedOp(op: DivOp) {
    op.DIV? || op.REM?
  }

  predicate Negative(x: Word) {
    x >= TWO_31
  }

  function Magnitude(op: DivOp, x: Word): (r: Word) {
    if SignedOp(op) && Negative(x) then Neg(x) else x
  }

  predicate Inverted(d: Start) {
    (d.op.DIV? && Negative(d.a) != Negative(d.b) && d.b != 0) || (d.op.REM? && Negative(d.a))
  }

  function Loaded(s: DivState, d: Start): DivState {
    s.(busy := true, isDiv := d.op.DIV? || d.op.DIVU?, dividend := Magnitude(d.op, d.a),
       divisor := Magnitude(d.op, d.b) * TWO_31, invert := Inverted(d), quotient := 0, mask := TWO_31)
  }

  /** A trial subtraction; the divisor and the mask then move one bit right. */
  function Shifted(s: DivState): DivState {
    var fits := s.divisor <= s.dividend;
    s.(dividend := if fits then s.dividend - s.divisor else s.dividend,
       quotient := if fits then Or32(s.quotient, s.mask) else s.quotient,
       divisor := s.divisor / 2, mask := s.mask / 2)
  }

  function Result(s: DivState): Word {
    var r := if s.isDiv then s.quotient else s.dividend;
    if s.invert then Neg(r) else r
  }

  function Next(s: DivState, i: DivIn): DivState {
    var s' := if i.Begin? then Loaded(s, i.d) else if Complete(s) then s.(busy := false)
              else if s.busy then Shifted(s) else s;
    s'.(valid := Complete(s), result := if Complete(s) then Result(s) else s.result)
  }

  // ----- The registers -----

  class DividerUnit {
    var divBusy: bool
    var divInst: bool
    var dividend: Word
    var divisor: Divisor
    var invertRes: bool
    var quotient: Word
    var qMask: Word
    var valid: bool
    var wbResult: Word

    ghost function Abs(): DivState
      reads this
    {
      DivState(divBusy, divInst, dividend, divisor, invertRes, quotient, qMask, valid, wbResult)
    }

    constructor ()
      ensures Abs() == DIV_RESET
    {
      divBusy, divInst, dividend, divisor, invertRes, quotient, qMask := false, false, 0, 0, false, 0, 0;
      valid, wbResult := false, 0;
    }

    method Load(d: Start)
      modifies this
      ensures Abs() == Loaded(old(Abs()), d)
    {
      var signed := SignedOp(d.op);
      divBusy, divInst := true, d.op.DIV? || d.op.DIVU?;
      dividend := if signed && d.a >= TWO_31 then Neg(d.a) else d.a;
      divisor := (if signed && d.b >= TWO_31 then Neg(d.b) else d.b) * TWO_31;
      invertRes := (d.op.DIV? && (d.a >= TWO_31) != (d.b >= TWO_31) && d.b != 0) || (d.op.REM? && d.a >= TWO_31);
      quotient, qMask := 0, TWO_31;
    }

    method Shift()
      modifies this
      ensures Abs() == Shifted(old(Abs()))
    {
      if divisor <= dividend {
        dividend := dividend - divisor;
        quotient := Or32(quotient, qMask);
      }
      divisor := divisor / 2;
      qMask := qMask / 2;
    }

    /** The writeback outputs show the registers as they are before the edge. */
    method Tick(i: DivIn) returns (writebackValid: bool, writebackValue: Word)
      modifies this
      ensures Abs() == Next(old(Abs()), i)
      ensures writebackValid == old(valid) && writebackValue == old(wbResult)
    {
      writebackValid, writebackValue := valid, wbResult;
      var complete := qMask == 0 && divBusy;
      var r := if divInst then quotient else dividend;
      var result := if invertRes then Neg(r) else r;
      if i.Begin? {
        Load(i.d);
      } else if complete {
        divBusy := false;
      } else if divBusy {
        Shift();
      }
      valid := complete;
      if complete {
        wbResult := result;
      }
    }
  }

  // ----- One division -----

  /** `k` cycles in which nothing starts. */
  function Wait(s: DivState, k: nat): DivState {
    if k == 0 then s else Next(Wait(s, k - 1), Nothing)
  }

  function Bit(n: nat): nat {
    if n == 0 then 0 else Pow2(n - 1)
  }

  /** A partial quotient of `a` by `b`, exact down to multiples of `p`. */
  predicate Partial(q: int, r: int, a: int, b: int, p: int) {
    && p > 0 && q % p == 0 && q + p <= TWO_32
    && q * b + r == a && (if b == 0 then q + p == TWO_32 else r < b * p)
  }

  /** `n` quotient bits are still to come. */
  predicate Busy(s: DivState, d: Start, n: nat) {
    var a, b := Magnitude(d.op, d.a), Magnitude(d.op, d.b);
    && s.busy && s.isDiv == (d.op.DIV? || d.op.DIVU?) && s.invert == Inverted(d)
    && n <= 32 && s.mask == Bit(n) && (n > 0 ==> s.divisor == b * Pow2(n - 1))
    && Partial(s.quotient, s.dividend, a, b, Pow2(n))
  }

  lemma LoadedBusy(s: DivState, d: Start)
    ensures Busy(Next(s, Begin(d)), d, 32)
  {
    Pow32();
    assert Pow2(32) == 2 * Pow2(31);
    var b := Magnitude(d.op, d.b);
    if b > 0 {
      MulAtLeast(TWO_32, b);
    }
  }

  lemma PartialStep(q: int, r: int, a: int, b: int, p: int)
    requires p > 0 && b >= 0 && r >= 0 && Partial(q, r, a, b, 2 * p)
    ensures if b * p <= r then Partial(q + p, r - b * p, a, b, p) else Partial(q, r, a, b, p)
  {
    var k := q / (2 * p);
    assert q == (2 * p) * k;
    assert (2 * p) * k == p * (2 * k);
    assert p * (2 * k + 1) == p * (2 * k) + p;
    ModUnique(q, p, 2 * k, 0);
    ModUnique(q + p, p, 2 * k + 1, 0);
    assert (q + p) * b == q * b + b * p;
    assert b * (2 * p) == b * p + b * p;
  }

  lemma ShiftBusy(s: DivState, d: Start, n: nat)
    requires Busy(s, d, n) && n > 0
    ensures Busy(Next(s, Nothing), d, n - 1) && !Complete(s)
  {
    var a, b, p := Magnitude(d.op, d.a), Magnitude(d.op, d.b), Pow2(n - 1);
    PartialStep(s.quotient, s.dividend, a, b, p);
    OrAdd(s.quotient, p, n);
    HalfDivisor(b, n);
  }

  lemma HalfDivisor(b: nat, n: nat)
    requires n > 0
    ensures n > 1 ==> b * Pow2(n - 1) / 2 == b * Pow2(n - 2)
  {
    if n > 1 {
      assert b * Pow2(n - 1) == 2 * (b * Pow2(n - 2));
    }
  }

  /** The registers at the end hold the quotient and the remainder of the magnitudes. */
  lemma BusyDone(s: DivState, d: Start)
    requires Busy(s, d, 0)
    ensures var a, b := Magnitude(d.op, d.a), Magnitude(d.op, d.b);
            if b == 0 then s.quotient == TWO_32 - 1 && s.dividend == a else s.quotient == a / b && s.dividend == a % b
  {
    var a, b := Magnitude(d.op, d.a), Magnitude(d.op, d.b);
    if b != 0 {
      ModUnique(a, b, s.quotient, s.dividend);
    }
  }

  // ----- The result is the simulator's -----

  lemma DivByNegative(x: int, y: int)
    requires y > 0
    ensures x / -y == -(x / y)
  {
  }

  /** Truncated division on magnitudes. */
  lemma TruncMagnitudes(x: int, y: int)
    requires y != 0
    ensures var m, n := if x < 0 then -x else x, if y < 0 then -y else y;
            && TruncDiv(x, y) == (if (x < 0) == (y < 0) then m / n else -(m / n))
            && TruncRem(x, y) == (if x < 0 then -(m % n) else m % n)
  {
    var m, n := if x < 0 then -x else x, if y < 0 then -y else y;
    DivByNegative(m, n);
    assert m == n * (m / n) + m % n;
    assert (-n) * (-(m / n)) == n * (m / n) && n * (-(m / n)) == -(n * (m / n));
  }

  lemma QuotientFits(a: int, b: int)
    requires a >= 0 && b > 0
    ensures 0 <= a / b <= a && 0 <= a % b <= a
    ensures b == 1 ==> a / b == a
    ensures b > 1 && a > 0 ==> a / b < a
  {
    var q, r := a / b, a % b;
    assert a == b * q + r;
    if q > 0 {
      MulAtLeast(q, b);
      if b > 1 {
        MulAtLeast(q, b - 1);
        assert b * q == (b - 1) * q + q;
      }
    }
  }

  lemma CutNeg(v: int)
    requires 0 <= v < TWO_32
    ensures Cut(v) == v && Cut(-v) == Neg(v)
  {
  }

  /** What the sign correction makes of the magnitudes' quotient and remainder. */
  lemma Corrected(x: int, y: int, q: int, r: int, m: Word, n: Word)
    requires -TWO_31 <= x < TWO_31 && -TWO_31 <= y < TWO_31 && y != 0
    requires m == (if x < 0 then -x else x) && n == (if y < 0 then -y else y) && q == m / n && r == m % n
    ensures 0 <= q < TWO_32 && 0 <= r < TWO_32
    ensures Cut(TruncDiv(x, y)) == (if (x < 0) == (y < 0) then q else Neg(q))
    ensures Cut(TruncRem(x, y)) == (if x < 0 then Neg(r) else r)
    ensures n == 1 ==> q == m && r == 0
  {
    TruncMagnitudes(x, y);
    QuotientFits(m, n);
    CutNeg(q);
    CutNeg(r);
  }

  lemma SignedResult(d: Start, q: Word, r: Word)
    requires SignedOp(d.op) && d.b != 0
    requires q == Magnitude(d.op, d.a) / Magnitude(d.op, d.b) && r == Magnitude(d.op, d.a) % Magnitude(d.op, d.b)
    ensures DivRef(d.op, d.a, d.b) == var v := if d.op.DIV? then q else r; if Inverted(d) then Neg(v) else v
  {
    Corrected(Signed(d.a), Signed(d.b), q, r, Magnitude(d.op, d.a), Magnitude(d.op, d.b));
  }

  lemma ResultIsRef(s: DivState, d: Start)
    requires Busy(s, d, 0)
    ensures Result(s) == DivRef(d.op, d.a, d.b)
  {
    BusyDone(s, d);
    if SignedOp(d.op) && d.b != 0 {
      SignedResult(d, s.quotient, s.dividend);
    }
  }

  lemma {:induction false} BusyWait(s: DivState, d: Start, k: nat)
    requires k <= 32
    ensures Busy(Wait(Next(s, Begin(d)), k), d, 32 - k)
    ensures k > 0 ==> !Wait(Next(s, Begin(d)), k).valid
  {
    if k == 0 {
      LoadedBusy(s, d);
    } else {
      BusyWait(s, d, k - 1);
      ShiftBusy(Wait(Next(s, Begin(d)), k - 1), d, 33 - k);
    }
  }

  /** From any register contents whatever, a division started ends after exactly 32 busy
      cycles, with the simulator's result and one valid pulse. */
  lemma DividesIn32(s: DivState, d: Start)
    ensures var s1 := Next(s, Begin(d));
            && (forall k :: 0 <= k <= 32 ==> Wait(s1, k).busy && (Complete(Wait(s1, k)) <==> k == 32))
            && (forall k :: 1 <= k <= 32 ==> !Wait(s1, k).valid)
            && Wait(s1, 33).valid && !Wait(s1, 33).busy && Wait(s1, 33).result == DivRef(d.op, d.a, d.b)
            && !Wait(s1, 34).valid && Wait(s1, 34).result == DivRef(d.op, d.a, d.b)
  {
    var s1 := Next(s, Begin(d));
    forall k | 0 <= k <= 32
      ensures Wait(s1, k).busy && (Complete(Wait(s1, k)) <==> k == 32) && (k > 0 ==> !Wait(s1, k).valid) {
      BusyWait(s, d, k);
    }
    BusyWait(s, d, 32);
    ResultIsRef(Wait(s1, 32), d);
  }

  /** The first valid pulse after a start carries its result exactly when the start does not
      fall in the cycle that completes another division: that one's pulse comes first. */
  lemma FirstPulseIsOwnIff(s: DivState, d: Start)
    ensures (forall k :: 0 <= k < 33 ==> !Wait(Next(s, Begin(d)), k).valid) <==> !Complete(s)
  {
    DividesIn32(s, d);
    assert Wait(Next(s, Begin(d)), 0).valid == Complete(s);
  }

  /** A start can meet that cycle with a wrong result in the pulse. */
  lemma StalePulse()
    ensures var s := Wait(Next(DIV_RESET, Begin(Start(DIVU, 7, 1))), 32);
            var s' := Next(s, Begin(Start(DIVU, 9, 3)));
            s'.valid && s'.result == 7 && DivRef(DIVU, 9, 3) == 3
  {
    var d := Start(DIVU, 7, 1);
    BusyWait(DIV_RESET, d, 32);
    ResultIsRef(Wait(Next(DIV_RESET, Begin(d)), 32), d);
  }
}
