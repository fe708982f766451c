/** Issue, bypass, scoreboard and pipe control of the core: three stages behind the issue point
    (E1, E2, writeback), a register file, the divider and the multiplier. Fetch, the exec unit's
    function, the load/store unit and the CSR file are inputs. */
module Pipeline {
  import opened Bits
  import opened MulDivRef
  import Divider
  import Multiplier

  type Reg = x: int | 0 <= x < 32
  type Exc = x: int | 0 <= x < 64
  type Regs = s: seq<Word> | |s| == 32 witness seq(32, _ => 0)

  /** The decoder's class of an instruction: exec and branch, load and store, and so on. */
  datatype Kind = Plain | Lsu | Csr | Divide(dop: DivOp) | Multiply(mop: MulOp)

  datatype Instr = Instr(pc: Word, opcode: Word, kind: Kind, rdValid: bool, rd: Reg, ra: Reg, rb: Reg)

  /** What the exec unit computes for an instruction and its two operands. */
  type AluFn = (Instr, Word, Word) -> Word

  /** The registers of one stage. In E1 `result` is the exec unit's result register. */
  datatype Stage = Stage(valid: bool, intr: bool, kind: Kind, rdValid: bool, instr: Instr,
                         ra: Word, rb: Word, result: Word, exc: Exc)

  datatype State = State(e1: Stage, e2: Stage, wb: Stage, squashQ: bool, divPending: bool, csrPending: bool,
                         regs: Regs, div: Divider.DivState, mul: Multiplier.MulState)

  datatype Inputs = Inputs(fetchValid: bool, instr: Instr, fetchFault: bool, pageFault: bool, misaligned: bool,
                           takeInterrupt: bool, branchCsr: bool, lsuStall: bool,
                           memComplete: bool, memResult: Word, memException: Exc, csrValue: Word, csrException: Exc)

  const NO_INSTR := Instr(0, 0, Plain, false, 0, 0, 0)
  const BUBBLE := Stage(false, false, Plain, false, NO_INSTR, 0, 0, 0, 0)
  const ZERO_REGS: Regs := [0, 0, 0, 0, 0, 0, 0, 0, 0, 0, 0, 0, 0, 0, 0, 0,
                            0, 0, 0, 0, 0, 0, 0, 0, 0, 0, 0, 0, 0, 0, 0, 0]
  const RESET := State(BUBBLE, BUBBLE, BUBBLE, false, false, false, ZERO_REGS, Divider.DIV_RESET, Multiplier.MUL_RESET)

  const INTERRUPT: Exc := 32
  const MISALIGNED: Exc := 16
  const FETCH_FAULT: Exc := 0x11
  const FETCH_PAGE_FAULT: Exc := 0x1c

  /** Load and store faults do not count as retired. */
  const MEMORY_FAULTS: set<int> := {20, 21, 22, 23, 29, 31}

  // ----- Wires -----

  predicate Stall(s: State, i: Inputs) {
    (s.e1.kind.Divide? && !s.div.valid) || (s.e2.kind.Lsu? && !i.memComplete)
  }

  function Exc2(e2: Stage, i: Inputs): Exc {
    if e2.valid && e2.kind.Lsu? && i.memComplete then i.memException else e2.exc
  }

  predicate Squash(s: State, i: Inputs) {
    Exc2(s.e2, i) != 0 || s.squashQ
  }

  /** A load or a multiplication in E1 blocks its destination; a load or a store in E1 blocks
      everything for an instruction of another long kind. */
  predicate Blocked(e1: Stage, instr: Instr, r: Reg) {
    || (e1.kind.Lsu? && (instr.kind.Multiply? || instr.kind.Divide? || instr.kind.Csr?))
    || (((e1.kind.Lsu? && e1.rdValid) || e1.kind.Multiply?) && r == if e1.rdValid then e1.instr.rd else 0)
  }

  predicate Issue(s: State, i: Inputs) {
    && !i.lsuStall && !Stall(s, i) && !s.divPending && !s.csrPending
    && i.fetchValid && !Squash(s, i) && !i.branchCsr
    && !Blocked(s.e1, i.instr, i.instr.ra) && !Blocked(s.e1, i.instr, i.instr.rb) && !Blocked(s.e1, i.instr, i.instr.rd)
  }

  /** The result leaving E2. */
  function Result2(e2: Stage, stall: bool, memResult: Word, mulResult: Word): Word {
    if e2.valid && !stall && e2.kind.Lsu? then memResult
    else if e2.valid && !stall && e2.kind.Multiply? then mulResult
    else e2.result
  }

  function Rd1(e1: Stage): Reg {
    if e1.rdValid then e1.instr.rd else 0
  }

  function RdLater(st: Stage, stall: bool): Reg {
    if st.valid && st.rdValid && !stall then st.instr.rd else 0
  }

  /** The bypass network: the youngest producer wins, and x0 is always zero. */
  function Bypass(regs: Regs, e1: Stage, e2: Stage, wb: Stage, stall: bool, result2: Word, r: Reg): Word {
    if r == 0 then 0
    else if Rd1(e1) == r then e1.result
    else if RdLater(e2, stall) == r then result2
    else if RdLater(wb, stall) == r then wb.result
    else regs[r]
  }

  function Operand(s: State, i: Inputs, r: Reg): Word {
    var stall := Stall(s, i);
    Bypass(s.regs, s.e1, s.e2, s.wb, stall, Result2(s.e2, stall, i.memResult, s.mul.resultE2), r)
  }

  // ----- The clock -----

  function IssueException(i: Inputs): Exc {
    if i.fetchFault then FETCH_FAULT else if i.pageFault then FETCH_PAGE_FAULT
    else if i.misaligned then MISALIGNED else 0
  }

  /** An instruction at which an interrupt is taken goes on with no effect of its own. */
  function NextE1(issue: bool, i: Inputs, a: Word, b: Word, aluResult: Word): Stage {
    if !issue then BUBBLE.(result := aluResult) else
    Stage(true, i.takeInterrupt, if i.takeInterrupt then Plain else i.instr.kind, i.instr.rdValid && !i.takeInterrupt,
          i.instr, a, b, aluResult, IssueException(i))
  }

  function NextE2(e1: Stage, squash: bool, divResult: Word, i: Inputs): Stage {
    if squash then BUBBLE else
    e1.(valid := e1.valid && (e1.intr || e1.exc == 0),
        exc := if e1.intr then INTERRUPT else if e1.exc != 0 then e1.exc else i.csrException,
        result := if e1.kind.Divide? then divResult else if e1.kind.Csr? then i.csrValue else e1.result)
  }

  function NextWb(e2: Stage, exc2: Exc, result2: Word): Stage {
    e2.(valid := e2.valid && exc2 !in MEMORY_FAULTS, rdValid := e2.rdValid && exc2 == 0, exc := exc2, result := result2)
  }

  function NextRegs(regs: Regs, wb: Stage, stall: bool): Regs {
    if RdLater(wb, stall) != 0 then regs[RdLater(wb, stall) := wb.result] else regs
  }

  function DivInput(s: State, i: Inputs): Divider.DivIn {
    if Issue(s, i) && i.instr.kind.Divide?
    then Divider.Begin(Divider.Start(i.instr.kind.dop, Operand(s, i, i.instr.ra), Operand(s, i, i.instr.rb)))
    else Divider.Nothing
  }

  function MulInput(s: State, i: Inputs): Multiplier.MulIn {
    if Issue(s, i) && i.instr.kind.Multiply?
    then Multiplier.Mul(i.instr.kind.mop, Operand(s, i, i.instr.ra), Operand(s, i, i.instr.rb))
    else Multiplier.NoMul
  }

  function NextDivPending(s: State, i: Inputs): bool {
    if Squash(s, i) then false else if Issue(s, i) && i.instr.kind.Divide? then true
    else if s.div.valid then false else s.divPending
  }

  function NextCsrPending(s: State, i: Inputs): bool {
    if Squash(s, i) then false else if Issue(s, i) && i.instr.kind.Csr? && !i.takeInterrupt then true
    else if s.wb.kind.Csr? && !Stall(s, i) then false else s.csrPending
  }

  function AluNow(alu: AluFn, s: State, i: Inputs): Word {
    alu(i.instr, Operand(s, i, i.instr.ra), Operand(s, i, i.instr.rb))
  }

  function Next(alu: AluFn, s: State, i: Inputs): State {
    var stall := Stall(s, i);
    State(
      if stall then s.e1 else NextE1(Issue(s, i), i,
                                  Operand(s, i, i.instr.ra), Operand(s, i, i.instr.rb), AluNow(alu, s, i)),
      if stall then s.e2 else NextE2(s.e1, Squash(s, i), s.div.result, i),
      if stall then s.wb else NextWb(s.e2, Exc2(s.e2, i), Result2(s.e2, stall, i.memResult, s.mul.resultE2)),
      if stall then s.squashQ else Exc2(s.e2, i) != 0,
      NextDivPending(s, i), NextCsrPending(s, i),
      NextRegs(s.regs, s.wb, stall),
      Divider.Next(s.div, DivInput(s, i)), Multiplier.Next(s.mul, stall, MulInput(s, i)))
  }

  // ----- The registers -----

  /** The issue wires of one cycle. */
  datatype Wires = Wires(stall: bool, exc2: Exc, squash: bool, issue: bool, result2: Word, ra: Word, rb: Word)

  predicate Drives(s: State, i: Inputs, w: Wires) {
    && w.stall == Stall(s, i) && w.exc2 == Exc2(s.e2, i) && w.squash == Squash(s, i) && w.issue == Issue(s, i)
    && w.result2 == Result2(s.e2, w.stall, i.memResult, s.mul.resultE2)
    && w.ra == Operand(s, i, i.instr.ra) && w.rb == Operand(s, i, i.instr.rb)
  }

  class Core {
    const alu: AluFn
    const divider: Divider.DividerUnit
    const multiplier: Multiplier.MultiplierUnit
    var e1: Stage
    var e2: Stage
    var wb: Stage
    var squashE1E2: bool
    var divPending: bool
    var csrPending: bool
    var regs: Regs

    ghost function Abs(): State
      reads this, divider, multiplier
    {
      State(e1, e2, wb, squashE1E2, divPending, csrPending, regs, divider.Abs(), multiplier.Abs())
    }

    constructor (alu: AluFn)
      ensures fresh(divider) && fresh(multiplier) && this.alu == alu && Abs() == RESET
    {
      this.alu := alu;
      divider := new Divider.DividerUnit();
      multiplier := new Multiplier.MultiplierUnit();
      e1, e2, wb := BUBBLE, BUBBLE, BUBBLE;
      squashE1E2, divPending, csrPending := false, false, false;
      regs := ZERO_REGS;
    }

    function IssueWires(i: Inputs): (w: Wires)
      reads this, divider, multiplier
      ensures Drives(Abs(), i, w)
    {
      var stall := (e1.kind.Divide? && !divider.valid) || (e2.kind.Lsu? && !i.memComplete);
      var exc2 := Exc2(e2, i);
      var squash := exc2 != 0 || squashE1E2;
      var result2 := Result2(e2, stall, i.memResult, multiplier.resultE2);
      Wires(stall, exc2, squash,
            && !i.lsuStall && !stall && !divPending && !csrPending && i.fetchValid && !squash && !i.branchCsr
            && !Blocked(e1, i.instr, i.instr.ra) && !Blocked(e1, i.instr, i.instr.rb)
            && !Blocked(e1, i.instr, i.instr.rd),
            result2,
            Bypass(regs, e1, e2, wb, stall, result2, i.instr.ra), Bypass(regs, e1, e2, wb, stall, result2, i.instr.rb))
    }

    method ClockPending(i: Inputs, w: Wires)
      modifies this`divPending, this`csrPending
      ensures divPending == if w.squash then false else if w.issue && i.instr.kind.Divide? then true
                            else if divider.valid then false else old(divPending)
      ensures csrPending == if w.squash then false else if w.issue && i.instr.kind.Csr? && !i.takeInterrupt then true
                            else if wb.kind.Csr? && !w.stall then false else old(csrPending)
    {
      if w.squash {
        divPending := false;
      } else if w.issue && i.instr.kind.Divide? {
        divPending := true;
      } else if divider.valid {
        divPending := false;
      }
      if w.squash {
        csrPending := false;
      } else if w.issue && i.instr.kind.Csr? && !i.takeInterrupt {
        csrPending := true;
      } else if wb.kind.Csr? && !w.stall {
        csrPending := false;
      }
    }

    /** Writeback first, then each stage takes from the one before it. */
    method ClockStages(i: Inputs, w: Wires)
      modifies this`e1, this`e2, this`wb, this`squashE1E2, this`regs
      ensures regs == NextRegs(old(regs), old(wb), w.stall)
      ensures w.stall ==> e1 == old(e1) && e2 == old(e2) && wb == old(wb) && squashE1E2 == old(squashE1E2)
      ensures !w.stall ==> wb == NextWb(old(e2), w.exc2, w.result2)
      ensures !w.stall ==> e2 == NextE2(old(e1), w.squash, divider.wbResult, i)
      ensures !w.stall ==> e1 == NextE1(w.issue, i, w.ra, w.rb, alu(i.instr, w.ra, w.rb)) && squashE1E2 == (w.exc2 != 0)
    {
      if wb.valid && wb.rdValid && !w.stall && wb.instr.rd != 0 {
        regs := regs[wb.instr.rd := wb.result];
      }
      if !w.stall {
        wb := NextWb(e2, w.exc2, w.result2);
        e2 := NextE2(e1, w.squash, divider.wbResult, i);
        e1 := NextE1(w.issue, i, w.ra, w.rb, alu(i.instr, w.ra, w.rb));
        squashE1E2 := w.exc2 != 0;
      }
    }

    method ClockUnits(i: Inputs, w: Wires)
      modifies divider, multiplier
      ensures divider.Abs() == Divider.Next(old(divider.Abs()),
        if w.issue && i.instr.kind.Divide?
        then Divider.Begin(Divider.Start(i.instr.kind.dop, w.ra, w.rb)) else Divider.Nothing)
      ensures multiplier.Abs() == Multiplier.Next(old(multiplier.Abs()), w.stall,
        if w.issue && i.instr.kind.Multiply? then Multiplier.Mul(i.instr.kind.mop, w.ra, w.rb) else Multiplier.NoMul)
    {
      var _, _ := divider.Tick(if w.issue && i.instr.kind.Divide?
                               then Divider.Begin(Divider.Start(i.instr.kind.dop, w.ra, w.rb)) else Divider.Nothing);
      var _ := multiplier.Tick(w.stall, if w.issue && i.instr.kind.Multiply?
                                        then Multiplier.Mul(i.instr.kind.mop, w.ra, w.rb) else Multiplier.NoMul);
    }

    method Tick(i: Inputs) returns (w: Wires)
      modifies this, divider, multiplier
      ensures Drives(old(Abs()), i, w)
      ensures Abs() == Next(alu, old(Abs()), i)
    {
      w := IssueWires(i);
      ClockPending(i, w);
      ClockStages(i, w);
      ClockUnits(i, w);
    }
  }
}
