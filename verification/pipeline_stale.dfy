/** A run in which a retired division is wrong: an interrupt is taken at a division, which leaves
    the divider working for nobody, and another division issues in the cycle that completes it. */
module PipelineStale {
  import opened Bits
  import opened MulDivRef
  import opened Pipeline
  import opened PipelineRuns
  import Divider

  const NOTHING := Inputs(false, NO_INSTR, false, false, false, false, false, false, true, 0, 0, 0, 0)
  const DIVU_X0 := Instr(0, 0, Divide(DIVU), true, 0, 0, 0)
  const REMU_X1 := Instr(4, 0, Divide(REMU), true, 1, 0, 0)
  const INTERRUPTED := NOTHING.(fetchValid := true, instr := DIVU_X0, takeInterrupt := true)
  const VICTIM := NOTHING.(fetchValid := true, instr := REMU_X1)

  const ABANDONED := Divider.Start(DIVU, 0, 0)

  /** The divider `k` cycles after the abandoned start. */
  function DivAt(k: nat): Divider.DivState {
    Divider.Wait(Divider.Next(Divider.DIV_RESET, Divider.Begin(ABANDONED)), k)
  }

  /** The interrupted division, then `k` cycles in which fetch has nothing. */
  function Quiet(k: nat): (ins: seq<Inputs>)
    ensures |ins| == k + 1
  {
    if k == 0 then [INTERRUPTED] else Quiet(k - 1) + [NOTHING]
  }

  predicate Vacant(st: Stage) {
    !st.valid && st.exc == 0 && st.kind.Plain? && !st.intr && !st.rdValid
  }

  /** The interrupted instruction, which is in one stage after another. */
  predicate Interrupt(st: Stage) {
    st.valid && st.kind.Plain? && !st.rdValid && st.instr == DIVU_X0
  }

  /** Where it is after `k` cycles. */
  predicate Phase(s: State, k: nat) {
    && !s.csrPending && s.regs == ZERO_REGS && s.div == DivAt(k)
    && (if k == 0 then Interrupt(s.e1) && s.e1.intr else Vacant(s.e1))
    && (if k == 1 then Interrupt(s.e2) && s.e2.exc == INTERRUPT else Vacant(s.e2))
    && (if k == 2 then Interrupt(s.wb) && s.wb.exc == INTERRUPT else Vacant(s.wb))
    && s.squashQ == (k == 2) && (k >= 2 ==> !s.divPending)
  }

  lemma PhaseStep(alu: AluFn, s: State, k: nat)
    requires Phase(s, k) && !(s.e1.kind.Divide? || s.e2.kind.Lsu?)
    ensures Phase(Next(alu, s, NOTHING), k + 1) && LegalCycle(s, NOTHING) && !Issue(s, NOTHING) && !Stall(s, NOTHING)
  {
  }

  lemma OneMore(alu: AluFn, ins: seq<Inputs>, i: Inputs)
    ensures RunOf(alu, ins + [i]) == Clocked(alu, RunOf(alu, ins), i)
    ensures Legal(alu, ins) && LegalCycle(RunOf(alu, ins).s, i) ==> Legal(alu, ins + [i])
  {
    assert (ins + [i])[..|ins|] == ins;
  }

  lemma FirstPhase(alu: AluFn)
    ensures Issue(RESET, INTERRUPTED) && Phase(Next(alu, RESET, INTERRUPTED), 0)
  {
  }

  predicate RunPhase(r: Run, k: nat) {
    Phase(r.s, k) && |r.log| == if k >= 3 then 1 else 0
  }

  lemma FirstCycle(alu: AluFn)
    ensures Legal(alu, [INTERRUPTED]) && RunPhase(RunOf(alu, [INTERRUPTED]), 0)
  {
    OneMore(alu, [], INTERRUPTED);
    FirstPhase(alu);
    assert [] + [INTERRUPTED] == [INTERRUPTED];
  }

  lemma QuietStep(alu: AluFn, r: Run, k: nat)
    requires RunPhase(r, k)
    ensures RunPhase(Clocked(alu, r, NOTHING), k + 1) && LegalCycle(r.s, NOTHING)
  {
    PhaseStep(alu, r.s, k);
  }

  lemma {:induction false} QuietRun(alu: AluFn, k: nat)
    ensures Legal(alu, Quiet(k)) && RunPhase(RunOf(alu, Quiet(k)), k)
  {
    if k == 0 {
      FirstCycle(alu);
    } else {
      QuietRun(alu, k - 1);
      QuietStep(alu, RunOf(alu, Quiet(k - 1)), k - 1);
      OneMore(alu, Quiet(k - 1), NOTHING);
    }
  }

  /** Thirty-two cycles on, the divider completes, with all ones for a division by zero. */
  lemma AbandonedCompletes(n: nat)
    requires n == 32
    ensures Divider.Complete(DivAt(n)) && Divider.Result(DivAt(n)) == 0xFFFF_FFFF
  {
    Divider.BusyWait(Divider.DIV_RESET, ABANDONED, n);
    Divider.ResultIsRef(DivAt(n), ABANDONED);
  }

  /** The victim in E1, with the other's result on the divider's output. */
  lemma VictimIssues(alu: AluFn, s: State, n: nat)
    requires n == 32 && Phase(s, n)
    ensures Issue(s, VICTIM) && LegalCycle(s, VICTIM) && !IssuedRight(s, VICTIM)
    ensures var t := Next(alu, s, VICTIM);
            && t.e1.valid && !t.e1.intr && t.e1.exc == 0 && t.e1.kind == Divide(REMU) && t.e1.rdValid
            && t.e1.instr == REMU_X1 && t.e1.ra == 0 && t.e1.rb == 0
            && Vacant(t.e2) && Vacant(t.wb) && !t.squashQ && t.div.valid && t.div.result == 0xFFFF_FFFF
            && t.regs == ZERO_REGS
  {
    AbandonedCompletes(n);
  }

  predicate Victim(st: Stage) {
    st.valid && !st.intr && st.exc == 0 && st.kind == Divide(REMU) && st.rdValid && st.instr == REMU_X1
    && st.ra == 0 && st.rb == 0 && st.result == 0xFFFF_FFFF
  }

  /** It goes to writeback and into the register file unhindered. */
  lemma VictimRetires(alu: AluFn, s: State)
    requires s.e1.valid && !s.e1.intr && s.e1.exc == 0 && s.e1.kind == Divide(REMU) && s.e1.rdValid
    requires s.e1.instr == REMU_X1 && s.e1.ra == 0 && s.e1.rb == 0
    requires Vacant(s.e2) && Vacant(s.wb) && !s.squashQ && s.div.valid && s.div.result == 0xFFFF_FFFF
    ensures var t := Next(alu, s, NOTHING);
            var u := Next(alu, t, NOTHING);
            && Victim(t.e2) && Vacant(t.e1) && Vacant(t.wb)
            && Victim(u.wb) && Vacant(u.e1) && Vacant(u.e2)
            && Next(alu, u, NOTHING).regs == u.regs[1 := 0xFFFF_FFFF]
            && LegalCycle(s, NOTHING) && LegalCycle(t, NOTHING) && LegalCycle(u, NOTHING)
            && !Stall(s, NOTHING) && !Stall(t, NOTHING) && !Stall(u, NOTHING)
  {
  }

  function StaleRun(n: nat): seq<Inputs> {
    Quiet(n) + [VICTIM] + [NOTHING] + [NOTHING] + [NOTHING]
  }

  /** A run that ends with a wrong remainder of 0 by 0 in the log and in the register file. */
  predicate EndsWrong(r: Run) {
    && |r.log| == 2 && r.log[1].instr == REMU_X1 && r.log[1].exc == 0 && !Right(r.log[1])
    && r.log[1].result == 0xFFFF_FFFF == r.s.regs[1] && DivRef(REMU, r.log[1].ra, r.log[1].rb) == 0
  }

  lemma LastCycles(alu: AluFn, r: Run)
    requires r.s.e1.valid && !r.s.e1.intr && r.s.e1.exc == 0 && r.s.e1.kind == Divide(REMU) && r.s.e1.rdValid
    requires r.s.e1.instr == REMU_X1 && r.s.e1.ra == 0 && r.s.e1.rb == 0 && |r.log| == 1
    requires Vacant(r.s.e2) && Vacant(r.s.wb) && !r.s.squashQ && r.s.div.valid && r.s.div.result == 0xFFFF_FFFF
    ensures EndsWrong(Clocked(alu, Clocked(alu, Clocked(alu, r, NOTHING), NOTHING), NOTHING))
  {
    VictimRetires(alu, r.s);
  }

  /** Thirty-two cycles after an interrupted division by zero, the remainder of 0 by 0 issues, and
      retires as 0xFFFFFFFF, without a fault, and is written; it is 0. */
  lemma WrongDivisionRetires(alu: AluFn, n: nat)
    requires n == 32
    ensures Legal(alu, StaleRun(n)) && EndsWrong(RunOf(alu, StaleRun(n)))
  {
    var q := Quiet(n);
    var s := RunOf(alu, q).s;
    QuietRun(alu, n);
    VictimIssues(alu, s, n);
    VictimRetires(alu, Next(alu, s, VICTIM));
    LastCycles(alu, Clocked(alu, RunOf(alu, q), VICTIM));
    OneMore(alu, q, VICTIM);
    OneMore(alu, q + [VICTIM], NOTHING);
    OneMore(alu, q + [VICTIM] + [NOTHING], NOTHING);
    OneMore(alu, q + [VICTIM] + [NOTHING] + [NOTHING], NOTHING);
  }
}
