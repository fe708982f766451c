/** The pipeline is invisible: what reaches writeback without a fault was issued with the operands
    that sequential in-order execution would have read. */
module PipelineRuns {
  import opened Bits
  import opened MulDivRef
  import opened Pipeline
  import Divider
  import Multiplier

  // ----- Sequential execution -----

  function Read(regs: Regs, r: Reg): Word {
    if r == 0 then 0 else regs[r]
  }

  /** One instruction of the reference machine. `outside` is the value of a load or a CSR
      instruction, which other units provide, and of a division that is not `right`, which the
      divider answered with another one's result; an instruction with a fault writes nothing. */
  datatype Step = Step(instr: Instr, outside: Word, fault: bool, right: bool)

  function Value(alu: AluFn, t: Step, a: Word, b: Word): Word {
    match t.instr.kind
    case Plain => alu(t.instr, a, b)
    case Divide(op) => if t.right then DivRef(op, a, b) else t.outside
    case Multiply(op) => MulRef(op, a, b)
    case _ => t.outside
  }

  function Execute(alu: AluFn, regs: Regs, t: Step): Regs {
    if t.fault || !t.instr.rdValid || t.instr.rd == 0 then regs else
    regs[t.instr.rd := Value(alu, t, Read(regs, t.instr.ra), Read(regs, t.instr.rb))]
  }

  function Sequential(alu: AluFn, ts: seq<Step>): Regs {
    if ts == [] then ZERO_REGS else Execute(alu, Sequential(alu, ts[..|ts| - 1]), ts[|ts| - 1])
  }

  // ----- What a stage holds -----

  predicate Writes(st: Stage) {
    st.valid && st.rdValid && st.instr.rd != 0
  }

  function Written(regs: Regs, st: Stage): Regs {
    if Writes(st) then regs[st.instr.rd := st.result] else regs
  }

  predicate Reads(st: Stage, regs: Regs) {
    st.ra == Read(regs, st.instr.ra) && st.rb == Read(regs, st.instr.rb)
  }

  /** The result is not in the stage's own register while the instruction is in E2. */
  predicate Late(st: Stage) {
    st.kind.Lsu? || st.kind.Multiply?
  }

  predicate ResultOk(alu: AluFn, st: Stage) {
    match st.kind
    case Plain => st.result == alu(st.instr, st.ra, st.rb)
    case Multiply(op) => st.result == MulRef(op, st.ra, st.rb)
    case _ => true
  }

  /** A division's result is that of its operands. */
  predicate Right(st: Stage) {
    st.kind.Divide? ==> st.result == DivRef(st.kind.dop, st.ra, st.rb)
  }

  /** The flags are those of the instruction. */
  predicate Own(st: Stage) {
    st.kind == st.instr.kind && st.rdValid == st.instr.rdValid
  }

  /** Not a bubble. */
  predicate Present(st: Stage) {
    st.valid || st.exc != 0
  }

  // ----- The invariant, stage by stage -----

  ghost predicate Dividing(div: Divider.DivState, d: Divider.Start) {
    exists n: nat :: Divider.Busy(div, d, n)
  }

  /** The divider will deliver, or is delivering, a result that is right or not as `right` says. */
  ghost predicate DivideReady(div: Divider.DivState, op: DivOp, a: Word, b: Word, right: bool) {
    if div.valid then right == (div.result == DivRef(op, a, b))
    else right && Dividing(div, Divider.Start(op, a, b))
  }

  predicate WbOk(alu: AluFn, s: State) {
    && (s.wb.valid && s.wb.exc == 0 ==> Own(s.wb) && Reads(s.wb, s.regs) && ResultOk(alu, s.wb))
    && (s.wb.exc != 0 ==> !s.wb.rdValid)
  }

  predicate E2Ok(alu: AluFn, s: State) {
    && (s.e2.valid && s.e2.exc == 0 ==>
        Own(s.e2) && Reads(s.e2, Written(s.regs, s.wb)) && (s.e2.kind.Plain? ==> ResultOk(alu, s.e2)))
    && (s.e2.valid && s.e2.kind.Lsu? ==> s.e2.exc == 0)
  }

  /** The multiplier moves with the stages. */
  predicate MulOk(mul: Multiplier.MulState, e1: Stage, e2: Stage) {
    && (e1.kind.Multiply? ==> mul == Multiplier.Loaded(mul, Multiplier.Mul(e1.kind.mop, e1.ra, e1.rb)))
    && (e2.kind.Multiply? ==> mul.resultE2 == MulRef(e2.kind.mop, e2.ra, e2.rb))
  }

  /** E1's operands are right unless the instruction ahead has faulted, and then E1 is lost. They
      never come from a result that is not there yet. */
  predicate E1Reads(s: State) {
    s.e1.valid && s.e2.exc == 0 ==>
      && Reads(s.e1, Written(Written(s.regs, s.wb), s.e2))
      && (Late(s.e2) && Writes(s.e2) ==> s.e2.instr.rd != s.e1.instr.ra && s.e2.instr.rd != s.e1.instr.rb)
  }

  predicate E1Ok(alu: AluFn, e1: Stage) {
    && (!e1.valid ==> !e1.rdValid && e1.kind.Plain? && !e1.intr && e1.exc == 0)
    && (e1.intr ==> e1.kind.Plain? && !e1.rdValid)
    && (e1.valid && !e1.intr ==> Own(e1))
    && (e1.valid ==> e1.result == alu(e1.instr, e1.ra, e1.rb))
  }

  /** While a division or a CSR instruction is in E1, nothing is issued behind it. */
  ghost predicate LongOk(s: State, right: bool) {
    && (s.e1.kind.Divide? ==> !s.e2.kind.Lsu? && (s.divPending || s.e2.exc != 0)
                              && DivideReady(s.div, s.e1.kind.dop, s.e1.ra, s.e1.rb, right))
    && (s.e1.kind.Csr? ==> !s.e2.kind.Lsu? && (s.csrPending || s.e2.exc != 0))
  }

  predicate SquashOk(s: State) {
    s.squashQ ==> !s.e1.valid && !Present(s.e2) && !s.e2.kind.Lsu?
  }

  /** `right` tells of the division in E1, if there is one. */
  ghost predicate Ok(alu: AluFn, s: State, right: bool) {
    && WbOk(alu, s) && E2Ok(alu, s) && MulOk(s.mul, s.e1, s.e2)
    && E1Reads(s) && E1Ok(alu, s.e1) && LongOk(s, right) && SquashOk(s)
  }

  /** The CSR file raises exceptions only for the instruction in E1, and not for a load or a store. */
  predicate LegalCycle(s: State, i: Inputs) {
    i.csrException != 0 ==> s.e1.valid && !s.e1.kind.Lsu?
  }

  /** A division issued now will get its own result, or the same from an abandoned one. */
  predicate IssuedRight(s: State, i: Inputs) {
    i.instr.kind.Divide? && Divider.Complete(s.div) ==>
      Divider.Result(s.div) == DivRef(i.instr.kind.dop, Operand(s, i, i.instr.ra), Operand(s, i, i.instr.rb))
  }

  function NextRight(s: State, i: Inputs, right: bool): bool {
    if Issue(s, i) && i.instr.kind.Divide? then IssuedRight(s, i) else right
  }

  // ----- One cycle -----

  lemma WbStep(alu: AluFn, s: State, i: Inputs)
    requires WbOk(alu, s) && E2Ok(alu, s) && MulOk(s.mul, s.e1, s.e2)
    ensures WbOk(alu, Next(alu, s, i))
  {
  }

  lemma E2Step(alu: AluFn, s: State, i: Inputs, right: bool)
    requires Ok(alu, s, right) && LegalCycle(s, i)
    ensures E2Ok(alu, Next(alu, s, i))
  {
  }

  lemma MulStep(mul: Multiplier.MulState, e1: Stage, e2: Stage, squash: bool, divResult: Word,
                i: Inputs, issue: bool, a: Word, b: Word, v: Word)
    requires MulOk(mul, e1, e2)
    ensures var x := if issue && i.instr.kind.Multiply? then Multiplier.Mul(i.instr.kind.mop, a, b)
                     else Multiplier.NoMul;
            MulOk(Multiplier.Next(mul, false, x), NextE1(issue, i, a, b, v), NextE2(e1, squash, divResult, i))
  {
    if e1.kind.Multiply? {
      Multiplier.ChosenIsRef(mul, e1.kind.mop, e1.ra, e1.rb);
    }
  }

  lemma E1Step(alu: AluFn, s: State, i: Inputs)
    requires E1Ok(alu, s.e1)
    ensures E1Ok(alu, Next(alu, s, i).e1)
  {
  }

  lemma SquashStep(alu: AluFn, s: State, i: Inputs, right: bool)
    requires Ok(alu, s, right) && LegalCycle(s, i)
    ensures SquashOk(Next(alu, s, i))
  {
  }

  /** The bypass network reads the registers as they will be once the three stages have written. */
  lemma BypassReads(regs: Regs, e1: Stage, e2: Stage, wb: Stage, result2: Word, r: Reg)
    requires e1.rdValid ==> e1.valid
    ensures Bypass(regs, e1, e2, wb, false, result2, r)
         == Read(Written(Written(Written(regs, wb), e2.(result := result2)), e1), r)
  {
  }

  /** With E1 holding no division and no CSR instruction, an instruction issued now reads what it
      should once the stages have moved. */
  lemma IssueReads(alu: AluFn, s: State, i: Inputs, r: Reg)
    requires E1Ok(alu, s.e1) && Issue(s, i) && !s.e1.kind.Divide? && !s.e1.kind.Csr?
    ensures var t := Next(alu, s, i);
            t.e2.exc == 0 ==> Operand(s, i, r) == Read(Written(Written(t.regs, t.wb), t.e2), r)
  {
    var result2 := Result2(s.e2, false, i.memResult, s.mul.resultE2);
    var t := Next(alu, s, i);
    BypassReads(s.regs, s.e1, s.e2, s.wb, result2, r);
    assert Written(t.regs, t.wb) == Written(Written(s.regs, s.wb), s.e2.(result := result2));
  }

  /** Nothing is issued behind a division or a CSR instruction. */
  lemma LongBlocks(s: State, i: Inputs, right: bool)
    requires LongOk(s, right) && Issue(s, i)
    ensures !s.e1.kind.Divide? && !s.e1.kind.Csr?
  {
  }

  lemma E1ReadsStep(alu: AluFn, s: State, i: Inputs, right: bool)
    requires Ok(alu, s, right)
    ensures E1Reads(Next(alu, s, i))
  {
    if Issue(s, i) {
      LongBlocks(s, i, right);
      IssueReads(alu, s, i, i.instr.ra);
      IssueReads(alu, s, i, i.instr.rb);
    }
  }

  /** A division in progress goes on, and ends with its result. */
  lemma DivideGoesOn(div: Divider.DivState, d: Divider.Start)
    requires !div.valid && Dividing(div, d)
    ensures DivideReady(Divider.Next(div, Divider.Nothing), d.op, d.a, d.b, true)
  {
    var n: nat :| Divider.Busy(div, d, n);
    if n > 0 {
      Divider.ShiftBusy(div, d, n);
      assert Divider.Busy(Divider.Next(div, Divider.Nothing), d, n - 1);
    } else {
      Divider.ResultIsRef(div, d);
    }
  }

  /** The exact condition at the divider: a division is about to get its own result if and only
      if it does not start in the cycle that completes another, or the other's is the same. */
  lemma DivideBeginsIff(div: Divider.DivState, d: Divider.Start, right: bool)
    ensures DivideReady(Divider.Next(div, Divider.Begin(d)), d.op, d.a, d.b, right)
            <==> right == (Divider.Complete(div) ==> Divider.Result(div) == DivRef(d.op, d.a, d.b))
  {
    Divider.LoadedBusy(div, d);
  }

  lemma LongStep(alu: AluFn, s: State, i: Inputs, right: bool)
    requires Ok(alu, s, right)
    ensures LongOk(Next(alu, s, i), NextRight(s, i, right))
  {
    if Issue(s, i) && i.instr.kind.Divide? {
      var d := Divider.Start(i.instr.kind.dop, Operand(s, i, i.instr.ra), Operand(s, i, i.instr.rb));
      DivideBeginsIff(s.div, d, IssuedRight(s, i));
    }
    if s.e1.kind.Divide? && !s.div.valid {
      DivideGoesOn(s.div, Divider.Start(s.e1.kind.dop, s.e1.ra, s.e1.rb));
    }
  }

  lemma OkStep(alu: AluFn, s: State, i: Inputs, right: bool)
    requires Ok(alu, s, right) && LegalCycle(s, i)
    ensures Ok(alu, Next(alu, s, i), NextRight(s, i, right))
  {
    WbStep(alu, s, i);
    E2Step(alu, s, i, right);
    E1ReadsStep(alu, s, i, right);
    E1Step(alu, s, i);
    LongStep(alu, s, i, right);
    SquashStep(alu, s, i, right);
    if !Stall(s, i) {
      MulStep(s.mul, s.e1, s.e2, Squash(s, i), s.div.result, i, Issue(s, i),
              Operand(s, i, i.instr.ra), Operand(s, i, i.instr.rb), AluNow(alu, s, i));
    }
  }

  // ----- Runs -----

  /** An instruction issued, and whether, if it is a division, its result will be right. */
  datatype Issued = Issued(instr: Instr, right: bool)

  /** The exception due to an instruction, 0 for none, and the value due to it from outside. */
  datatype Due = Due(exc: int, value: Word)

  /** At issue: 32 for an interrupt taken at it, or else 0x11 for a fetch fault, or else 0x1c for a
      fetch page fault, or else 0x10 for a misaligned branch target. */
  function DueAtIssue(i: Inputs): Due {
    Due(if i.takeInterrupt then 32 else if i.fetchFault then 0x11 else if i.pageFault then 0x1c
        else if i.misaligned then 0x10 else 0, 0)
  }

  /** When it leaves E1: the CSR file's exception, if it has none yet, and the CSR file's or the
      divider's value. */
  function DueInE1(due: Due, kind: Kind, divResult: Word, i: Inputs): Due {
    Due(if due.exc != 0 then due.exc else i.csrException,
        if kind.Csr? then i.csrValue else if kind.Divide? then divResult else 0)
  }

  /** When it leaves E2: the memory's exception and value for a load or a store without one. */
  function DueInE2(due: Due, kind: Kind, i: Inputs): Due {
    if kind.Lsu? && due.exc == 0 then Due(i.memException, i.memResult) else due
  }

  /** What is due to the instructions in E1, E2 and writeback. */
  datatype Dues = Dues(e1: Due, e2: Due, wb: Due)

  const NO_DUE := Due(0, 0)

  function NextDues(s: State, dues: Dues, i: Inputs): Dues {
    if Stall(s, i) then dues else
    Dues(DueAtIssue(i), DueInE1(dues.e1, s.e1.instr.kind, s.div.result, i), DueInE2(dues.e2, s.e2.instr.kind, i))
  }

  /** The instructions that have left writeback, with what was due to them, and the program order:
      every instruction issued, less the youngest whenever the one ahead of it faults. `right`
      tells of the division last issued. */
  datatype Run = Run(s: State, log: seq<Stage>, outs: seq<Due>, program: seq<Issued>, right: bool, dues: Dues)

  function Front<T>(xs: seq<T>): seq<T> {
    if xs == [] then [] else xs[..|xs| - 1]
  }

  /** An interrupt turns the instruction it is taken at into one with no effect. */
  function EntryOf(s: State, i: Inputs): Issued {
    Issued(i.instr, i.takeInterrupt || IssuedRight(s, i))
  }

  /** The instruction in E2 leaves it with an exception due. */
  predicate FaultAhead(r: Run, i: Inputs) {
    Present(r.s.e2) && DueInE2(r.dues.e2, r.s.e2.instr.kind, i).exc != 0
  }

  function Clocked(alu: AluFn, r: Run, i: Inputs): Run {
    var moves := !Stall(r.s, i);
    Run(Next(alu, r.s, i),
        if moves && Present(r.s.wb) then r.log + [r.s.wb] else r.log,
        if moves && Present(r.s.wb) then r.outs + [r.dues.wb] else r.outs,
        (if moves && FaultAhead(r, i) && r.s.e1.valid then Front(r.program) else r.program)
        + (if Issue(r.s, i) then [EntryOf(r.s, i)] else []),
        NextRight(r.s, i, r.right), NextDues(r.s, r.dues, i))
  }

  function RunOf(alu: AluFn, ins: seq<Inputs>): Run {
    if ins == [] then Run(RESET, [], [], [], true, Dues(NO_DUE, NO_DUE, NO_DUE)) else
    Clocked(alu, RunOf(alu, ins[..|ins| - 1]), ins[|ins| - 1])
  }

  predicate Legal(alu: AluFn, ins: seq<Inputs>) {
    ins == [] || (Legal(alu, ins[..|ins| - 1]) && LegalCycle(RunOf(alu, ins[..|ins| - 1]).s, ins[|ins| - 1]))
  }

  function StepOf(st: Stage, due: Due): Step {
    Step(st.instr, due.value, due.exc != 0, Right(st))
  }

  function Steps(log: seq<Stage>, outs: seq<Due>): (r: seq<Step>)
    requires |log| == |outs|
    ensures |r| == |log|
  {
    seq(|log|, k requires 0 <= k < |log| => StepOf(log[k], outs[k]))
  }

  function Retired(st: Stage): Issued {
    Issued(st.instr, Right(st))
  }

  function Entries(log: seq<Stage>): (r: seq<Issued>)
    ensures |r| == |log|
  {
    seq(|log|, k requires 0 <= k < |log| => Retired(log[k]))
  }

  function Held(st: Stage): seq<Issued> {
    if Present(st) then [Retired(st)] else []
  }

  function HeldE1(e1: Stage, right: bool): (r: seq<Issued>)
    ensures |r| == if e1.valid then 1 else 0
  {
    if e1.valid then [Issued(e1.instr, e1.kind.Divide? ==> right)] else []
  }

  function InFlight(s: State, right: bool): seq<Issued> {
    Held(s.wb) + Held(s.e2) + HeldE1(s.e1, right)
  }

  /** The stages carry what is due to them. */
  predicate DuesOk(s: State, dues: Dues) {
    && (s.e1.valid ==> dues.e1.exc == if s.e1.intr then 32 else s.e1.exc)
    && (Present(s.e2) ==> dues.e2.exc == s.e2.exc)
    && (s.e2.valid && s.e2.exc == 0 && (s.e2.kind.Csr? || s.e2.kind.Divide?) ==> s.e2.result == dues.e2.value)
    && (Present(s.wb) ==> Accounted(s.wb, dues.wb))
  }

  /** An instruction in writeback has the exception due to it, the value due to it from outside if
      it takes one, and is not valid after a load or store fault. */
  predicate Accounted(st: Stage, due: Due) {
    && st.exc == due.exc && (st.exc == 0 ==> st.valid) && (st.exc in {20, 21, 22, 23, 29, 31} ==> !st.valid)
    && (st.exc == 0 && (st.kind.Csr? || st.kind.Lsu? || st.kind.Divide?) ==> st.result == due.value)
  }

  lemma DuesStep(alu: AluFn, s: State, dues: Dues, i: Inputs)
    requires DuesOk(s, dues) && E1Ok(alu, s.e1) && E2Ok(alu, s) && LegalCycle(s, i)
    ensures DuesOk(Next(alu, s, i), NextDues(s, dues, i))
  {
  }

  /** The k-th instruction retired had the exception due to it and, if that is none, the operands of
      sequential execution and the value of those operands. */
  predicate Faithful(alu: AluFn, log: seq<Stage>, outs: seq<Due>, k: nat)
    requires k < |log| == |outs|
  {
    && Accounted(log[k], outs[k])
    && (log[k].exc == 0 ==> Reads(log[k], Sequential(alu, Steps(log[..k], outs[..k])))
                            && log[k].result == Value(alu, StepOf(log[k], outs[k]), log[k].ra, log[k].rb))
  }

  ghost predicate Conforms(alu: AluFn, r: Run) {
    && |r.log| == |r.outs| && r.s.regs == Sequential(alu, Steps(r.log, r.outs))
    && (forall k :: 0 <= k < |r.log| ==> Faithful(alu, r.log, r.outs, k))
  }

  lemma ValueOk(alu: AluFn, wb: Stage, due: Due)
    requires wb.exc == 0 && Accounted(wb, due) && Own(wb) && ResultOk(alu, wb)
    ensures wb.result == Value(alu, StepOf(wb, due), wb.ra, wb.rb)
  {
  }

  lemma Retire(alu: AluFn, regs: Regs, wb: Stage, due: Due)
    requires Present(wb) && (wb.exc != 0 ==> !wb.rdValid) && Accounted(wb, due)
    requires wb.exc == 0 ==> Own(wb) && Reads(wb, regs) && ResultOk(alu, wb)
    ensures NextRegs(regs, wb, false) == Execute(alu, regs, StepOf(wb, due))
  {
    if wb.exc == 0 {
      ValueOk(alu, wb, due);
    }
  }

  lemma StepsAppend(log: seq<Stage>, outs: seq<Due>, st: Stage, due: Due)
    requires |log| == |outs|
    ensures Steps(log + [st], outs + [due]) == Steps(log, outs) + [StepOf(st, due)]
  {
  }

  lemma SequentialAppend(alu: AluFn, ts: seq<Step>, t: Step)
    ensures Sequential(alu, ts + [t]) == Execute(alu, Sequential(alu, ts), t)
  {
    assert (ts + [t])[..|ts|] == ts;
  }

  lemma FaithfulAppend(alu: AluFn, log: seq<Stage>, outs: seq<Due>, st: Stage, due: Due, k: nat)
    requires k < |log| == |outs| && Faithful(alu, log, outs, k)
    ensures Faithful(alu, log + [st], outs + [due], k)
  {
    assert (log + [st])[..k] == log[..k] && (outs + [due])[..k] == outs[..k];
  }

  lemma ConformsStep(alu: AluFn, r: Run, i: Inputs)
    requires WbOk(alu, r.s) && DuesOk(r.s, r.dues) && Conforms(alu, r)
    ensures Conforms(alu, Clocked(alu, r, i))
  {
    var wb, due := r.s.wb, r.dues.wb;
    if !Stall(r.s, i) && Present(wb) {
      var log, outs := r.log + [wb], r.outs + [due];
      Retire(alu, r.s.regs, wb, due);
      StepsAppend(r.log, r.outs, wb, due);
      SequentialAppend(alu, Steps(r.log, r.outs), StepOf(wb, due));
      if wb.exc == 0 {
        ValueOk(alu, wb, due);
      }
      assert log[..|r.log|] == r.log && outs[..|r.log|] == r.outs;
      forall k | 0 <= k < |log| ensures Faithful(alu, log, outs, k) {
        if k < |r.log| {
          FaithfulAppend(alu, r.log, r.outs, wb, due, k);
        }
      }
    }
  }

  /** What the stages hold after a cycle that moves. */
  lemma StagesMove(alu: AluFn, s: State, i: Inputs, right: bool)
    requires E1Ok(alu, s.e1) && E2Ok(alu, s) && LongOk(s, right) && LegalCycle(s, i) && !Stall(s, i)
    ensures var t := Next(alu, s, i);
            && Held(t.wb) == Held(s.e2) && Held(t.e2) == (if Squash(s, i) then [] else HeldE1(s.e1, right))
            && HeldE1(t.e1, NextRight(s, i, right)) == if Issue(s, i) then [EntryOf(s, i)] else []
  {
  }

  lemma FlightMoves<T>(log: seq<T>, w: seq<T>, m: seq<T>, e: seq<T>, kill: bool, more: seq<T>)
    requires kill ==> |e| == 1
    ensures (if kill then Front(log + (w + m + e)) else log + (w + m + e)) + more
         == (log + w) + (m + (if kill then [] else e) + more)
  {
  }

  predicate Ordered(r: Run) {
    r.program == Entries(r.log) + InFlight(r.s, r.right)
  }

  lemma EntriesAppend(log: seq<Stage>, st: Stage)
    ensures Entries(log + [st]) == Entries(log) + [Retired(st)]
  {
  }

  /** What is in E1 is squashed exactly by a fault ahead of it. */
  lemma SquashedByFault(alu: AluFn, r: Run, i: Inputs)
    requires Ok(alu, r.s, r.right) && DuesOk(r.s, r.dues) && !Stall(r.s, i) && r.s.e1.valid
    ensures Squash(r.s, i) <==> FaultAhead(r, i)
  {
  }

  lemma ProgramMoves(alu: AluFn, r: Run, i: Inputs)
    requires Ok(alu, r.s, r.right) && DuesOk(r.s, r.dues) && LegalCycle(r.s, i) && Ordered(r) && !Stall(r.s, i)
    ensures Ordered(Clocked(alu, r, i))
  {
    var s, e := r.s, HeldE1(r.s.e1, r.right);
    StagesMove(alu, s, i, r.right);
    EntriesAppend(r.log, s.wb);
    FlightMoves(Entries(r.log), Held(s.wb), Held(s.e2), e, Squash(s, i) && s.e1.valid,
                if Issue(s, i) then [EntryOf(s, i)] else []);
    if s.e1.valid {
      SquashedByFault(alu, r, i);
    }
    assert Entries(r.log) + [] == Entries(r.log);
    assert Squash(s, i) && !s.e1.valid ==> e == [];
  }

  lemma OrderStep(alu: AluFn, r: Run, i: Inputs)
    requires Ok(alu, r.s, r.right) && DuesOk(r.s, r.dues) && LegalCycle(r.s, i) && Ordered(r)
    ensures Ordered(Clocked(alu, r, i))
  {
    if Stall(r.s, i) {
      assert !Issue(r.s, i);
      assert r.program + [] == r.program;
    } else {
      ProgramMoves(alu, r, i);
    }
  }

  lemma {:induction false} RunKeeps(alu: AluFn, ins: seq<Inputs>)
    requires Legal(alu, ins)
    ensures var r := RunOf(alu, ins); Ok(alu, r.s, r.right) && DuesOk(r.s, r.dues) && Conforms(alu, r) && Ordered(r)
  {
    if ins != [] {
      var r, i := RunOf(alu, ins[..|ins| - 1]), ins[|ins| - 1];
      RunKeeps(alu, ins[..|ins| - 1]);
      OkStep(alu, r.s, i, r.right);
      DuesStep(alu, r.s, r.dues, i);
      ConformsStep(alu, r, i);
      OrderStep(alu, r, i);
    }
  }

  // ----- Abandoned divisions -----

  /** The divider works only for the instruction in E1. */
  predicate NoOrphan(s: State) {
    s.div.busy ==> s.e1.kind.Divide? && !s.div.valid
  }

  lemma NoOrphanStep(alu: AluFn, s: State, i: Inputs)
    requires NoOrphan(s) && !(Issue(s, i) && i.instr.kind.Divide? && i.takeInterrupt)
    ensures NoOrphan(Next(alu, s, i)) && (Issue(s, i) ==> !Divider.Complete(s.div))
  {
  }

  /** No interrupt is taken at a division that issues. */
  predicate Polite(alu: AluFn, ins: seq<Inputs>) {
    ins == [] ||
    var s, i := RunOf(alu, ins[..|ins| - 1]).s, ins[|ins| - 1];
    Polite(alu, ins[..|ins| - 1]) && !(Issue(s, i) && i.instr.kind.Divide? && i.takeInterrupt)
  }

  predicate AllRight(program: seq<Issued>) {
    forall k :: 0 <= k < |program| ==> program[k].right
  }

  /** Only an interrupt taken at a division can leave one abandoned: without that, no division is
      ever issued in the cycle that completes another, and every result is right. */
  lemma {:induction false} PoliteIsRight(alu: AluFn, ins: seq<Inputs>)
    requires Polite(alu, ins)
    ensures NoOrphan(RunOf(alu, ins).s) && AllRight(RunOf(alu, ins).program)
  {
    if ins != [] {
      PoliteIsRight(alu, ins[..|ins| - 1]);
      NoOrphanStep(alu, RunOf(alu, ins[..|ins| - 1]).s, ins[|ins| - 1]);
    }
  }

  // ----- The main results -----

  /** What an instruction of the program order, with what was due to it, does in execution. */
  function ProgramStep(e: Issued, due: Due): Step {
    Step(e.instr, due.value, due.exc != 0, e.right)
  }

  function ProgramSteps(r: Run): (ts: seq<Step>)
    requires |r.outs| <= |r.program|
    ensures |ts| == |r.outs|
  {
    seq(|r.outs|, k requires 0 <= k < |r.outs| => ProgramStep(r.program[k], r.outs[k]))
  }

  /** In every run: instructions retire in program order, none lost and none twice, each with exactly
      the exception due to it; the register file is what executing them one after another gives,
      where those with an exception write nothing; each of the others was issued with the operands
      that execution reads at its place and has their value; and a division among them has the
      result of its operands if and only if, when it was issued, the divider was not just
      completing another, or with that same result. */
  lemma PipelineIsSequential(alu: AluFn, ins: seq<Inputs>)
    requires Legal(alu, ins)
    ensures var r := RunOf(alu, ins);
            && |r.log| == |r.outs| <= |r.program| <= |r.log| + 3
            && Steps(r.log, r.outs) == ProgramSteps(r) && r.s.regs == Sequential(alu, ProgramSteps(r))
            && (forall k :: 0 <= k < |r.log| ==> r.program[k] == Issued(r.log[k].instr, Right(r.log[k])))
            && (forall k :: 0 <= k < |r.log| ==> Faithful(alu, r.log, r.outs, k))
  {
    RunKeeps(alu, ins);
    var r := RunOf(alu, ins);
    forall k | 0 <= k < |r.log| ensures r.program[k] == Retired(r.log[k]) {
      assert Entries(r.log)[k] == Retired(r.log[k]);
    }
    assert Steps(r.log, r.outs) == ProgramSteps(r);
  }

  /** With no interrupt taken at an issuing division, all retired divisions are right, and the
      register file is that of execution with the simulator's arithmetic throughout. */
  lemma PoliteIsSequential(alu: AluFn, ins: seq<Inputs>)
    requires Legal(alu, ins) && Polite(alu, ins)
    ensures var r := RunOf(alu, ins);
            && |r.log| == |r.outs| <= |r.program| && r.s.regs == Sequential(alu, ProgramSteps(r))
            && (forall k :: 0 <= k < |r.log| ==> Right(r.log[k]) && r.program[k].right)
  {
    PipelineIsSequential(alu, ins);
    PoliteIsRight(alu, ins);
    var r := RunOf(alu, ins);
    forall k | 0 <= k < |r.log| ensures Right(r.log[k]) {
      assert r.program[k].right;
    }
  }

  /** Only what fetch offers issues, and not while the load/store unit stalls or the CSR file redirects. */
  lemma OnlyOffersIssue(alu: AluFn, r: Run, i: Inputs)
    ensures !i.fetchValid || i.lsuStall || i.branchCsr ==>
            Clocked(alu, r, i).program == r.program || Clocked(alu, r, i).program == Front(r.program)
  {
    assert r.program + [] == r.program && Front(r.program) + [] == Front(r.program);
  }

  /** Once a fault leaves E2, program order ends at the faulting instruction, which is then in
      writeback: what was issued behind it is gone and nothing is issued in this cycle or the
      next, so nothing younger writes a register. */
  lemma FaultEndsProgram(alu: AluFn, ins: seq<Inputs>, i: Inputs, i': Inputs)
    requires Legal(alu, ins) && LegalCycle(RunOf(alu, ins).s, i)
    requires var s := RunOf(alu, ins).s; !Stall(s, i) && Exc2(s.e2, i) != 0
    ensures var s, r := RunOf(alu, ins).s, Clocked(alu, RunOf(alu, ins), i);
            && r.program == Entries(r.log) + [Retired(s.e2)] && r.s.wb.instr == s.e2.instr && r.s.wb.exc != 0
            && !r.s.wb.rdValid && !r.s.e1.valid && !Present(r.s.e2)
            && Clocked(alu, r, i').program == r.program && Clocked(alu, r, i').s.regs == r.s.regs
  {
    RunKeeps(alu, ins);
    var r := RunOf(alu, ins);
    OkStep(alu, r.s, i, r.right);
    OrderStep(alu, r, i);
    FaultClears(alu, r.s, i, r.right);
    var r' := Clocked(alu, r, i);
    assert InFlight(r'.s, r'.right) == Held(r'.s.wb);
    AfterFault(alu, r'.s, i');
    assert r'.program + [] == r'.program;
  }

  lemma FaultClears(alu: AluFn, s: State, i: Inputs, right: bool)
    requires Ok(alu, s, right) && LegalCycle(s, i) && !Stall(s, i) && Exc2(s.e2, i) != 0
    ensures var t := Next(alu, s, i);
            && Retired(t.wb) == Retired(s.e2) && Present(t.wb) && t.wb.exc != 0 && !t.wb.rdValid
            && !t.e1.valid && !t.e1.kind.Divide? && t.e2 == BUBBLE && t.squashQ
  {
    StagesMove(alu, s, i, right);
  }

  lemma AfterFault(alu: AluFn, s: State, i: Inputs)
    requires !s.e1.valid && !s.e1.kind.Divide? && s.e2 == BUBBLE && s.squashQ && !s.wb.rdValid
    ensures !Issue(s, i) && Next(alu, s, i).regs == s.regs
  {
  }
}
