/** The pipeline never locks up: the pending flags are always backed by something that clears
    them, so an instruction that waits at the issue point gets through in bounded time. */
module PipelineProgress {
  import opened Bits
  import opened Pipeline
  import opened PipelineRuns
  import Divider

  /** A pending flag stands for an instruction still in a stage, or for a fault about to squash. */
  predicate Backed(s: State) {
    && (s.csrPending ==> s.e1.kind.Csr? || s.e2.kind.Csr? || s.wb.kind.Csr?)
    && (s.divPending ==> s.e1.kind.Divide? || s.e1.intr || s.e2.exc != 0)
  }

  lemma BackedStep(alu: AluFn, s: State, i: Inputs, right: bool)
    requires Ok(alu, s, right) && Backed(s)
    ensures Backed(Next(alu, s, i))
  {
  }

  lemma {:induction false} RunBacked(alu: AluFn, ins: seq<Inputs>)
    requires Legal(alu, ins)
    ensures Ok(alu, RunOf(alu, ins).s, RunOf(alu, ins).right) && Backed(RunOf(alu, ins).s)
  {
    RunKeeps(alu, ins);
    if ins != [] {
      RunBacked(alu, ins[..|ins| - 1]);
      var r := RunOf(alu, ins[..|ins| - 1]);
      BackedStep(alu, r.s, ins[|ins| - 1], r.right);
    }
  }

  /** Fetch has an instruction and nothing outside the pipeline holds it back. */
  predicate Willing(s: State, i: Inputs) {
    LegalCycle(s, i) && i.fetchValid && !i.branchCsr && !i.lsuStall && i.memComplete
  }

  predicate AllWilling(alu: AluFn, s: State, ins: seq<Inputs>)
    decreases |ins|
  {
    ins == [] || (Willing(s, ins[0]) && AllWilling(alu, Next(alu, s, ins[0]), ins[1..]))
  }

  /** The stages stand still while a load or a store in E2 waits for the memory, or a division in E1 for
      the divider, and otherwise all move. */
  lemma StagesHoldIff(alu: AluFn, s: State, i: Inputs)
    ensures var t := Next(alu, s, i);
            if (s.e2.kind.Lsu? && !i.memComplete) || (s.e1.kind.Divide? && !s.div.valid)
            then t.e1 == s.e1 && t.e2 == s.e2 && t.wb == s.wb && t.regs == s.regs && t.squashQ == s.squashQ
            else t.wb.instr == s.e2.instr && (t.e2 == BUBBLE || t.e2.instr == s.e1.instr)
                 && (t.e1.valid ==> t.e1.instr == i.instr)
  {
  }

  /** Behind a plain instruction, and behind a load whose register it does not touch, an offered
      instruction issues at once: nothing pending, no fault ahead, no memory to wait for. */
  lemma IssuesAtOnce(s: State, i: Inputs)
    requires i.fetchValid && !i.branchCsr && !i.lsuStall && !s.divPending && !s.csrPending && !s.squashQ
    requires s.e2.exc == 0 && (s.e2.kind.Lsu? ==> i.memComplete && (s.e2.valid ==> i.memException == 0))
    requires s.e1.kind.Plain? || (s.e1.kind.Lsu? && (i.instr.kind.Plain? || i.instr.kind.Lsu?)
                                  && s.e1.instr.rd !in {i.instr.ra, i.instr.rb, i.instr.rd} && s.e1.rdValid)
    ensures Issue(s, i)
  {
  }

  /** Some instruction issues in this stretch of cycles. */
  predicate SomeIssue(alu: AluFn, s: State, ins: seq<Inputs>)
    decreases |ins|
  {
    ins != [] && (Issue(s, ins[0]) || SomeIssue(alu, Next(alu, s, ins[0]), ins[1..]))
  }

  predicate Empty(st: Stage) {
    !st.valid && st.exc == 0 && st.kind.Plain? && !st.intr
  }

  /** The stages drain one after another while nothing issues. */
  lemma DrainOne(alu: AluFn, s: State, i: Inputs, right: bool)
    requires Ok(alu, s, right) && Willing(s, i) && !Issue(s, i) && !(s.e1.kind.Divide? && !s.div.valid)
    ensures var t := Next(alu, s, i);
            && Empty(t.e1) && (Empty(s.e1) ==> Empty(t.e2))
            && (Empty(s.e2) ==> !t.wb.kind.Csr? && !t.squashQ)
  {
  }

  lemma EmptyIssues(s: State, i: Inputs)
    requires Backed(s) && Willing(s, i) && Empty(s.e1) && Empty(s.e2) && !s.wb.kind.Csr? && !s.squashQ
    ensures Issue(s, i)
  {
  }

  /** With no division to wait for, one of four cycles issues. */
  lemma FourIssue(alu: AluFn, s: State, ins: seq<Inputs>, right: bool)
    requires Ok(alu, s, right) && Backed(s) && AllWilling(alu, s, ins) && |ins| >= 4
             && !(s.e1.kind.Divide? && !s.div.valid)
    ensures SomeIssue(alu, s, ins)
  {
    if !Issue(s, ins[0]) {
      var s1, ins1 := Next(alu, s, ins[0]), ins[1..];
      DrainOne(alu, s, ins[0], right);
      OkStep(alu, s, ins[0], right);
      BackedStep(alu, s, ins[0], right);
      ThreeIssue(alu, s1, ins1, NextRight(s, ins[0], right));
    }
  }

  lemma ThreeIssue(alu: AluFn, s: State, ins: seq<Inputs>, right: bool)
    requires Ok(alu, s, right) && Backed(s) && AllWilling(alu, s, ins) && |ins| >= 3 && Empty(s.e1)
    ensures SomeIssue(alu, s, ins)
  {
    if !Issue(s, ins[0]) {
      DrainOne(alu, s, ins[0], right);
      OkStep(alu, s, ins[0], right);
      BackedStep(alu, s, ins[0], right);
      TwoIssue(alu, Next(alu, s, ins[0]), ins[1..], NextRight(s, ins[0], right));
    }
  }

  lemma TwoIssue(alu: AluFn, s: State, ins: seq<Inputs>, right: bool)
    requires Ok(alu, s, right) && Backed(s) && AllWilling(alu, s, ins) && |ins| >= 2 && Empty(s.e1) && Empty(s.e2)
    ensures SomeIssue(alu, s, ins)
  {
    if !Issue(s, ins[0]) {
      DrainOne(alu, s, ins[0], right);
      BackedStep(alu, s, ins[0], right);
      EmptyIssues(Next(alu, s, ins[0]), ins[1]);
    }
  }

  /** While a division is in progress E1 holds it, and nothing issues. */
  lemma DivisionHolds(alu: AluFn, s: State, i: Inputs, n: nat, right: bool)
    requires Ok(alu, s, right) && s.e1.kind.Divide? && !s.div.valid
    requires Divider.Busy(s.div, Divider.Start(s.e1.kind.dop, s.e1.ra, s.e1.rb), n)
    ensures var t := Next(alu, s, i);
            t.e1 == s.e1 && if n == 0 then t.div.valid
                            else !t.div.valid
                                 && Divider.Busy(t.div, Divider.Start(t.e1.kind.dop, t.e1.ra, t.e1.rb), n - 1)
  {
    assert Stall(s, i) && !Issue(s, i);
    if n > 0 {
      Divider.ShiftBusy(s.div, Divider.Start(s.e1.kind.dop, s.e1.ra, s.e1.rb), n);
    }
  }

  lemma {:induction false} DivisionThenIssue(alu: AluFn, s: State, ins: seq<Inputs>, n: nat, right: bool)
    requires Ok(alu, s, right) && Backed(s) && AllWilling(alu, s, ins) && |ins| >= n + 5
    requires s.e1.kind.Divide? && !s.div.valid
    requires Divider.Busy(s.div, Divider.Start(s.e1.kind.dop, s.e1.ra, s.e1.rb), n)
    ensures SomeIssue(alu, s, ins)
    decreases n
  {
    var t := Next(alu, s, ins[0]);
    DivisionHolds(alu, s, ins[0], n, right);
    OkStep(alu, s, ins[0], right);
    BackedStep(alu, s, ins[0], right);
    if n == 0 {
      FourIssue(alu, t, ins[1..], NextRight(s, ins[0], right));
    } else {
      DivisionThenIssue(alu, t, ins[1..], n - 1, NextRight(s, ins[0], right));
    }
  }

  /** From any reachable state, if fetch keeps offering instructions, memory completes and nothing
      outside holds the pipeline, some instruction issues within 37 cycles. */
  lemma NoLockup(alu: AluFn, ins: seq<Inputs>, more: seq<Inputs>)
    requires Legal(alu, ins) && AllWilling(alu, RunOf(alu, ins).s, more) && |more| >= 37
    ensures SomeIssue(alu, RunOf(alu, ins).s, more)
  {
    var s, right := RunOf(alu, ins).s, RunOf(alu, ins).right;
    RunBacked(alu, ins);
    if s.e1.kind.Divide? && !s.div.valid {
      var d := Divider.Start(s.e1.kind.dop, s.e1.ra, s.e1.rb);
      assert Dividing(s.div, d);
      var n: nat :| Divider.Busy(s.div, d, n);
      DivisionThenIssue(alu, s, more, n, right);
    } else {
      FourIssue(alu, s, more, right);
    }
  }
}
