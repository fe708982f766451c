/** The TCM makes progress: bursts that have been accepted are served in bounded time, and neither
    direction is passed over for long. */
module TcmMemProgress {
  import opened Bits
  import opened Bursts
  import opened DataPort
  import opened TcmMem
  import opened TcmMemPmem
  import opened TcmMemPmemRuns

  // ----- Arbitration -----

  /** How many write commands can still pass a read command that waits. */
  function Passes(s: State): nat {
    if s.holdWr && !s.b.wr && !s.prio then 2 else if s.prio then 1 else 0
  }

  lemma PassStep(nx: NextFn, s: State, o: Owed, a: AxiIn, r: RamIn)
    requires HoldsBacked(s, o) && Stable(o, a) && a.arvalid && !ArFire(s, a, r.accept)
    ensures Passes(Next(nx, s, a, r)) <= if AwFire(s, a, r.accept) then Passes(s) - 1 else Passes(s)
  {
    OneDirection(s, a);
  }

  /** The write commands accepted in a stretch of cycles. */
  function WritesTaken(nx: NextFn, s: State, ins: seq<(AxiIn, RamIn)>): nat
    decreases |ins|
  {
    if ins == [] then 0 else
    (if AwFire(s, ins[0].0, ins[0].1.accept) then 1 else 0) + WritesTaken(nx, Next(nx, s, ins[0].0, ins[0].1), ins[1..])
  }

  /** A read command is offered throughout and is not accepted; the masters are stable. */
  predicate ReadWaits(nx: NextFn, s: State, o: Owed, ins: seq<(AxiIn, RamIn)>)
    decreases |ins|
  {
    ins == [] ||
    var (a, r) := ins[0];
    Stable(o, a) && a.arvalid && !ArFire(s, a, r.accept) &&
    ReadWaits(nx, Next(nx, s, a, r), NextOwed(s, a, r.accept), ins[1..])
  }

  /** A waiting read command is passed by at most two write commands, however long it waits. */
  lemma {:induction false} ReadPassedAtMostTwice(nx: NextFn, s: State, o: Owed, ins: seq<(AxiIn, RamIn)>)
    requires HoldsBacked(s, o) && ReadWaits(nx, s, o, ins)
    ensures WritesTaken(nx, s, ins) <= Passes(s) <= 2
    decreases |ins|
  {
    if ins != [] {
      var (a, r) := ins[0];
      PassStep(nx, s, o, a, r);
      HoldsStep(nx, s, o, a, r);
      ReadPassedAtMostTwice(nx, Next(nx, s, a, r), NextOwed(s, a, r.accept), ins[1..]);
    }
  }

  function PassesRead(s: State): nat {
    if s.holdRd && !s.b.rd && s.prio then 2 else if !s.prio then 1 else 0
  }

  lemma PassReadStep(nx: NextFn, s: State, o: Owed, a: AxiIn, r: RamIn)
    requires HoldsBacked(s, o) && Stable(o, a) && a.awvalid && !AwFire(s, a, r.accept)
    ensures PassesRead(Next(nx, s, a, r)) <= if ArFire(s, a, r.accept) then PassesRead(s) - 1 else PassesRead(s)
  {
    OneDirection(s, a);
  }

  function ReadsTaken(nx: NextFn, s: State, ins: seq<(AxiIn, RamIn)>): nat
    decreases |ins|
  {
    if ins == [] then 0 else
    (if ArFire(s, ins[0].0, ins[0].1.accept) then 1 else 0) + ReadsTaken(nx, Next(nx, s, ins[0].0, ins[0].1), ins[1..])
  }

  predicate WriteWaits(nx: NextFn, s: State, o: Owed, ins: seq<(AxiIn, RamIn)>)
    decreases |ins|
  {
    ins == [] ||
    var (a, r) := ins[0];
    Stable(o, a) && a.awvalid && !AwFire(s, a, r.accept) &&
    WriteWaits(nx, Next(nx, s, a, r), NextOwed(s, a, r.accept), ins[1..])
  }

  /** And a waiting write command by at most two read commands. */
  lemma {:induction false} WritePassedAtMostTwice(nx: NextFn, s: State, o: Owed, ins: seq<(AxiIn, RamIn)>)
    requires HoldsBacked(s, o) && WriteWaits(nx, s, o, ins)
    ensures ReadsTaken(nx, s, ins) <= PassesRead(s) <= 2
    decreases |ins|
  {
    if ins != [] {
      var (a, r) := ins[0];
      PassReadStep(nx, s, o, a, r);
      HoldsStep(nx, s, o, a, r);
      WritePassedAtMostTwice(nx, Next(nx, s, a, r), NextOwed(s, a, r.accept), ins[1..]);
    }
  }

  // ----- Draining -----

  /** Beats still to be presented. */
  function Left(b: BurstRegs): nat {
    if b.rd || b.wr then b.len + 1 else 0
  }

  /** Bounds the cycles until everything accepted has been answered. */
  function Rank(s: TcmState): nat {
    5 * Left(s.port.b) + (if s.extAck then 4 else 0) + 2 * |s.port.resps| + if s.accept then 1 else 0
  }

  /** The masters start nothing, take every response, and finish the write burst they began. */
  predicate Finishing(s: State, a: AxiIn) {
    && !a.awvalid && !a.arvalid && a.rready && a.bready
    && (s.b.wr ==> a.wvalid && a.w.strb != 0)
  }

  predicate Idle(s: State) {
    !s.b.rd && !s.b.wr && s.reqs == []
  }

  lemma DrainStep(nx: NextFn, s: TcmState, d: DataIn, a: AxiIn)
    requires InFlight(s) && Exclusive(s.port) && Finishing(s.port, a)
    ensures if Idle(s.port) then Idle(TcmNext(nx, s, d, a).port) else Rank(TcmNext(nx, s, d, a)) < Rank(s)
  {
  }

  // ----- Waiting -----

  /** The masters take every response, and offer write data along with a write command and for the
      rest of its burst. */
  predicate Attentive(s: State, a: AxiIn) {
    a.rready && a.bready && (a.awvalid || s.b.wr ==> a.wvalid && a.w.strb != 0)
  }

  /** The state agrees with what the masters owe, as it does in every run. */
  predicate Sound(s: TcmState, o: Owed) {
    HoldsBacked(s.port, o) && InFlight(s)
  }

  lemma ReadWaitStep(nx: NextFn, s: TcmState, o: Owed, d: DataIn, a: AxiIn)
    requires Sound(s, o) && Stable(o, a) && Attentive(s.port, a) && a.arvalid && !ArFire(s.port, a, !s.accept)
    ensures var t := TcmNext(nx, s, d, a);
            1285 * Passes(t.port) + Rank(t) < 1285 * Passes(s.port) + Rank(s)
  {
    OneDirection(s.port, a);
    PassStep(nx, s.port, o, a, RamSide(s));
  }

  lemma WriteWaitStep(nx: NextFn, s: TcmState, o: Owed, d: DataIn, a: AxiIn)
    requires Sound(s, o) && Stable(o, a) && Attentive(s.port, a) && a.awvalid && !AwFire(s.port, a, !s.accept)
    ensures var t := TcmNext(nx, s, d, a);
            1285 * PassesRead(t.port) + Rank(t) < 1285 * PassesRead(s.port) + Rank(s)
  {
    OneDirection(s.port, a);
    PassReadStep(nx, s.port, o, a, RamSide(s));
  }

  lemma SoundStep(nx: NextFn, s: TcmState, o: Owed, d: DataIn, a: AxiIn)
    requires Sound(s, o) && Stable(o, a)
    ensures Sound(TcmNext(nx, s, d, a), NextOwed(s.port, a, !s.accept))
  {
    HoldsStep(nx, s.port, o, a, RamSide(s));
    InFlightStep(nx, s, d, a);
  }

  /** A command of one direction is offered in every cycle and is not accepted in any. */
  predicate KeptWaiting(nx: NextFn, read: bool, s: TcmState, o: Owed, ins: seq<(DataIn, AxiIn)>)
    decreases |ins|
  {
    ins == [] ||
    var (d, a) := ins[0];
    && Stable(o, a) && Attentive(s.port, a)
    && (if read then a.arvalid && !ArFire(s.port, a, !s.accept) else a.awvalid && !AwFire(s.port, a, !s.accept))
    && KeptWaiting(nx, read, TcmNext(nx, s, d, a), NextOwed(s.port, a, !s.accept), ins[1..])
  }

  lemma {:induction false} WaitIsBounded(nx: NextFn, read: bool, s: TcmState, o: Owed, ins: seq<(DataIn, AxiIn)>)
    requires Sound(s, o) && KeptWaiting(nx, read, s, o, ins)
    ensures |ins| <= 1285 * (if read then Passes(s.port) else PassesRead(s.port)) + Rank(s)
    decreases |ins|
  {
    if ins != [] {
      var (d, a) := ins[0];
      SoundStep(nx, s, o, d, a);
      WaitIsBounded(nx, read, TcmNext(nx, s, d, a), NextOwed(s.port, a, !s.accept), ins[1..]);
      if read {
        ReadWaitStep(nx, s, o, d, a);
      } else {
        WriteWaitStep(nx, s, o, d, a);
      }
    }
  }

  /** After any run, no read command and no write command is kept waiting for more than 3863 cycles
      by attentive masters, whatever else they and the CPU do. */
  lemma AcceptedInTime(nx: NextFn, ins: seq<(DataIn, AxiIn)>, read: bool, more: seq<(DataIn, AxiIn)>)
    requires LegalMasters(nx, ins)
    requires KeptWaiting(nx, read, TcmRun(nx, ins), RunOf(nx, PortIns(nx, ins)).owed, more)
    ensures |more| <= 3863
  {
    ArbiterKeepsPortLegal(nx, ins);
    RunConserves(nx, PortIns(nx, ins));
    WaitIsBounded(nx, read, TcmRun(nx, ins), RunOf(nx, PortIns(nx, ins)).owed, more);
  }

  /** At rest, with the RAM given to the CPU. */
  predicate AtRest(s: TcmState) {
    s.accept && !s.port.b.rd && !s.port.b.wr && !s.port.holdRd && !s.port.holdWr
  }

  /** A write command is offered with no data, and no read has priority over it. */
  predicate DataWithheld(s: TcmState, a: AxiIn) {
    a.awvalid && !a.wvalid && (!a.arvalid || s.port.prio)
  }

  predicate Withheld(nx: NextFn, s: TcmState, ins: seq<(DataIn, AxiIn)>)
    decreases |ins|
  {
    ins == [] || (DataWithheld(s, ins[0].1) && Withheld(nx, TcmNext(nx, s, ins[0].0, ins[0].1), ins[1..]))
  }

  function CommandsTaken(nx: NextFn, s: TcmState, ins: seq<(DataIn, AxiIn)>): nat
    decreases |ins|
  {
    if ins == [] then 0 else
    |NewBursts(s.port, ins[0].1, !s.accept)| + CommandsTaken(nx, TcmNext(nx, s, ins[0].0, ins[0].1), ins[1..])
  }

  /** The data must come along: nothing is presented to the RAM for a command without data, so the
      RAM stays with the CPU, and a master that waits for AWREADY first waits for ever, and with it
      a read command that has not the priority. */
  lemma {:induction false} CommandWithoutDataStarves(nx: NextFn, s: TcmState, ins: seq<(DataIn, AxiIn)>)
    requires AtRest(s) && Withheld(nx, s, ins)
    ensures CommandsTaken(nx, s, ins) == 0
    decreases |ins|
  {
    if ins != [] {
      var t := TcmNext(nx, s, ins[0].0, ins[0].1);
      assert !Presented(s.port, ins[0].1);
      CommandWithoutDataStarves(nx, t, ins[1..]);
    }
  }

  /** The CPU is accepted in every cycle after one in which the external port had nothing to do. */
  lemma CpuAccepted(nx: NextFn, s: TcmState, d: DataIn, a: AxiIn, d': DataIn, a': AxiIn)
    requires !s.port.b.rd && !s.port.b.wr && !a.arvalid && !a.awvalid && Active(d')
    ensures var t := TcmNext(nx, s, d, a);
            t.accept && TcmNext(nx, t, d', a').ack && TcmNext(nx, t, d', a').tag == d'.tag
  {
  }

  // ----- Service -----

  /** From cycle `n` on, the masters only finish. */
  predicate FinishingFrom(nx: NextFn, ins: seq<(DataIn, AxiIn)>, n: nat) {
    forall k :: n <= k < |ins| ==> Finishing(TcmRun(nx, ins[..k]).port, ins[k].1)
  }

  lemma InvariantsHold(nx: NextFn, ins: seq<(DataIn, AxiIn)>)
    requires LegalMasters(nx, ins)
    ensures InFlight(TcmRun(nx, ins)) && Exclusive(TcmRun(nx, ins).port)
  {
    ArbiterKeepsPortLegal(nx, ins);
    RunConserves(nx, PortIns(nx, ins));
  }

  /** Some finishing of a run before the end is a finishing of its prefix. */
  lemma FinishingBefore(nx: NextFn, ins: seq<(DataIn, AxiIn)>, n: nat, before: seq<(DataIn, AxiIn)>)
    requires FinishingFrom(nx, ins, n) && n < |ins| && before == ins[..|ins| - 1]
    ensures FinishingFrom(nx, before, n) && Finishing(TcmRun(nx, before).port, ins[|ins| - 1].1)
  {
    forall k | n <= k < |before| ensures Finishing(TcmRun(nx, before[..k]).port, before[k].1) {
      assert before[..k] == ins[..k];
    }
  }

  lemma {:induction false} Drains(nx: NextFn, ins: seq<(DataIn, AxiIn)>, n: nat)
    requires LegalMasters(nx, ins) && n <= |ins| && FinishingFrom(nx, ins, n)
    ensures Idle(TcmRun(nx, ins).port) || Rank(TcmRun(nx, ins)) + (|ins| - n) <= 1293
    decreases |ins|
  {
    InvariantsHold(nx, ins);
    if |ins| > n {
      var before := ins[..|ins| - 1];
      FinishingBefore(nx, ins, n, before);
      Drains(nx, before, n);
      InvariantsHold(nx, before);
      DrainStep(nx, TcmRun(nx, before), ins[|ins| - 1].0, ins[|ins| - 1].1);
    }
  }

  /** Total service: after any run, 1293 cycles in which the masters only finish what they began
      are enough for every burst accepted to have had all its beats and responses. */
  lemma ServedInTime(nx: NextFn, ins: seq<(DataIn, AxiIn)>, n: nat)
    requires LegalMasters(nx, ins) && n + 1293 <= |ins| && FinishingFrom(nx, ins, n)
    ensures var log := RunOf(nx, PortIns(nx, ins)).log;
            && log.beats == Wanted(nx, log.bursts)
            && Marks(log.r) == AllReadMarks(log.bursts) && log.b == AllWriteIds(log.bursts)
  {
    Drains(nx, ins, n);
    InvariantsHold(nx, ins);
    TcmServesBursts(nx, ins);
  }
}
