/** `tcm_mem`: the CPU data port and the external AXI port share the TCM. The CPU is accepted
    unless an external beat was presented in the cycle before; every accepted request is
    acknowledged in the next cycle. The RAM behind both ports reads as zero. */
module TcmMem {
  import opened Bits
  import opened Bursts
  import opened DataPort
  import opened Seqs
  import opened TcmMemPmem
  import opened TcmMemPmemRuns

  datatype TcmState = TcmState(port: TcmMemPmem.State, accept: bool, ack: bool, tag: Tag, extAck: bool)

  const TCM_RESET := TcmState(TcmMemPmem.RESET, true, false, 0, false)

  /** What the RAM side of the port sees in this state. */
  function RamSide(s: TcmState): RamIn {
    RamIn(!s.accept, s.extAck, 0)
  }

  function TcmNext(nx: NextFn, s: TcmState, d: DataIn, a: AxiIn): TcmState {
    var taken := Active(d) && s.accept;
    TcmState(TcmMemPmem.Next(nx, s.port, a, RamSide(s)), !Presented(s.port, a),
             taken, if taken then d.tag else s.tag, Presented(s.port, a) && !s.accept)
  }

  // ----- The registers -----

  class Tcm {
    const conv: Port
    var memDAccept: bool
    var memDTag: Tag
    var memDAck: bool
    var extAck: bool

    ghost predicate Valid()
      reads this, conv, conv.requests, conv.requests.ram, conv.response, conv.response.ram
    {
      conv.Valid()
    }

    ghost function Abs(): TcmState
      reads this, conv, conv.requests, conv.response
    {
      TcmState(conv.Abs(), memDAccept, memDAck, memDTag, extAck)
    }

    constructor (nx: NextFn)
      ensures Valid() && fresh(conv) && conv.nx == nx && Abs() == TCM_RESET
      ensures fresh(conv.requests) && fresh(conv.requests.ram) && fresh(conv.response) && fresh(conv.response.ram)
    {
      conv := new Port(nx);
      memDAccept, memDTag, memDAck, extAck := true, 0, false, false;
    }

    /** The arbiter's own registers. */
    method ClockAcks(d: DataIn, presented: bool)
      modifies this`memDAccept, this`memDTag, this`memDAck, this`extAck
      ensures memDAccept == !presented && extAck == (presented && !old(memDAccept))
      ensures memDAck == (Active(d) && old(memDAccept)) && memDTag == if memDAck then d.tag else old(memDTag)
    {
      extAck := presented && !memDAccept;
      memDAck := Active(d) && memDAccept;
      if memDAck {
        memDTag := d.tag;
      }
      memDAccept := !presented;
    }

    method Tick(d: DataIn, a: AxiIn) returns (o: Outputs, cpu: DataOut)
      requires Valid()
      modifies this, conv, conv.requests, conv.requests.ram, conv.response, conv.response.ram
      ensures Valid()
      ensures Abs() == TcmNext(conv.nx, old(Abs()), d, a)
      ensures Requests(old(conv.Abs()), a, !old(memDAccept), o) && Responses(old(conv.Abs()), o)
      ensures cpu == DataOut(0, old(memDAccept), old(memDAck), false, old(memDTag))
    {
      cpu := DataOut(0, memDAccept, memDAck, false, memDTag);
      o := conv.Tick(a, RamIn(!memDAccept, extAck, 0));
      ClockAcks(d, o.ramRd || o.ramWr != 0);
    }
  }

  // ----- Runs -----

  function TcmRun(nx: NextFn, ins: seq<(DataIn, AxiIn)>): TcmState {
    if ins == [] then TCM_RESET else
    TcmNext(nx, TcmRun(nx, ins[..|ins| - 1]), ins[|ins| - 1].0, ins[|ins| - 1].1)
  }

  /** The inputs that the AXI port sees in a run. */
  function PortIns(nx: NextFn, ins: seq<(DataIn, AxiIn)>): seq<(AxiIn, RamIn)> {
    if ins == [] then [] else
    PortIns(nx, ins[..|ins| - 1]) + [(ins[|ins| - 1].1, RamSide(TcmRun(nx, ins[..|ins| - 1])))]
  }

  /** The external masters are stable and their W beats well formed. */
  predicate LegalMasters(nx: NextFn, ins: seq<(DataIn, AxiIn)>) {
    ins == [] ||
    var before := ins[..|ins| - 1];
    var p, a := RunOf(nx, PortIns(nx, before)), ins[|ins| - 1].1;
    LegalMasters(nx, before) && Stable(p.owed, a) && WellFormed(p.s, a, !TcmRun(nx, before).accept)
  }

  /** The request FIFO holds one record for every queued response and one for the
      acknowledge in flight. */
  predicate InFlight(s: TcmState) {
    |s.port.reqs| == |s.port.resps| + (if s.extAck then 1 else 0) && |s.port.reqs| <= DEPTH
  }

  lemma InFlightStep(nx: NextFn, s: TcmState, d: DataIn, a: AxiIn)
    requires InFlight(s)
    ensures InFlight(TcmNext(nx, s, d, a))
  {
  }

  lemma PortLegal(nx: NextFn, p: Run, s: TcmState, a: AxiIn)
    requires Matched(p.s, p.log) && p.s == s.port && InFlight(s)
    requires Stable(p.owed, a) && WellFormed(p.s, a, !s.accept)
    ensures LegalCycle(p, a, RamSide(s))
  {
    assert |p.log.beats| == |Records(p.log.beats)| == |p.log.done| + |p.s.reqs|;
    assert |p.log.acks| == |p.log.done| + |p.s.resps|;
  }

  /** One more cycle of a run of the port. */
  lemma OneMoreCycle(nx: NextFn, before: seq<(AxiIn, RamIn)>, x: (AxiIn, RamIn))
    requires Legal(nx, before) && LegalCycle(RunOf(nx, before), x.0, x.1)
    ensures Legal(nx, before + [x]) && RunOf(nx, before + [x]).s == Next(nx, RunOf(nx, before).s, x.0, x.1)
  {
    assert (before + [x])[..|before|] == before;
  }

  /** Behind this arbiter the port's RAM-side assumption always holds, so everything proved of
      the port's runs holds here with nothing asked but of the external masters. */
  lemma {:induction false} ArbiterKeepsPortLegal(nx: NextFn, ins: seq<(DataIn, AxiIn)>)
    requires LegalMasters(nx, ins)
    ensures var s := TcmRun(nx, ins);
            && Legal(nx, PortIns(nx, ins)) && RunOf(nx, PortIns(nx, ins)).s == s.port
            && |s.port.reqs| == |s.port.resps| + (if s.extAck then 1 else 0) <= DEPTH
  {
    if ins != [] {
      var before, a := ins[..|ins| - 1], ins[|ins| - 1].1;
      var s := TcmRun(nx, before);
      ArbiterKeepsPortLegal(nx, before);
      RunConserves(nx, PortIns(nx, before));
      PortLegal(nx, RunOf(nx, PortIns(nx, before)), s, a);
      OneMoreCycle(nx, PortIns(nx, before), (a, RamSide(s)));
      InFlightStep(nx, s, ins[|ins| - 1].0, a);
    }
  }

  /** With nothing asked but of the external masters: once the port is idle and drained, every
      burst has had its beats at the RAM and its responses, in acceptance order. */
  lemma TcmServesBursts(nx: NextFn, ins: seq<(DataIn, AxiIn)>)
    requires LegalMasters(nx, ins)
    requires var s := TcmRun(nx, ins).port; !s.b.rd && !s.b.wr && s.reqs == []
    ensures var log := RunOf(nx, PortIns(nx, ins)).log;
            && log.beats == Wanted(nx, log.bursts)
            && Marks(log.r) == AllReadMarks(log.bursts) && log.b == AllWriteIds(log.bursts)
            && Addrs(log.writes) == WriteAddrs(log.beats) && Payload(log.writes) == log.w
  {
    ArbiterKeepsPortLegal(nx, ins);
    QuietRunServedAll(nx, PortIns(nx, ins));
    EveryMoment(nx, PortIns(nx, ins));
  }

  /** The RAM behind the port reads as zero. */
  predicate AllZero(xs: seq<Word>) {
    forall k :: 0 <= k < |xs| ==> xs[k] == 0
  }

  lemma {:induction false} AnswersAreZero(nx: NextFn, ins: seq<(DataIn, AxiIn)>)
    ensures AllZero(RunOf(nx, PortIns(nx, ins)).log.acks)
  {
    if ins != [] {
      var before := ins[..|ins| - 1];
      AnswersAreZero(nx, before);
      var x := (ins[|ins| - 1].1, RamSide(TcmRun(nx, before)));
      assert (PortIns(nx, before) + [x])[..|PortIns(nx, before)|] == PortIns(nx, before);
    }
  }

  lemma {:induction false} ZeroReads(done: seq<(Record, Word)>)
    requires AllZero(Seconds(done))
    ensures forall k :: 0 <= k < |ReadsOut(done)| ==> ReadsOut(done)[k].data == 0
  {
    if done != [] {
      assert Seconds(done)[..|done| - 1] == Seconds(done[..|done| - 1]);
      assert Seconds(done)[|done| - 1] == done[|done| - 1].1;
      ZeroReads(done[..|done| - 1]);
    }
  }

  /** Every R beat of every run of the TCM carries zero. */
  lemma TcmReadsZero(nx: NextFn, ins: seq<(DataIn, AxiIn)>)
    requires LegalMasters(nx, ins)
    ensures var log := RunOf(nx, PortIns(nx, ins)).log; forall k :: 0 <= k < |log.r| ==> log.r[k].data == 0
  {
    ArbiterKeepsPortLegal(nx, ins);
    EveryMoment(nx, PortIns(nx, ins));
    AnswersAreZero(nx, ins);
    ZeroReads(RunOf(nx, PortIns(nx, ins)).log.done);
  }

  // ----- Arbitration -----

  /** An external beat waits at most one cycle: presented while the CPU has the RAM, it is
      presented again unchanged and taken in the next cycle, and the CPU is kept out then. */
  lemma WaitsAtMostOneCycle(nx: NextFn, s: TcmState, o: Owed, d: DataIn, a: AxiIn, a': AxiIn)
    requires HoldsBacked(s.port, o) && Stable(o, a) && Stable(NextOwed(s.port, a, !s.accept), a')
    requires Presented(s.port, a)
    ensures !TcmNext(nx, s, d, a).accept
    ensures s.accept ==>
      var s' := TcmNext(nx, s, d, a);
      && Presented(s'.port, a') && RamAddr(s'.port, a') == RamAddr(s.port, a) && RamWr(s'.port, a') == RamWr(s.port, a)
      && |NewBeats(s'.port, a', RamSide(s').accept)| == 1
  {
    if s.accept {
      RepresentedUnchanged(nx, s.port, o, a, RamSide(s), a');
    }
  }

  // ----- The CPU side -----

  /** Tags of the CPU requests accepted, and of those acknowledged. */
  datatype CpuLog = CpuLog(accepted: seq<Tag>, acked: seq<Tag>)

  function CpuLogOf(nx: NextFn, ins: seq<(DataIn, AxiIn)>): CpuLog {
    if ins == [] then CpuLog([], []) else
    var log, s, d := CpuLogOf(nx, ins[..|ins| - 1]), TcmRun(nx, ins[..|ins| - 1]), ins[|ins| - 1].0;
    CpuLog(log.accepted + (if Active(d) && s.accept then [d.tag] else []), log.acked + (if s.ack then [s.tag] else []))
  }

  /** Every CPU request is acknowledged once, with its tag, in the cycle after it is accepted. */
  lemma {:induction false} AckedNextCycle(nx: NextFn, ins: seq<(DataIn, AxiIn)>)
    ensures var log, s := CpuLogOf(nx, ins), TcmRun(nx, ins);
            log.accepted == log.acked + if s.ack then [s.tag] else []
  {
    if ins != [] {
      AckedNextCycle(nx, ins[..|ins| - 1]);
    }
  }
}
