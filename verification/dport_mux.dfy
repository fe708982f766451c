/** `dport_mux`: routes each CPU request to the TCM or to the external bridge by address, and
    holds a request for one target while the other still owes responses. */
module DportMux {
  import opened Bits
  import opened DataPort

  datatype MuxState = MuxState(pending: nat, tcmAccess: bool)

  const MUX_RESET := MuxState(0, false)
  const TCM_SIZE: Word := 65536

  /** The sum is a 32-bit one. */
  predicate InTcm(base: Word, addr: Word) {
    base <= addr < (base + TCM_SIZE) % TWO_32
  }

  predicate Hold(m: MuxState, select: bool) {
    m.pending != 0 && m.tcmAccess != select
  }

  /** A target sees the request only when it is selected and the request is not held. */
  function Gated(d: DataIn, on: bool): DataIn {
    if on then d else d.(rd := false, wr := 0, invalidate := false, writeback := false, flush := false)
  }

  /** Five-bit arithmetic. */
  function MuxNext(m: MuxState, request: bool, ack: bool, select: bool): MuxState {
    MuxState(if request && !ack then (m.pending + 1) % 32
             else if !request && ack then (m.pending + 31) % 32 else m.pending,
             if request then select else m.tcmAccess)
  }

  datatype MuxOut = MuxOut(cpu: DataOut, tcm: DataIn, ext: DataIn)

  predicate MuxDrives(m: MuxState, base: Word, d: DataIn, tcm: DataOut, ext: DataOut, o: MuxOut) {
    var select := InTcm(base, d.addr);
    && o.tcm == Gated(d, select && !Hold(m, select)) && o.ext == Gated(d, !select && !Hold(m, select))
    && o.cpu == (if m.tcmAccess then tcm else ext).(
         accept := (if select then tcm.accept else ext.accept) && !Hold(m, select))
  }

  class Mux {
    const base: Word
    var pending: nat
    var tcmAccess: bool

    ghost function Abs(): MuxState
      reads this
    {
      MuxState(pending, tcmAccess)
    }

    constructor (base: Word)
      ensures this.base == base && Abs() == MUX_RESET
    {
      this.base := base;
      pending, tcmAccess := 0, false;
    }

    function Wires(d: DataIn, tcm: DataOut, ext: DataOut): (o: MuxOut)
      reads this
      ensures MuxDrives(Abs(), base, d, tcm, ext, o)
    {
      var select := d.addr >= base && d.addr < (base + 65536) % TWO_32;
      var hold := pending != 0 && tcmAccess != select;
      MuxOut((if tcmAccess then tcm else ext).(accept := (if select then tcm.accept else ext.accept) && !hold),
             Gated(d, select && !hold), Gated(d, !select && !hold))
    }

    method Clock(request: bool, ack: bool, select: bool)
      modifies this
      ensures Abs() == MuxNext(old(Abs()), request, ack, select)
    {
      if request && !ack {
        pending := (pending + 1) % 32;
      } else if !request && ack {
        pending := (pending + 31) % 32;
      }
      if request {
        tcmAccess := select;
      }
    }

    method Tick(d: DataIn, tcm: DataOut, ext: DataOut) returns (o: MuxOut)
      modifies this
      ensures MuxDrives(old(Abs()), base, d, tcm, ext, o)
      ensures Abs() == MuxNext(old(Abs()), Active(d) && o.cpu.accept, o.cpu.ack, InTcm(base, d.addr))
    {
      o := Wires(d, tcm, ext);
      Clock(Active(d) && o.cpu.accept, o.cpu.ack, InTcm(base, d.addr));
    }
  }
}

/** The mux with the TCM on one side and the AXI bridge on the other. */
module DataFabric {
  import opened Bits
  import opened Bursts
  import opened DataPort
  import opened DportMux
  import opened Seqs
  import opened TcmMem
  import opened TcmMemPmem
  import DportAxi

  datatype Fabric = Fabric(mux: MuxState, bridge: DportAxi.State, tcm: TcmState)

  const FABRIC_RESET := Fabric(MUX_RESET, DportAxi.RESET, TCM_RESET)

  /** What the AXI-Lite slave behind the bridge drives. */
  datatype Slave = Slave(awready: bool, wready: bool, bvalid: bool, bresp: Pair,
                         arready: bool, rvalid: bool, rdata: Word, rresp: Pair)

  datatype FabricIn = FabricIn(d: DataIn, axi: AxiIn, slave: Slave)

  /** The address map and the burst options the fabric is built with. */
  datatype Config = Config(base: Word, nx: NextFn)

  function BridgeIn(d: DataIn, s: Slave): DportAxi.Inputs {
    DportAxi.Inputs(d.addr, d.data, d.rd, d.wr, d.tag,
                    s.awready, s.wready, s.bvalid, s.bresp, s.arready, s.rvalid, s.rdata, s.rresp)
  }

  predicate Select(c: Config, i: FabricIn) {
    InTcm(c.base, i.d.addr)
  }

  function TcmIn(c: Config, s: Fabric, i: FabricIn): DataIn {
    Gated(i.d, Select(c, i) && !Hold(s.mux, Select(c, i)))
  }

  function ExtIn(c: Config, s: Fabric, i: FabricIn): DportAxi.Inputs {
    BridgeIn(Gated(i.d, !Select(c, i) && !Hold(s.mux, Select(c, i))), i.slave)
  }

  /** The CPU has a request and the mux accepts it. */
  predicate Taken(c: Config, s: Fabric, i: FabricIn) {
    Active(i.d) && (if Select(c, i) then s.tcm.accept else DportAxi.Accept(s.bridge)) && !Hold(s.mux, Select(c, i))
  }

  predicate SlaveAck(i: FabricIn) {
    i.slave.bvalid || i.slave.rvalid
  }

  /** The acknowledge the CPU sees, from the target of the last request. */
  predicate Acked(s: Fabric, i: FabricIn) {
    if s.mux.tcmAccess then s.tcm.ack else SlaveAck(i)
  }

  function FabricNext(c: Config, s: Fabric, i: FabricIn): Fabric {
    Fabric(MuxNext(s.mux, Taken(c, s, i), Acked(s, i), Select(c, i)),
           DportAxi.Next(s.bridge, ExtIn(c, s, i)), TcmNext(c.nx, s.tcm, TcmIn(c, s, i), i.axi))
  }

  // ----- Routing -----

  /** A request by its target and its tag. */
  datatype Access = Access(tcm: bool, tag: Tag)

  function ExtAccesses(tags: seq<Tag>): (r: seq<Access>)
    ensures |r| == |tags|
  {
    seq(|tags|, k requires 0 <= k < |tags| => Access(false, tags[k]))
  }

  /** What the targets still owe: the TCM its acknowledge in flight, the bridge its tag queue. */
  function TcmOwes(s: Fabric): seq<Access> {
    if s.tcm.ack then [Access(true, s.tcm.tag)] else []
  }

  function ExtOwes(s: Fabric): seq<Access> {
    ExtAccesses(s.bridge.tags)
  }

  function Outstanding(s: Fabric): seq<Access> {
    TcmOwes(s) + ExtOwes(s)
  }

  /** The counter is the true outstanding count of the target of the last request, and the other
      target owes nothing. */
  predicate Routed(s: Fabric) {
    && DportAxi.Shape(s.bridge)
    && s.mux.pending == |Outstanding(s)|
    && (if s.mux.tcmAccess then ExtOwes(s) == [] else TcmOwes(s) == [])
  }

  /** A maintenance operation is taken outside the TCM. */
  predicate Loses(c: Config, s: Fabric, i: FabricIn) {
    Taken(c, s, i) && Maintenance(i.d) && !Select(c, i)
  }

  /** The counter stays true in a cycle exactly when the CPU does not send a maintenance
      operation outside the TCM: the mux counts one, the bridge never answers it. */
  lemma RoutedStepIff(c: Config, s: Fabric, i: FabricIn)
    requires Routed(s) && (SlaveAck(i) ==> s.bridge.pending)
    ensures Routed(FabricNext(c, s, i)) <==> !Loses(c, s, i)
  {
    DportAxi.ShapeStep(s.bridge, ExtIn(c, s, i));
  }

  // ----- Runs -----

  datatype FabricLog = FabricLog(accepted: seq<Access>, acked: seq<Access>)
  datatype FabricRun = FabricRun(s: Fabric, log: FabricLog)

  function RespTag(s: Fabric): Tag {
    if s.mux.tcmAccess then s.tcm.tag else if s.bridge.tags != [] then s.bridge.tags[0] else 0
  }

  function FabricRunOf(c: Config, ins: seq<FabricIn>): FabricRun {
    if ins == [] then FabricRun(FABRIC_RESET, FabricLog([], [])) else
    Clocked(c, FabricRunOf(c, ins[..|ins| - 1]), ins[|ins| - 1])
  }

  function Clocked(c: Config, r: FabricRun, i: FabricIn): FabricRun {
    FabricRun(FabricNext(c, r.s, i), FabricLog(
      r.log.accepted + (if Taken(c, r.s, i) then [Access(Select(c, i), i.d.tag)] else []),
      r.log.acked + (if Acked(r.s, i) then [Access(r.s.mux.tcmAccess, RespTag(r.s))] else [])))
  }

  /** The slave answers only an outstanding transaction, and no maintenance operation goes
      outside the TCM. */
  predicate LegalFabric(c: Config, ins: seq<FabricIn>) {
    ins == [] ||
    var s, i := FabricRunOf(c, ins[..|ins| - 1]).s, ins[|ins| - 1];
    && LegalFabric(c, ins[..|ins| - 1])
    && (SlaveAck(i) ==> s.bridge.pending) && !Loses(c, s, i)
  }

  lemma OutstandingStep(c: Config, s: Fabric, i: FabricIn)
    requires Routed(s) && (SlaveAck(i) ==> s.bridge.pending) && Routed(FabricNext(c, s, i))
    ensures Acked(s, i) ==> Outstanding(s) != [] && Outstanding(s)[0] == Access(s.mux.tcmAccess, RespTag(s))
    ensures Outstanding(FabricNext(c, s, i)) == (if Acked(s, i) then Outstanding(s)[1..] else Outstanding(s))
                                               + if Taken(c, s, i) then [Access(Select(c, i), i.d.tag)] else []
  {
    RoutedStepIff(c, s, i);
  }

  lemma AckMoves(accepted: seq<Access>, acked: seq<Access>, owed: seq<Access>, ack: bool, more: seq<Access>)
    requires accepted == acked + owed && (ack ==> owed != [])
    ensures accepted + more == (acked + if ack then [owed[0]] else []) + ((if ack then owed[1..] else owed) + more)
  {
  }

  lemma RoutedStep(c: Config, r: FabricRun, i: FabricIn)
    requires Routed(r.s) && r.log.accepted == r.log.acked + Outstanding(r.s)
    requires (SlaveAck(i) ==> r.s.bridge.pending) && !Loses(c, r.s, i)
    ensures var r' := Clocked(c, r, i); Routed(r'.s) && r'.log.accepted == r'.log.acked + Outstanding(r'.s)
  {
    RoutedStepIff(c, r.s, i);
    OutstandingStep(c, r.s, i);
    AckMoves(r.log.accepted, r.log.acked, Outstanding(r.s), Acked(r.s, i),
             if Taken(c, r.s, i) then [Access(Select(c, i), i.d.tag)] else []);
  }

  lemma {:induction false} RunRouted(c: Config, ins: seq<FabricIn>)
    requires LegalFabric(c, ins)
    ensures var r := FabricRunOf(c, ins); Routed(r.s) && r.log.accepted == r.log.acked + Outstanding(r.s)
  {
    if ins != [] {
      RunRouted(c, ins[..|ins| - 1]);
      RoutedStep(c, FabricRunOf(c, ins[..|ins| - 1]), ins[|ins| - 1]);
    }
  }

  /** Over every run: responses reach the CPU in request order, each from the target its request
      went to and with its tag; the counter is the number outstanding, at most two, so
      its five bits never wrap; and everything outstanding belongs to one target. */
  lemma ResponsesInOrder(c: Config, ins: seq<FabricIn>)
    requires LegalFabric(c, ins)
    ensures var r := FabricRunOf(c, ins);
            && r.log.acked <= r.log.accepted
            && r.s.mux.pending == |r.log.accepted| - |r.log.acked| <= 2
            && (forall k :: |r.log.acked| <= k < |r.log.accepted| ==> r.log.accepted[k].tcm == r.s.mux.tcmAccess)
  {
    RunRouted(c, ins);
  }

  // ----- Maintenance outside the TCM -----

  /** `n` operations have been counted that nobody will answer. */
  predicate Lost(s: Fabric, n: nat) {
    && DportAxi.Shape(s.bridge) && !s.mux.tcmAccess && !s.tcm.ack
    && s.mux.pending == |s.bridge.tags| + n
  }

  lemma FirstLost(c: Config, s: Fabric, i: FabricIn)
    requires Routed(s) && (SlaveAck(i) ==> s.bridge.pending) && Loses(c, s, i)
    ensures Lost(FabricNext(c, s, i), 1)
  {
    DportAxi.ShapeStep(s.bridge, ExtIn(c, s, i));
  }

  /** While the five-bit counter has not wrapped, no request for the TCM is taken. */
  lemma LostStep(c: Config, s: Fabric, i: FabricIn, n: nat)
    requires Lost(s, n) && 1 <= n <= 28 && (SlaveAck(i) ==> s.bridge.pending)
    ensures !(Taken(c, s, i) && Select(c, i)) && Lost(FabricNext(c, s, i), if Loses(c, s, i) then n + 1 else n)
  {
    DportAxi.ShapeStep(s.bridge, ExtIn(c, s, i));
  }

  /** The maintenance operations lost in a stretch of cycles. */
  function LostIn(c: Config, s: Fabric, ins: seq<FabricIn>): nat
    decreases |ins|
  {
    if ins == [] then 0 else
    (if Loses(c, s, ins[0]) then 1 else 0) + LostIn(c, FabricNext(c, s, ins[0]), ins[1..])
  }

  predicate SlaveLegal(c: Config, s: Fabric, ins: seq<FabricIn>)
    decreases |ins|
  {
    ins == [] || ((SlaveAck(ins[0]) ==> s.bridge.pending) && SlaveLegal(c, FabricNext(c, s, ins[0]), ins[1..]))
  }

  /** No request for the TCM is taken in a stretch of cycles. */
  predicate TcmShut(c: Config, s: Fabric, ins: seq<FabricIn>)
    decreases |ins|
  {
    ins == [] || (!(Taken(c, s, ins[0]) && Select(c, ins[0])) && TcmShut(c, FabricNext(c, s, ins[0]), ins[1..]))
  }

  lemma {:induction false} StaysShut(c: Config, s: Fabric, ins: seq<FabricIn>, n: nat)
    requires n >= 1 && Lost(s, n) && SlaveLegal(c, s, ins) && n + LostIn(c, s, ins) <= 28
    ensures TcmShut(c, s, ins)
    decreases |ins|
  {
    if ins != [] {
      LostStep(c, s, ins[0], n);
      StaysShut(c, FabricNext(c, s, ins[0]), ins[1..], if Loses(c, s, ins[0]) then n + 1 else n);
    }
  }

  /** One flush, invalidate or writeback taken outside the TCM, at any point of any legal run,
      shuts the CPU out of the TCM: no request for it is taken again, whatever follows, unless
      28 more such operations bring the five-bit counter near its wrap. */
  lemma FlushShutsTcm(c: Config, ins: seq<FabricIn>, i: FabricIn, more: seq<FabricIn>)
    requires LegalFabric(c, ins)
    requires var s := FabricRunOf(c, ins).s;
             && (SlaveAck(i) ==> s.bridge.pending) && Loses(c, s, i)
             && SlaveLegal(c, FabricNext(c, s, i), more) && LostIn(c, FabricNext(c, s, i), more) < 28
    ensures TcmShut(c, FabricNext(c, FabricRunOf(c, ins).s, i), more)
  {
    RunRouted(c, ins);
    var s := FabricRunOf(c, ins).s;
    FirstLost(c, s, i);
    StaysShut(c, FabricNext(c, s, i), more, 1);
  }

  /** It can happen: a flush outside the TCM, with the fabric at rest, is counted and nothing
      is outstanding. */
  lemma FlushTaken(c: Config, i: FabricIn)
    requires c.base == 0 && i.d == DataIn(0x8000_0000, 0, false, 0, 0, false, false, true) && !SlaveAck(i)
    ensures Loses(c, FABRIC_RESET, i)
    ensures var s := FabricNext(c, FABRIC_RESET, i); s.mux.pending == 1 && Outstanding(s) == []
  {
  }

  // ----- The parts of a run -----

  function BridgeIns(c: Config, ins: seq<FabricIn>): (r: seq<DportAxi.Inputs>)
    ensures |r| == |ins|
  {
    if ins == [] then [] else
    BridgeIns(c, ins[..|ins| - 1]) + [ExtIn(c, FabricRunOf(c, ins[..|ins| - 1]).s, ins[|ins| - 1])]
  }

  function TcmIns(c: Config, ins: seq<FabricIn>): (r: seq<(DataIn, AxiIn)>)
    ensures |r| == |ins|
  {
    if ins == [] then [] else
    TcmIns(c, ins[..|ins| - 1]) + [(TcmIn(c, FabricRunOf(c, ins[..|ins| - 1]).s, ins[|ins| - 1]), ins[|ins| - 1].axi)]
  }

  /** The tags of the requests for one target. */
  function TagsFor(xs: seq<Access>, tcm: bool): seq<Tag> {
    if xs == [] then [] else
    TagsFor(xs[..|xs| - 1], tcm) + if xs[|xs| - 1].tcm == tcm then [xs[|xs| - 1].tag] else []
  }

  lemma OneMore(xs: seq<Access>, x: Access, tcm: bool)
    ensures TagsFor(xs + [x], tcm) == TagsFor(xs, tcm) + if x.tcm == tcm then [x.tag] else []
  {
    assert (xs + [x])[..|xs|] == xs;
  }

  lemma ExtTaken(c: Config, s: Fabric, i: FabricIn)
    requires !Loses(c, s, i)
    ensures DportAxi.Request?(ExtIn(c, s, i)) && DportAxi.Accept(s.bridge) <==> Taken(c, s, i) && !Select(c, i)
    ensures Active(TcmIn(c, s, i)) && s.tcm.accept <==> Taken(c, s, i) && Select(c, i)
  {
  }

  lemma BridgeTags(c: Config, r: FabricRun, b: DportAxi.Run, i: FabricIn)
    requires b.s == r.s.bridge && !Loses(c, r.s, i)
    requires Seconds(b.log.accepted) == TagsFor(r.log.accepted, false)
    ensures Seconds(DportAxi.Record(b.s, b.log, ExtIn(c, r.s, i)).accepted)
         == TagsFor(Clocked(c, r, i).log.accepted, false)
  {
    ExtTaken(c, r.s, i);
    var x := ExtIn(c, r.s, i);
    if Taken(c, r.s, i) {
      OneMore(r.log.accepted, Access(Select(c, i), i.d.tag), false);
    }
    if Taken(c, r.s, i) && !Select(c, i) {
      assert Seconds(b.log.accepted + [(DportAxi.Incoming(x), x.tag)]) == Seconds(b.log.accepted) + [x.tag];
    } else {
      assert r.log.accepted + [] == r.log.accepted && b.log.accepted + [] == b.log.accepted;
    }
  }

  /** The bridge inside the fabric is in one of the bridge's own legal runs, so everything
      proved of those holds of it; and it has accepted exactly the CPU's external requests. */
  lemma {:induction false} BridgeInside(c: Config, ins: seq<FabricIn>)
    requires LegalFabric(c, ins)
    ensures var r, b := FabricRunOf(c, ins), DportAxi.RunOf(BridgeIns(c, ins));
            && DportAxi.Legal(BridgeIns(c, ins)) && b.s == r.s.bridge
            && Seconds(b.log.accepted) == TagsFor(r.log.accepted, false)
  {
    if ins != [] {
      var before, i := ins[..|ins| - 1], ins[|ins| - 1];
      BridgeInside(c, before);
      assert BridgeIns(c, ins)[..|ins| - 1] == BridgeIns(c, before);
      BridgeTags(c, FabricRunOf(c, before), DportAxi.RunOf(BridgeIns(c, before)), i);
    }
  }

  /** The TCM inside the fabric is in one of its own runs and has accepted exactly the CPU's
      requests for it. */
  lemma {:induction false} TcmInside(c: Config, ins: seq<FabricIn>)
    requires LegalFabric(c, ins)
    ensures var r := FabricRunOf(c, ins);
            && TcmRun(c.nx, TcmIns(c, ins)) == r.s.tcm
            && CpuLogOf(c.nx, TcmIns(c, ins)).accepted == TagsFor(r.log.accepted, true)
  {
    if ins != [] {
      var before, i := ins[..|ins| - 1], ins[|ins| - 1];
      var r := FabricRunOf(c, before);
      TcmInside(c, before);
      assert TcmIns(c, ins)[..|ins| - 1] == TcmIns(c, before);
      ExtTaken(c, r.s, i);
      OneMore(r.log.accepted, Access(Select(c, i), i.d.tag), true);
      assert r.log.accepted + [] == r.log.accepted;
    }
  }
}
