/** What the CPU sees of the fabric: the pins, the address map, and bounded waiting. */
module DataFabricProgress {
  import opened Bits
  import opened DataFabric
  import opened DataPort
  import opened DportMux
  import opened Seqs
  import opened TcmMem
  import DportAxi
  import DportAxiProgress

  // ----- The address map -----

  /** The TCM's 64 KiB start at the base; a window that reaches the end of the address space is
      empty, since its end is a 32-bit sum. */
  lemma InTcmIff(base: Word, addr: Word)
    ensures InTcm(base, addr) <==> base + 65536 < 0x1_0000_0000 && base <= addr < base + 65536
  {
  }

  // ----- The pins -----

  /** The three modules wired together make the fabric's step: what the mux shows the CPU and the
      two targets is what the fabric's run records. */
  lemma PinsWired(c: Config, s: Fabric, i: FabricIn, b: DportAxi.Outputs, o: MuxOut)
    requires Routed(s) && (SlaveAck(i) ==> s.bridge.pending)
    requires MuxDrives(s.mux, c.base, i.d, DataOut(0, s.tcm.accept, s.tcm.ack, false, s.tcm.tag),
                       DataOut(b.dataRd, b.accept, b.ack, b.error, b.respTag), o)
    requires DportAxi.Drives(s.bridge, BridgeIn(o.ext, i.slave), b)
    ensures o.tcm == TcmIn(c, s, i) && BridgeIn(o.ext, i.slave) == ExtIn(c, s, i)
    ensures Active(i.d) && o.cpu.accept <==> Taken(c, s, i)
    ensures o.cpu.ack == Acked(s, i) && (o.cpu.ack ==> o.cpu.respTag == RespTag(s))
    ensures o.cpu.ack && !s.mux.tcmAccess ==>
            o.cpu.dataRd == i.slave.rdata
            && o.cpu.error == (if i.slave.bvalid then i.slave.bresp != 0 else i.slave.rresp != 0)
    ensures o.cpu.ack && s.mux.tcmAccess ==> o.cpu.dataRd == 0 && !o.cpu.error
    ensures s.mux.tcmAccess ==> !(i.slave.bvalid || i.slave.rvalid)
    ensures !s.mux.tcmAccess ==> !s.tcm.ack
  {
  }

  /** With nothing outstanding the CPU's request is taken at once, unless it is for the TCM while an
      external beat has it; and it reaches the target its address says. */
  lemma TakenWhenFree(c: Config, s: Fabric, i: FabricIn)
    requires Routed(s) && s.mux.pending == 0 && Active(i.d)
    requires c.base <= i.d.addr < c.base + 65536 < 0x1_0000_0000 ==> s.tcm.accept
    ensures Taken(c, s, i)
    ensures c.base <= i.d.addr < c.base + 65536 < 0x1_0000_0000 ==>
            FabricNext(c, s, i).tcm.ack && FabricNext(c, s, i).tcm.tag == i.d.tag
    ensures !(c.base <= i.d.addr < c.base + 65536 < 0x1_0000_0000) && (i.d.rd || i.d.wr != 0) ==>
            FabricNext(c, s, i).bridge.tags == [i.d.tag]
  {
    InTcmIff(c.base, i.d.addr);
  }

  /** A request taken outside the TCM enters the bridge as the CPU made it. */
  lemma RequestReachesBridge(c: Config, s: Fabric, log: DportAxi.Log, i: FabricIn)
    requires Taken(c, s, i) && !Select(c, i) && (i.d.rd || i.d.wr != 0)
    ensures DportAxi.Record(s.bridge, log, ExtIn(c, s, i)).accepted
         == log.accepted + [(DportAxi.Request(i.d.rd, i.d.wr, i.d.data, i.d.addr), i.d.tag)]
  {
  }

  // ----- Prefixes -----

  lemma {:induction false} AcceptedPrefix(c: Config, ins: seq<FabricIn>, n: nat)
    requires n <= |ins|
    ensures FabricRunOf(c, ins[..n]).log.accepted <= FabricRunOf(c, ins).log.accepted
    decreases |ins|
  {
    if n == |ins| {
      assert ins[..n] == ins;
    } else {
      AcceptedPrefix(c, ins[..|ins| - 1], n);
      assert ins[..|ins| - 1][..n] == ins[..n];
    }
  }

  lemma {:induction false} BridgeInsPrefix(c: Config, ins: seq<FabricIn>, n: nat)
    requires n <= |ins|
    ensures BridgeIns(c, ins)[..n] == BridgeIns(c, ins[..n])
    decreases |ins|
  {
    if n == |ins| {
      assert ins[..n] == ins;
    } else {
      BridgeInsPrefix(c, ins[..|ins| - 1], n);
      assert ins[..|ins| - 1][..n] == ins[..n];
      assert BridgeIns(c, ins)[..n] == BridgeIns(c, ins[..|ins| - 1])[..n];
    }
  }

  lemma {:induction false} LegalPrefix(c: Config, ins: seq<FabricIn>, n: nat)
    requires LegalFabric(c, ins) && n <= |ins|
    ensures LegalFabric(c, ins[..n])
    decreases |ins|
  {
    if n == |ins| {
      assert ins[..n] == ins;
    } else {
      LegalPrefix(c, ins[..|ins| - 1], n);
      assert ins[..|ins| - 1][..n] == ins[..n];
    }
  }

  lemma {:induction false} FewTags(a: seq<Access>, b: seq<Access>, tcm: bool)
    requires a <= b
    ensures |TagsFor(a, tcm)| <= |TagsFor(b, tcm)| <= |TagsFor(a, tcm)| + (|b| - |a|)
    decreases |b|
  {
    if |a| == |b| {
      assert a == b;
    } else {
      FewTags(a, b[..|b| - 1], tcm);
    }
  }

  // ----- Waiting -----

  /** Of the external requests accepted by cycle `n`, none is still in the bridge. */
  lemma BridgeCaughtUp(c: Config, ins: seq<FabricIn>, k: nat, n: nat)
    requires LegalFabric(c, ins) && DportAxiProgress.Prompt(BridgeIns(c, ins), k) && n + 6 * (k + 1) <= |ins|
    ensures var r, r0 := FabricRunOf(c, ins), FabricRunOf(c, ins[..n]);
            |r.s.bridge.tags| + |TagsFor(r0.log.accepted, false)| <= |TagsFor(r.log.accepted, false)|
  {
    LegalPrefix(c, ins, n);
    BridgeInside(c, ins);
    BridgeInside(c, ins[..n]);
    BridgeInsPrefix(c, ins, n);
    DportAxiProgress.AcknowledgedInTime(BridgeIns(c, ins), k, n);
    DportAxiProgress.Outstanding(BridgeIns(c, ins), n);
    var b := DportAxi.RunOf(BridgeIns(c, ins));
    assert |Seconds(b.log.accepted)| == |b.log.accepted|;
  }

  /** The TCM owes only what was accepted in the last cycle. */
  lemma TcmOwesLast(c: Config, ins: seq<FabricIn>, n: nat)
    requires LegalFabric(c, ins) && n < |ins|
    ensures var r, r0 := FabricRunOf(c, ins), FabricRunOf(c, ins[..n]);
            r.s.tcm.ack ==> |r0.log.accepted| + 1 <= |r.log.accepted|
  {
    var before := ins[..|ins| - 1];
    AcceptedPrefix(c, before, n);
    assert before[..n] == ins[..n];
  }

  /** With a slave that never idles for more than `k` cycles when asked, every CPU request is
      acknowledged, in order and by its target, within 6 * (k + 1) cycles of its acceptance. */
  lemma CpuAcknowledgedInTime(c: Config, ins: seq<FabricIn>, k: nat, n: nat)
    requires LegalFabric(c, ins) && DportAxiProgress.Prompt(BridgeIns(c, ins), k) && n + 6 * (k + 1) <= |ins|
    ensures FabricRunOf(c, ins[..n]).log.accepted <= FabricRunOf(c, ins).log.acked
  {
    var r, r0 := FabricRunOf(c, ins), FabricRunOf(c, ins[..n]);
    RunRouted(c, ins);
    AcceptedPrefix(c, ins, n);
    BridgeCaughtUp(c, ins, k, n);
    FewTags(r0.log.accepted, r.log.accepted, false);
    TcmOwesLast(c, ins, n);
    assert |r.log.acked| >= |r0.log.accepted|;
  }

  /** A request that has not been taken for that long is taken in the next cycle, unless it is for the
      TCM while an external beat has it. */
  lemma CpuTakenInTime(c: Config, ins: seq<FabricIn>, k: nat, n: nat, i: FabricIn)
    requires LegalFabric(c, ins) && DportAxiProgress.Prompt(BridgeIns(c, ins), k) && n + 6 * (k + 1) <= |ins|
    requires FabricRunOf(c, ins).log.accepted == FabricRunOf(c, ins[..n]).log.accepted
    requires Active(i.d) && (InTcm(c.base, i.d.addr) ==> FabricRunOf(c, ins).s.tcm.accept)
    ensures Taken(c, FabricRunOf(c, ins).s, i)
  {
    CpuAcknowledgedInTime(c, ins, k, n);
    RunRouted(c, ins);
    InTcmIff(c.base, i.d.addr);
    TakenWhenFree(c, FabricRunOf(c, ins).s, i);
  }
}
