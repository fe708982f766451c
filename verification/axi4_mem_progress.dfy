/** The testbench memory makes progress whenever its coins allow: commands are taken, and everything
    taken is answered. */
module Axi4MemProgress {
  import opened Axi4Mem
  import opened Axi4MemRuns
  import opened Bits
  import opened Bursts
  import opened TcmMemPmem

  /** When each ready is up: no coin against it, fewer than 128 items in its queue and, for a write
      command, none recorded. */
  lemma ReadyIff(s: MemState, a: AxiIn, d: Delays)
    ensures var t := MemNext(s, a, d);
            && (t.ready.ar <==> !d.ar && |t.rdQ| < 128)
            && (t.ready.aw <==> !d.aw && |t.wrQ| < 128 && !t.req.valid)
            && (t.ready.w <==> !d.aw && !d.w && |t.wrQ| < 128)
  {
  }

  /** No coin falls against the memory, and the master takes what it is offered. */
  predicate Favourable(a: AxiIn, d: Delays) {
    !d.r && !d.b && !d.ar && !d.aw && !d.w && a.rready && a.bready
  }

  function Favours(ins: seq<(AxiIn, Delays)>): nat
    decreases |ins|
  {
    if ins == [] then 0 else (if Favourable(ins[0].0, ins[0].1) then 1 else 0) + Favours(ins[1..])
  }

  // ----- Commands are taken -----

  predicate ReadRefused(s: MemState, ins: seq<(AxiIn, Delays)>)
    decreases |ins|
  {
    ins == [] || (ins[0].0.arvalid && !ArTaken(s, ins[0].0) && ReadRefused(MemNext(s, ins[0].0, ins[0].1), ins[1..]))
  }

  lemma ReadShrinks(s: MemState, a: AxiIn, d: Delays)
    requires a.arvalid && !ArTaken(s, a)
    ensures var t := MemNext(s, a, d);
            && |t.rdQ| <= |s.rdQ| && (Favourable(a, d) && s.rdQ != [] ==> |t.rdQ| == |s.rdQ| - 1)
            && (Favourable(a, d) && |t.rdQ| < 128 ==> t.ready.ar)
  {
  }

  /** A read command is refused in at most one favourable cycle more than its queue is over 128. */
  lemma {:induction false} ReadTakenInTime(s: MemState, ins: seq<(AxiIn, Delays)>)
    requires ReadRefused(s, ins)
    ensures Favours(ins) <= 1 + if |s.rdQ| > 128 then |s.rdQ| - 128 else 0
    decreases |ins|
  {
    if ins != [] {
      var a, d := ins[0].0, ins[0].1;
      ReadShrinks(s, a, d);
      ReadTakenInTime(MemNext(s, a, d), ins[1..]);
    }
  }

  /** The master offers the beats of the recorded command, `left` of them, the last one marked. */
  predicate WriteRefused(s: MemState, left: nat, ins: seq<(AxiIn, Delays)>)
    decreases |ins|
  {
    ins == [] ||
    var (a, d) := ins[0];
    && a.awvalid && !AwTaken(s, a) && (s.req.valid <==> left > 0)
    && (left > 0 ==> a.wvalid && (a.w.last <==> left == 1))
    && (left == 0 ==> !a.wvalid)
    && WriteRefused(MemNext(s, a, d), if WTaken(s, a) then left - 1 else left, ins[1..])
  }

  function Ahead(s: MemState, left: nat): nat {
    2 * left + if s.ready.w then 0 else 1
  }

  lemma WriteAdvances(s: MemState, left: nat, a: AxiIn, d: Delays)
    requires Bounded(s) && a.awvalid && !AwTaken(s, a) && (s.req.valid <==> left > 0)
    requires (left > 0 ==> a.wvalid && (a.w.last <==> left == 1)) && (left == 0 ==> !a.wvalid)
    ensures var t, left' := MemNext(s, a, d), if WTaken(s, a) then left - 1 else left;
            && (left > 0 ==> Ahead(t, left') <= Ahead(s, left))
            && (left > 0 && Favourable(a, d) ==> Ahead(t, left') < Ahead(s, left))
            && (Favourable(a, d) && left' == 0 ==> t.ready.aw)
  {
  }

  /** A write command behind one with `left` beats to come is refused in at most 2 * left + 2
      favourable cycles. */
  lemma {:induction false} WriteTakenInTime(s: MemState, left: nat, ins: seq<(AxiIn, Delays)>)
    requires Bounded(s) && WriteRefused(s, left, ins)
    ensures Favours(ins) <= 1 + if left == 0 then 0 else Ahead(s, left)
    decreases |ins|
  {
    if ins != [] {
      var (a, d) := ins[0];
      WriteAdvances(s, left, a, d);
      BoundedStep(s, a, d);
      WriteTakenInTime(MemNext(s, a, d), if WTaken(s, a) then left - 1 else left, ins[1..]);
    }
  }

  // ----- Everything taken is answered -----

  function Load(s: MemState): nat {
    2 * |s.rdQ| + 2 * |s.wrQ| + (if s.rvalid then 1 else 0) + if s.bvalid then 1 else 0
  }

  predicate Silent(a: AxiIn) {
    !a.arvalid && !a.awvalid && !a.wvalid
  }

  lemma LoadFalls(s: MemState, a: AxiIn, d: Delays)
    requires Silent(a)
    ensures var t := MemNext(s, a, d);
            Load(t) <= Load(s) && (Favourable(a, d) && Load(s) > 0 ==> Load(t) < Load(s)) && t.req == s.req
  {
  }

  /** From cycle `n` on, the master offers nothing new. */
  predicate SilentFrom(ins: seq<(AxiIn, Delays)>, n: nat) {
    forall k :: n <= k < |ins| ==> Silent(ins[k].0)
  }

  function FavoursFrom(ins: seq<(AxiIn, Delays)>, n: nat): nat {
    if |ins| <= n then 0 else
    FavoursFrom(ins[..|ins| - 1], n) + if Favourable(ins[|ins| - 1].0, ins[|ins| - 1].1) then 1 else 0
  }

  lemma {:induction false} LoadDrains(initial: Memory, ins: seq<(AxiIn, Delays)>, n: nat)
    requires LegalMaster(initial, ins) && n <= |ins| && SilentFrom(ins, n)
    ensures var s := MemRunOf(initial, ins).s; Load(s) == 0 || Load(s) + FavoursFrom(ins, n) <= 1024
    decreases |ins|
  {
    RunKeeps(initial, ins);
    if |ins| > n {
      var before := ins[..|ins| - 1];
      LoadDrains(initial, before, n);
      LoadFalls(MemRunOf(initial, before).s, ins[|ins| - 1].0, ins[|ins| - 1].1);
    }
  }

  /** Total service: after any run, once the master has finished its commands and their data, 1024
      favourable cycles answer everything: each read beat with its data, each write burst with
      one B. */
  lemma ServedInTime(initial: Memory, ins: seq<(AxiIn, Delays)>, n: nat)
    requires LegalMaster(initial, ins) && n <= |ins| && SilentFrom(ins, n) && FavoursFrom(ins, n) >= 1024
    requires !MemRunOf(initial, ins).s.req.valid
    ensures var log := MemRunOf(initial, ins).log;
            && log.r == log.served && log.fetched == AllReads(log.rdCmds) && DataOk(initial, log)
            && log.b == Ids(log.wrCmds) && Places(log.performed) == AllWrites(log.wrCmds)
  {
    LoadDrains(initial, ins, n);
    DrainedRunAnswersAll(initial, ins);
  }
}
