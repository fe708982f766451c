/** The bridge makes progress: with a slave that is prompt, every accepted request is handed over and
    acknowledged in bounded time. */
module DportAxiProgress {
  import opened Arith
  import opened Bits
  import opened DportAxi
  import opened Seqs

  // ----- One cycle -----

  /** A request at the head is issued at once to a slave that is ready, as soon as nothing is
      outstanding or the outstanding transaction is answered. */
  lemma IssuedWhenReady(s: State, log: Log, i: Inputs)
    requires Shape(s) && s.reqs != [] && (!s.pending || i.bvalid || i.rvalid) && i.awready && i.wready && i.arready
    ensures Record(s, log, i).issued == log.issued + [s.reqs[0]]
  {
  }

  /** The CPU is accepted whenever fewer than two requests await their acknowledge. */
  lemma AcceptedWhenRoom(s: State, i: Inputs)
    requires Shape(s) && |s.tags| < 2 && (i.rd || i.wr != 0)
    ensures Accept(s) && Next(s, i).tags == (if Ack(i) && s.tags != [] then s.tags[1..] else s.tags) + [i.tag]
  {
  }

  /** The logs record what crosses the pins. */
  lemma PinsAreLogged(s: State, log: Log, i: Inputs, o: Outputs)
    requires Shape(s) && Drives(s, i, o) && (Ack(i) ==> s.pending)
    ensures var l := Record(s, log, i);
            && l.aw == log.aw + (if o.awvalid && i.awready then [o.awaddr] else [])
            && l.w == log.w + (if o.wvalid && i.wready then [(o.wdata, o.wstrb)] else [])
            && l.ar == log.ar + (if o.arvalid && i.arready then [o.araddr] else [])
            && l.acked == log.acked + (if i.bvalid || i.rvalid then [o.respTag] else [])
            && l.accepted == log.accepted
                 + (if (i.rd || i.wr != 0) && o.accept then [(Request(i.rd, i.wr, i.data, i.addr), i.tag)] else [])
            && o.ack == (i.bvalid || i.rvalid) && o.dataRd == i.rdata
            && o.error == (if i.bvalid then i.bresp != 0 else i.rresp != 0)
            && (o.awvalid ==> o.awaddr == s.reqs[0].addr - s.reqs[0].addr % 4)
            && (o.arvalid ==> o.araddr == s.reqs[0].addr - s.reqs[0].addr % 4)
  {
  }

  // ----- A prompt slave -----

  /** The slave is asked for something: a handshake or a response. */
  predicate Asked(s: State, i: Inputs) {
    s.pending || AwValid(s, i) || WValid(s, i) || ArValid(s, i)
  }

  predicate Obliges(s: State, i: Inputs) {
    Ack(i) || (AwValid(s, i) && i.awready) || (WValid(s, i) && i.wready) || (ArValid(s, i) && i.arready)
  }

  /** The cycles, up to the last, for which the slave has been asked and done nothing. */
  function Idling(ins: seq<Inputs>): nat {
    if ins == [] then 0 else
    var before, i := ins[..|ins| - 1], ins[|ins| - 1];
    if Asked(RunOf(before).s, i) && !Obliges(RunOf(before).s, i) then Idling(before) + 1 else 0
  }

  /** It never idles for more than `k` cycles. */
  predicate Prompt(ins: seq<Inputs>, k: nat) {
    ins == [] || (Prompt(ins[..|ins| - 1], k) && Idling(ins) <= k)
  }

  // ----- Progress -----

  /** Three steps for each transaction: a first half handed over, both, and the response. */
  function Steps(s: State, log: Log): nat {
    3 * |log.acked| + if s.pending then 2 else if s.awInhibit || s.wInhibit then 1 else 0
  }

  /** While anything awaits its acknowledge, the slave is asked. */
  lemma AlwaysAsked(s: State, i: Inputs)
    requires Shape(s) && s.tags != [] && (Ack(i) ==> s.pending)
    ensures Asked(s, i)
  {
  }

  lemma StepsGrow(s: State, log: Log, i: Inputs)
    requires Shape(s) && (Ack(i) ==> s.pending)
    ensures Steps(Next(s, i), Record(s, log, i)) >= Steps(s, log) + if Obliges(s, i) then 1 else 0
  {
  }

  /** Progress in cycles: each step is worth as many as the slave may idle, and one. */
  function Progress(ins: seq<Inputs>, k: nat): nat {
    (k + 1) * Steps(RunOf(ins).s, RunOf(ins).log) + Idling(ins)
  }

  lemma ProgressStep(ins: seq<Inputs>, k: nat)
    requires ins != [] && Legal(ins) && Prompt(ins, k)
    requires RunOf(ins[..|ins| - 1]).s.tags != []
    ensures Progress(ins, k) >= Progress(ins[..|ins| - 1], k) + 1
  {
    var before, i := ins[..|ins| - 1], ins[|ins| - 1];
    var r := RunOf(before);
    RunKeeps(before);
    AlwaysAsked(r.s, i);
    StepsGrow(r.s, r.log, i);
    var m, n := Steps(r.s, r.log), Steps(RunOf(ins).s, RunOf(ins).log);
    Grown(k + 1, m, n, Obliges(r.s, i));
    IdlingBounded(before, k);
  }

  lemma Grown(k: nat, m: nat, n: nat, more: bool)
    requires n >= m + if more then 1 else 0
    ensures k * n >= k * m + if more then k else 0
  {
    assert k * n == k * m + k * (n - m);
    if more {
      assert k * (n - m) == k + k * (n - m - 1);
    }
  }

  /** The acknowledges never go back. */
  lemma {:induction false} Monotone(ins: seq<Inputs>, n: nat)
    requires n <= |ins|
    ensures |RunOf(ins[..n]).log.acked| <= |RunOf(ins).log.acked|
    ensures |RunOf(ins[..n]).log.accepted| <= |RunOf(ins).log.accepted|
    decreases |ins|
  {
    if n == |ins| {
      assert ins[..n] == ins;
    } else {
      Monotone(ins[..|ins| - 1], n);
      assert ins[..|ins| - 1][..n] == ins[..n];
    }
  }

  /** Until all that was accepted by cycle `n` is acknowledged, each cycle brings progress. */
  lemma {:induction false} ProgressSince(ins: seq<Inputs>, k: nat, n: nat)
    requires Legal(ins) && Prompt(ins, k) && n <= |ins|
    ensures |RunOf(ins).log.acked| >= |RunOf(ins[..n]).log.accepted|
            || Progress(ins, k) >= Progress(ins[..n], k) + (|ins| - n)
    decreases |ins|
  {
    if n == |ins| {
      assert ins[..n] == ins;
    } else {
      var before := ins[..|ins| - 1];
      assert before[..n] == ins[..n];
      ProgressSince(before, k, n);
      Monotone(ins, |before|);
      if |RunOf(before).log.acked| < |RunOf(ins[..n]).log.accepted| {
        Outstanding(before, n);
        ProgressStep(ins, k);
      }
    }
  }

  /** What is accepted and not acknowledged awaits in the tag queue. */
  lemma Outstanding(ins: seq<Inputs>, n: nat)
    requires Legal(ins) && n <= |ins|
    ensures |RunOf(ins).log.accepted| == |RunOf(ins).log.acked| + |RunOf(ins).s.tags|
    ensures |RunOf(ins).s.tags| <= 2 && |RunOf(ins[..n]).log.accepted| <= |RunOf(ins).log.accepted|
  {
    RunKeeps(ins);
    Monotone(ins, n);
    assert |Seconds(RunOf(ins).log.accepted)| == |RunOf(ins).log.accepted|;
  }

  lemma {:induction false} PrefixLegal(ins: seq<Inputs>, n: nat)
    requires Legal(ins) && n <= |ins|
    ensures Legal(ins[..n])
    decreases |ins|
  {
    if n == |ins| {
      assert ins[..n] == ins;
    } else {
      PrefixLegal(ins[..|ins| - 1], n);
      assert ins[..|ins| - 1][..n] == ins[..n];
    }
  }

  lemma TooSlow(k: nat, early: nat, late: nat, idling: nat)
    requires late <= early + 5 && idling < k
    ensures k * late + idling < k * early + 6 * k
  {
    Grown(k, late, early + 5, false);
    assert k * (early + 5) == k * early + 5 * k;
  }

  lemma IdlingBounded(ins: seq<Inputs>, k: nat)
    requires Prompt(ins, k)
    ensures Idling(ins) <= k
  {
  }

  /** With a slave that never idles for more than `k` cycles when asked, every request is handed over
      and acknowledged within 6 * (k + 1) cycles of its acceptance. */
  lemma AcknowledgedInTime(ins: seq<Inputs>, k: nat, n: nat)
    requires Legal(ins) && Prompt(ins, k) && n + 6 * (k + 1) <= |ins|
    ensures |RunOf(ins).log.acked| >= |RunOf(ins[..n]).log.accepted|
    ensures |RunOf(ins).log.issued| >= |RunOf(ins[..n]).log.accepted|
  {
    var first := ins[..n];
    ProgressSince(ins, k, n);
    PrefixLegal(ins, n);
    Outstanding(first, n);
    IdlingBounded(ins, k);
    BridgeConserves(ins);
    if |RunOf(ins).log.acked| < |RunOf(first).log.accepted| {
      TooSlow(k + 1, Steps(RunOf(first).s, RunOf(first).log), Steps(RunOf(ins).s, RunOf(ins).log), Idling(ins));
    }
  }
}
