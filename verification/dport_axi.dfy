/** `dport_axi`: the bridge from the CPU data port to an AXI4-Lite master port. It queues up to
    two requests, keeps one transaction outstanding, and offers a write's address and data on
    two channels that the slave may accept in either order. */
module DportAxi {
  import opened Bits
  import opened Fifos
  import opened Seqs

  datatype Request = Request(rd: bool, wr: Nibble, data: Word, addr: Word)

  datatype Inputs = Inputs(addr: Word, data: Word, rd: bool, wr: Nibble, tag: Tag,
                           awready: bool, wready: bool, bvalid: bool, bresp: Pair,
                           arready: bool, rvalid: bool, rdata: Word, rresp: Pair)

  datatype Outputs = Outputs(dataRd: Word, accept: bool, ack: bool, error: bool, respTag: Tag,
                             awvalid: bool, awaddr: Word, wvalid: bool, wdata: Word, wstrb: Nibble,
                             arvalid: bool, araddr: Word)

  /** The registers, with each FIFO as the queue it holds. */
  datatype State = State(reqs: seq<Request>, tags: seq<Tag>, pending: bool,
                         awInhibit: bool, wInhibit: bool)

  const RESET := State([], [], false, false, false)
  const DEPTH := 2

  // ----- Wires -----

  predicate Ack(i: Inputs) {
    i.bvalid || i.rvalid
  }

  predicate Accept(s: State) {
    |s.reqs| != DEPTH && |s.tags| != DEPTH
  }

  predicate Request?(i: Inputs) {
    i.rd || i.wr != 0
  }

  /** A request at the head of the queue with no transaction in progress ahead of it. */
  predicate HeadReady(s: State, i: Inputs) {
    s.reqs != [] && !(s.pending && !Ack(i))
  }

  predicate AwValid(s: State, i: Inputs) {
    HeadReady(s, i) && !s.reqs[0].rd && !s.awInhibit
  }

  predicate WValid(s: State, i: Inputs) {
    HeadReady(s, i) && !s.reqs[0].rd && !s.wInhibit
  }

  predicate ArValid(s: State, i: Inputs) {
    HeadReady(s, i) && s.reqs[0].rd
  }

  predicate WriteComplete(s: State, i: Inputs) {
    (s.awInhibit || i.awready) && (s.wInhibit || i.wready) && HeadReady(s, i) && !s.reqs[0].rd
  }

  predicate ReadComplete(s: State, i: Inputs) {
    ArValid(s, i) && i.arready
  }

  function Incoming(i: Inputs): Request {
    Request(i.rd, i.wr, i.data, i.addr)
  }

  // ----- The clock -----

  function Next(s: State, i: Inputs): State {
    var issue := ReadComplete(s, i) || WriteComplete(s, i);
    State(
      QueueNext(s.reqs, DEPTH, Request?(i) && |s.tags| != DEPTH, Incoming(i), issue),
      QueueNext(s.tags, DEPTH, Request?(i) && |s.reqs| != DEPTH, i.tag, Ack(i)),
      if issue then true else if Ack(i) then false else s.pending,
      if AwValid(s, i) && i.awready && WValid(s, i) && !i.wready then true
      else if WValid(s, i) && i.wready then false else s.awInhibit,
      if WValid(s, i) && i.wready && AwValid(s, i) && !i.awready then true
      else if AwValid(s, i) && i.awready then false else s.wInhibit)
  }

  /** Payload outputs are meaningful only while their valid is up. */
  ghost predicate Drives(s: State, i: Inputs, o: Outputs) {
    && o.accept == Accept(s) && o.ack == Ack(i) && o.dataRd == i.rdata
    && o.error == (if i.bvalid then i.bresp != 0 else i.rresp != 0)
    && (s.tags != [] ==> o.respTag == s.tags[0])
    && o.awvalid == AwValid(s, i) && o.wvalid == WValid(s, i) && o.arvalid == ArValid(s, i)
    && (o.awvalid ==> o.awaddr == AlignWord(s.reqs[0].addr))
    && (o.wvalid ==> o.wdata == s.reqs[0].data && o.wstrb == s.reqs[0].wr)
    && (o.arvalid ==> o.araddr == AlignWord(s.reqs[0].addr))
  }

  class Bridge {
    const reqFifo: Fifo<Request>
    const respFifo: Fifo<Tag>
    var requestPending: bool
    var awvalidInhibit: bool
    var wvalidInhibit: bool

    ghost predicate Valid()
      reads this, reqFifo, reqFifo.ram, respFifo, respFifo.ram
    {
      && reqFifo.Valid() && respFifo.Valid() && reqFifo.depth == DEPTH && respFifo.depth == DEPTH
      && reqFifo.ram as object != respFifo.ram as object
    }

    ghost function Abs(): State
      requires Valid()
      reads this, reqFifo, reqFifo.ram, respFifo, respFifo.ram
    {
      State(reqFifo.queue, respFifo.queue, requestPending, awvalidInhibit, wvalidInhibit)
    }

    constructor ()
      ensures Valid() && fresh(reqFifo) && fresh(reqFifo.ram) && fresh(respFifo) && fresh(respFifo.ram)
      ensures Abs() == RESET
    {
      var q := new Fifo<Request>(1, Request(false, 0, 0, 0));
      var t := new Fifo<Tag>(1, 0);
      reqFifo, respFifo := q, t;
      requestPending, awvalidInhibit, wvalidInhibit := false, false, false;
    }

    /** The combinational outputs, and whether the request at the head completes. */
    method Wires(i: Inputs) returns (o: Outputs, writeComplete: bool, readComplete: bool)
      requires Valid()
      ensures Drives(Abs(), i, o)
      ensures readComplete == ReadComplete(Abs(), i) && writeComplete == WriteComplete(Abs(), i)
    {
      var req := reqFifo.DataOutO();
      var ack := i.bvalid || i.rvalid;
      var inProgress := requestPending && !ack;
      var isRead := reqFifo.ValidO() && !inProgress && req.rd;
      var isWrite := reqFifo.ValidO() && !inProgress && !req.rd;
      writeComplete := (awvalidInhibit || i.awready) && (wvalidInhibit || i.wready) && isWrite;
      readComplete := isRead && i.arready;
      o := Outputs(i.rdata, reqFifo.AcceptO() && respFifo.AcceptO(), ack,
                   if i.bvalid then i.bresp != 0 else i.rresp != 0, respFifo.DataOutO(),
                   isWrite && !awvalidInhibit, AlignWord(req.addr),
                   isWrite && !wvalidInhibit, req.data, req.wr, isRead, AlignWord(req.addr));
    }

    /** The clock edge of the two queues. */
    method ClockFifos(i: Inputs, issue: bool)
      requires Valid()
      modifies reqFifo, reqFifo.ram, respFifo, respFifo.ram
      ensures Valid()
      ensures reqFifo.queue == old(QueueNext(reqFifo.queue, DEPTH,
                                            Request?(i) && |respFifo.queue| != DEPTH, Incoming(i), issue))
      ensures respFifo.queue == old(QueueNext(respFifo.queue, DEPTH,
                                             Request?(i) && |reqFifo.queue| != DEPTH, i.tag, Ack(i)))
    {
      var reqPush := (i.rd || i.wr != 0) && respFifo.AcceptO();
      var respPush := (i.rd || i.wr != 0) && reqFifo.AcceptO();
      reqFifo.Tick(reqPush, Request(i.rd, i.wr, i.data, i.addr), issue);
      respFifo.Tick(respPush, i.tag, i.bvalid || i.rvalid);
    }

    /** The inhibit flags and the pending flag. */
    method ClockFlags(i: Inputs, o: Outputs, issue: bool)
      modifies this`awvalidInhibit, this`wvalidInhibit, this`requestPending
      ensures awvalidInhibit == if o.awvalid && i.awready && o.wvalid && !i.wready then true
                                else if o.wvalid && i.wready then false else old(awvalidInhibit)
      ensures wvalidInhibit == if o.wvalid && i.wready && o.awvalid && !i.awready then true
                               else if o.awvalid && i.awready then false else old(wvalidInhibit)
      ensures requestPending == if issue then true else if o.ack then false else old(requestPending)
    {
      awvalidInhibit, wvalidInhibit, requestPending :=
        if o.awvalid && i.awready && o.wvalid && !i.wready then true
        else if o.wvalid && i.wready then false else awvalidInhibit,
        if o.wvalid && i.wready && o.awvalid && !i.awready then true
        else if o.awvalid && i.awready then false else wvalidInhibit,
        if issue then true else if o.ack then false else requestPending;
    }

    method Tick(i: Inputs) returns (o: Outputs)
      requires Valid()
      modifies this, reqFifo, reqFifo.ram, respFifo, respFifo.ram
      ensures Valid()
      ensures Abs() == Next(old(Abs()), i)
      ensures Drives(old(Abs()), i, o)
    {
      var writeComplete, readComplete;
      o, writeComplete, readComplete := Wires(i);
      ClockFifos(i, readComplete || writeComplete);
      ClockFlags(i, o, readComplete || writeComplete);
    }
  }

  // ----- Runs -----

  /** Everything that crossed a port, each log in order of time. */
  datatype Log = Log(accepted: seq<(Request, Tag)>, issued: seq<Request>, acked: seq<Tag>,
                     aw: seq<Word>, w: seq<(Word, Nibble)>, ar: seq<Word>)

  datatype Run = Run(s: State, log: Log)

  function Record(s: State, log: Log, i: Inputs): Log {
    Log(
      log.accepted + (if Request?(i) && Accept(s) then [(Incoming(i), i.tag)] else []),
      log.issued + (if (ReadComplete(s, i) || WriteComplete(s, i)) && s.reqs != [] then [s.reqs[0]] else []),
      log.acked + (if Ack(i) && s.tags != [] then [s.tags[0]] else []),
      log.aw + (if AwValid(s, i) && i.awready then [AlignWord(s.reqs[0].addr)] else []),
      log.w + (if WValid(s, i) && i.wready then [(s.reqs[0].data, s.reqs[0].wr)] else []),
      log.ar + (if ArValid(s, i) && i.arready then [AlignWord(s.reqs[0].addr)] else []))
  }

  function RunOf(ins: seq<Inputs>): Run {
    if ins == [] then Run(RESET, Log([], [], [], [], [], [])) else
    var r := RunOf(ins[..|ins| - 1]);
    var i := ins[|ins| - 1];
    Run(Next(r.s, i), Record(r.s, r.log, i))
  }

  /** The only thing asked of the slave: a response answers an outstanding transaction. */
  predicate Legal(ins: seq<Inputs>) {
    ins == [] ||
    (Legal(ins[..|ins| - 1]) && (Ack(ins[|ins| - 1]) ==> RunOf(ins[..|ins| - 1]).s.pending))
  }

  /** The address, data and read-address handshakes one issued request stands for. */
  function AwOf(r: Request): seq<Word> {
    if r.rd then [] else [AlignWord(r.addr)]
  }

  function WOf(r: Request): seq<(Word, Nibble)> {
    if r.rd then [] else [(r.data, r.wr)]
  }

  function ArOf(r: Request): seq<Word> {
    if r.rd then [AlignWord(r.addr)] else []
  }

  function Gather<T>(rs: seq<Request>, f: Request -> seq<T>): seq<T> {
    if rs == [] then [] else Gather(rs[..|rs| - 1], f) + f(rs[|rs| - 1])
  }

  // ----- Conservation -----

  /** Flags and occupancy. The tag queue holds a tag for every queued request and one for the
      outstanding transaction; at most one half of the head write has been handed over. */
  predicate Shape(s: State) {
    && |s.tags| == |s.reqs| + (if s.pending then 1 else 0) && |s.tags| <= DEPTH
    && !(s.awInhibit && s.wInhibit)
    && (s.awInhibit || s.wInhibit ==> s.reqs != [] && !s.reqs[0].rd && !s.pending)
  }

  /** What is already handed over of the write at the head. */
  function Half<T>(s: State, inhibit: bool, f: Request -> seq<T>): seq<T> {
    if inhibit && s.reqs != [] then f(s.reqs[0]) else []
  }

  ghost predicate Conserved(s: State, log: Log) {
    && Firsts(log.accepted) == log.issued + s.reqs
    && Seconds(log.accepted) == log.acked + s.tags
    && log.aw == Gather(log.issued, AwOf) + Half(s, s.awInhibit, AwOf)
    && log.w == Gather(log.issued, WOf) + Half(s, s.wInhibit, WOf)
    && log.ar == Gather(log.issued, ArOf)
  }

  lemma ShapeStep(s: State, i: Inputs)
    requires Shape(s) && (Ack(i) ==> s.pending)
    ensures Shape(Next(s, i))
  {
  }

  lemma AcceptedStep(s: State, log: Log, i: Inputs)
    requires Shape(s) && Conserved(s, log) && (Ack(i) ==> s.pending)
    ensures Firsts(Record(s, log, i).accepted) == Record(s, log, i).issued + Next(s, i).reqs
    ensures Seconds(Record(s, log, i).accepted) == Record(s, log, i).acked + Next(s, i).tags
  {
    var push := Request?(i) && Accept(s);
    var a := log.accepted + if push then [(Incoming(i), i.tag)] else [];
    assert Firsts(a) == Firsts(log.accepted) + if push then [Incoming(i)] else [];
    assert Seconds(a) == Seconds(log.accepted) + if push then [i.tag] else [];
    QueueMoves(log.issued, s.reqs, ReadComplete(s, i) || WriteComplete(s, i), if push then [Incoming(i)] else []);
    QueueMoves(log.acked, s.tags, Ack(i), if push then [i.tag] else []);
  }

  lemma GatherAppend<T>(rs: seq<Request>, r: Request, f: Request -> seq<T>)
    ensures Gather(rs + [r], f) == Gather(rs, f) + f(r)
  {
    assert (rs + [r])[..|rs|] == rs;
  }

  predicate Issues(s: State, i: Inputs)
    ensures Issues(s, i) ==> s.reqs != []
  {
    ReadComplete(s, i) || WriteComplete(s, i)
  }

  lemma IssuedGather<T>(s: State, log: Log, i: Inputs, f: Request -> seq<T>)
    ensures Gather(Record(s, log, i).issued, f) == Gather(log.issued, f) + if Issues(s, i) then f(s.reqs[0]) else []
  {
    if Issues(s, i) {
      GatherAppend(log.issued, s.reqs[0], f);
    } else {
      assert log.issued + [] == log.issued;
    }
  }

  /** A half handed over, and what is handed over now, make the whole of the request that is issued,
      or the half that remains. */
  lemma ChannelMoves<T>(log: seq<T>, gone: seq<T>, half: seq<T>, sent: seq<T>, whole: seq<T>,
                        issue: bool, half': seq<T>)
    requires log == gone + half
    requires if issue then half + sent == whole && half' == [] else half' == half + sent && whole == []
    ensures log + sent == (gone + whole) + half'
  {
    assert log + sent == gone + (half + sent);
  }

  function AwSent(s: State, i: Inputs): seq<Word> {
    if AwValid(s, i) && i.awready then [AlignWord(s.reqs[0].addr)] else []
  }

  lemma AwMoves(s: State, i: Inputs)
    requires Shape(s) && (Ack(i) ==> s.pending)
    ensures Issues(s, i) ==> Half(s, s.awInhibit, AwOf) + AwSent(s, i) == AwOf(s.reqs[0]) && !Next(s, i).awInhibit
    ensures !Issues(s, i) ==> Half(Next(s, i), Next(s, i).awInhibit, AwOf) == Half(s, s.awInhibit, AwOf) + AwSent(s, i)
  {
  }

  lemma AwStep(s: State, log: Log, i: Inputs)
    requires Shape(s) && Conserved(s, log) && (Ack(i) ==> s.pending)
    ensures Record(s, log, i).aw == Gather(Record(s, log, i).issued, AwOf)
            + Half(Next(s, i), Next(s, i).awInhibit, AwOf)
  {
    AwMoves(s, i);
    var half' := Half(Next(s, i), Next(s, i).awInhibit, AwOf);
    ChannelMoves(log.aw, Gather(log.issued, AwOf), Half(s, s.awInhibit, AwOf), AwSent(s, i),
                 if Issues(s, i) then AwOf(s.reqs[0]) else [], Issues(s, i), half');
    IssuedGather(s, log, i, AwOf);
  }

  function WSent(s: State, i: Inputs): seq<(Word, Nibble)> {
    if WValid(s, i) && i.wready then [(s.reqs[0].data, s.reqs[0].wr)] else []
  }

  lemma WMoves(s: State, i: Inputs)
    requires Shape(s) && (Ack(i) ==> s.pending)
    ensures Issues(s, i) ==> Half(s, s.wInhibit, WOf) + WSent(s, i) == WOf(s.reqs[0]) && !Next(s, i).wInhibit
    ensures !Issues(s, i) ==> Half(Next(s, i), Next(s, i).wInhibit, WOf) == Half(s, s.wInhibit, WOf) + WSent(s, i)
  {
  }

  lemma WStep(s: State, log: Log, i: Inputs)
    requires Shape(s) && Conserved(s, log) && (Ack(i) ==> s.pending)
    ensures Record(s, log, i).w == Gather(Record(s, log, i).issued, WOf)
            + Half(Next(s, i), Next(s, i).wInhibit, WOf)
  {
    WMoves(s, i);
    var half' := Half(Next(s, i), Next(s, i).wInhibit, WOf);
    ChannelMoves(log.w, Gather(log.issued, WOf), Half(s, s.wInhibit, WOf), WSent(s, i),
                 if Issues(s, i) then WOf(s.reqs[0]) else [], Issues(s, i), half');
    IssuedGather(s, log, i, WOf);
  }

  lemma ArStep(s: State, log: Log, i: Inputs)
    requires Shape(s) && Conserved(s, log) && (Ack(i) ==> s.pending)
    ensures Record(s, log, i).ar == Gather(Record(s, log, i).issued, ArOf)
  {
    IssuedGather(s, log, i, ArOf);
  }

  lemma {:induction false} RunKeeps(ins: seq<Inputs>)
    requires Legal(ins)
    ensures Shape(RunOf(ins).s) && Conserved(RunOf(ins).s, RunOf(ins).log)
  {
    if ins != [] {
      var r, i := RunOf(ins[..|ins| - 1]), ins[|ins| - 1];
      RunKeeps(ins[..|ins| - 1]);
      ShapeStep(r.s, i);
      AcceptedStep(r.s, r.log, i);
      AwStep(r.s, r.log, i);
      WStep(r.s, r.log, i);
      ArStep(r.s, r.log, i);
    }
  }

  /** Over every run: each accepted request is issued once, in acceptance order, with at most
      one outstanding, and the k-th acknowledge carries the k-th accepted request's tag and
      answers the k-th issued request. */
  lemma BridgeConserves(ins: seq<Inputs>)
    requires Legal(ins)
    ensures var r := RunOf(ins);
            && |r.log.acked| <= |r.log.issued| <= |r.log.accepted|
            && |r.log.issued| - |r.log.acked| == (if r.s.pending then 1 else 0)
            && |r.s.tags| == |r.s.reqs| + (if r.s.pending then 1 else 0) <= 2
            && (forall k :: 0 <= k < |r.log.issued| ==> r.log.issued[k] == r.log.accepted[k].0)
            && (forall k :: 0 <= k < |r.log.acked| ==> r.log.acked[k] == r.log.accepted[k].1)
  {
    RunKeeps(ins);
    var r := RunOf(ins);
    forall k | 0 <= k < |r.log.issued| ensures r.log.issued[k] == r.log.accepted[k].0 {
      assert Firsts(r.log.accepted)[k] == (r.log.issued + r.s.reqs)[k];
    }
    forall k | 0 <= k < |r.log.acked| ensures r.log.acked[k] == r.log.accepted[k].1 {
      assert Seconds(r.log.accepted)[k] == (r.log.acked + r.s.tags)[k];
    }
  }

  /** For every order in which the slave takes AW and W: by the time writes are issued, each
      has handed over its address exactly once and its data exactly once, in order, and only
      the head write can be half handed over, on one side. */
  lemma WritesHandedOverOnce(ins: seq<Inputs>)
    requires Legal(ins)
    ensures var r := RunOf(ins);
            && Gather(r.log.issued, AwOf) <= r.log.aw && |r.log.aw| <= |Gather(r.log.issued, AwOf)| + 1
            && Gather(r.log.issued, WOf) <= r.log.w && |r.log.w| <= |Gather(r.log.issued, WOf)| + 1
            && !(|r.log.aw| > |Gather(r.log.issued, AwOf)| && |r.log.w| > |Gather(r.log.issued, WOf)|)
            && r.log.ar == Gather(r.log.issued, ArOf)
  {
    RunKeeps(ins);
  }

  // ----- Stability -----

  /** Section A3.2.1 of ARM IHI 0022: once up, a valid and its payload stay until the ready.
      The next cycle's inputs are arbitrary, except that the slave answers nothing that is
      not outstanding. */
  lemma ValidUntilReady(s: State, i: Inputs, i': Inputs)
    requires Shape(s) && (Ack(i) ==> s.pending) && (Ack(i') ==> Next(s, i).pending)
    ensures var s' := Next(s, i);
            && (AwValid(s, i) && !i.awready ==> AwValid(s', i') && s'.reqs[0] == s.reqs[0])
            && (WValid(s, i) && !i.wready ==> WValid(s', i') && s'.reqs[0] == s.reqs[0])
            && (ArValid(s, i) && !i.arready ==> ArValid(s', i') && s'.reqs[0] == s.reqs[0])
  {
  }
}
