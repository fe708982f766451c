/** `tcm_mem_pmem`: the AXI4 slave port of the TCM. It turns read and write bursts into single
    RAM beats, arbitrates the two directions round robin, and matches RAM responses with the
    requests they answer. */
module TcmMemPmem {
  import opened Bits
  import opened Bursts
  import opened Fifos
  import opened Seqs

  datatype Command = Command(addr: Word, id: Nibble, len: Byte, burst: Pair)
  datatype WriteBeat = WriteBeat(data: Word, strb: Nibble, last: bool)

  datatype AxiIn = AxiIn(awvalid: bool, aw: Command, wvalid: bool, w: WriteBeat, bready: bool,
                         arvalid: bool, ar: Command, rready: bool)
  datatype RamIn = RamIn(accept: bool, ack: bool, readData: Word)

  /** What is kept of a beat while the RAM works on it: {read, last, id}. */
  datatype Record = Record(read: bool, last: bool, id: Nibble)

  datatype BurstRegs = BurstRegs(len: Byte, addr: Word, rd: bool, wr: bool, id: Nibble, burst: Pair, axlen: Byte)

  /** The registers, with each FIFO as the queue it holds. */
  datatype State = State(b: BurstRegs, prio: bool, holdRd: bool, holdWr: bool, reqs: seq<Record>, resps: seq<Word>)

  const RESET := State(BurstRegs(0, 0, false, false, 0, 0, 0), false, false, false, [], [])
  const DEPTH := 4

  // ----- Wires -----

  predicate WritePrio(s: State) {
    (s.prio && !s.holdRd) || s.holdWr
  }

  predicate ReadPrio(s: State) {
    (!s.prio && !s.holdWr) || s.holdRd
  }

  predicate WriteActive(s: State, a: AxiIn) {
    (a.awvalid || s.b.wr) && !s.b.rd && |s.reqs| != DEPTH && (WritePrio(s) || s.b.wr || !a.arvalid)
  }

  predicate ReadActive(s: State, a: AxiIn) {
    (a.arvalid || s.b.rd) && !s.b.wr && |s.reqs| != DEPTH && (ReadPrio(s) || s.b.rd || !a.awvalid)
  }

  predicate AwFire(s: State, a: AxiIn, accept: bool) {
    a.awvalid && WriteActive(s, a) && !s.b.wr && accept
  }

  predicate WFire(s: State, a: AxiIn, accept: bool) {
    a.wvalid && WriteActive(s, a) && accept
  }

  predicate ArFire(s: State, a: AxiIn, accept: bool) {
    a.arvalid && ReadActive(s, a) && !s.b.rd && accept
  }

  function RamWr(s: State, a: AxiIn): Nibble {
    if WriteActive(s, a) && a.wvalid then a.w.strb else 0
  }

  function RamAddr(s: State, a: AxiIn): Word {
    if s.b.wr || s.b.rd then s.b.addr else if WriteActive(s, a) then a.aw.addr else a.ar.addr
  }

  /** A beat is presented to the RAM; it is taken if the RAM accepts in the same cycle. */
  predicate Presented(s: State, a: AxiIn) {
    ReadActive(s, a) || RamWr(s, a) != 0
  }

  function Incoming(s: State, a: AxiIn, accept: bool): Record {
    if ArFire(s, a, accept) then Record(true, a.ar.len == 0, a.ar.id)
    else if AwFire(s, a, accept) then Record(false, a.aw.len == 0, a.aw.id)
    else Record(ReadActive(s, a), s.b.len == 0, s.b.id)
  }

  predicate BValid(s: State) {
    s.resps != [] && s.reqs != [] && !s.reqs[0].read && s.reqs[0].last
  }

  predicate RValid(s: State) {
    s.resps != [] && s.reqs != [] && s.reqs[0].read
  }

  /** The oldest response leaves: taken by its channel, or dropped inside a write burst. */
  predicate RespAccept(s: State, a: AxiIn) {
    (RValid(s) && a.rready) || (BValid(s) && a.bready)
    || (s.resps != [] && s.reqs != [] && !s.reqs[0].read && !s.reqs[0].last)
  }

  // ----- The clock -----

  /** An eight-bit decrement. */
  function Dec(len: Byte): Byte {
    if len == 0 then 255 else len - 1
  }

  lemma DecWraps(len: Byte)
    ensures Dec(len) == (len + 255) % 256
  {
  }

  function Load(nx: NextFn, b: BurstRegs, c: Command, started: bool): BurstRegs {
    b.(len := if started then Dec(c.len) else c.len, id := c.id, burst := c.burst, axlen := c.len,
       addr := if started then nx(c.addr, c.burst, c.len) else c.addr)
  }

  function Continue(nx: NextFn, b: BurstRegs): BurstRegs {
    if b.len == 0 then b.(rd := false, wr := false)
    else b.(addr := nx(b.addr, b.burst, b.axlen), len := b.len - 1)
  }

  /** Burst continuation first; an accepted command then overwrites what it names. */
  function NextBurst(nx: NextFn, s: State, a: AxiIn, accept: bool): BurstRegs {
    var cont := if Presented(s, a) && accept then Continue(nx, s.b) else s.b;
    if AwFire(s, a, accept) then
      var withData := WFire(s, a, accept);
      Load(nx, cont, a.aw, withData).(wr := if withData then !a.w.last else true)
    else if ArFire(s, a, accept) then
      Load(nx, cont, a.ar, true).(rd := a.ar.len != 0)
    else cont
  }

  function NextPrio(s: State, a: AxiIn, accept: bool): bool {
    if AwFire(s, a, accept) || ArFire(s, a, accept) then !s.prio else s.prio
  }

  function NextHold(hold: bool, offered: bool, accept: bool): bool {
    if offered && !accept then true else if accept then false else hold
  }

  function Next(nx: NextFn, s: State, a: AxiIn, r: RamIn): State {
    State(
      NextBurst(nx, s, a, r.accept), NextPrio(s, a, r.accept),
      NextHold(s.holdRd, ReadActive(s, a), r.accept), NextHold(s.holdWr, RamWr(s, a) != 0, r.accept),
      QueueNext(s.reqs, DEPTH, Presented(s, a) && r.accept, Incoming(s, a, r.accept), RespAccept(s, a)),
      QueueNext(s.resps, DEPTH, r.ack, r.readData, RespAccept(s, a)))
  }

  // ----- The registers -----

  datatype Outputs = Outputs(awready: bool, wready: bool, arready: bool,
                             bvalid: bool, bid: Nibble, rvalid: bool, rdata: Word, rid: Nibble, rlast: bool,
                             ramRd: bool, ramWr: Nibble, ramLen: Byte, ramAddr: Word, ramWriteData: Word)

  /** The request side of the outputs. An address is meaningful only with a read or a write. */
  predicate Requests(s: State, a: AxiIn, accept: bool, o: Outputs) {
    && o.awready == (WriteActive(s, a) && !s.b.wr && accept) && o.wready == (WriteActive(s, a) && accept)
    && o.arready == (ReadActive(s, a) && !s.b.rd && accept)
    && o.ramRd == ReadActive(s, a) && o.ramWr == RamWr(s, a) && o.ramAddr == RamAddr(s, a)
    && o.ramWriteData == a.w.data
    && o.ramLen == (if a.awvalid then a.aw.len else if a.arvalid then a.ar.len else 0)
  }

  /** The response side. IDs, data and RLAST are meaningful only with their valid. */
  predicate Responses(s: State, o: Outputs) {
    && o.bvalid == BValid(s) && o.rvalid == RValid(s)
    && (o.bvalid ==> o.bid == s.reqs[0].id)
    && (o.rvalid ==> o.rid == s.reqs[0].id && o.rlast == s.reqs[0].last && o.rdata == s.resps[0])
  }

  class Port {
    const nx: NextFn
    const requests: Fifo<Record>
    const response: Fifo<Word>
    var reqLen: Byte
    var reqAddr: Word
    var reqRd: bool
    var reqWr: bool
    var reqId: Nibble
    var reqAxburst: Pair
    var reqAxlen: Byte
    var reqPrio: bool
    var reqHoldRd: bool
    var reqHoldWr: bool

    ghost predicate Valid()
      reads this, requests, requests.ram, response, response.ram
    {
      && requests.Valid() && response.Valid() && requests.depth == DEPTH && response.depth == DEPTH
      && requests.ram as object != response.ram as object
    }

    ghost function BurstAbs(): BurstRegs
      reads this`reqLen, this`reqAddr, this`reqRd, this`reqWr, this`reqId, this`reqAxburst, this`reqAxlen
    {
      BurstRegs(reqLen, reqAddr, reqRd, reqWr, reqId, reqAxburst, reqAxlen)
    }

    ghost function Abs(): State
      reads this, requests, response
    {
      State(BurstAbs(), reqPrio, reqHoldRd, reqHoldWr, requests.queue, response.queue)
    }

    constructor (nx: NextFn)
      ensures Valid() && fresh(requests) && fresh(requests.ram) && fresh(response) && fresh(response.ram)
      ensures this.nx == nx && Abs() == RESET
    {
      this.nx := nx;
      var q := new Fifo<Record>(2, Record(false, false, 0));
      var d := new Fifo<Word>(2, 0);
      requests, response := q, d;
      reqLen, reqAddr, reqRd, reqWr, reqId, reqAxburst, reqAxlen := 0, 0, false, false, 0, 0, 0;
      reqPrio, reqHoldRd, reqHoldWr := false, false, false;
    }

    function RequestWires(a: AxiIn, accept: bool): (o: Outputs)
      requires Valid()
      reads this, requests, requests.ram, response, response.ram
      ensures Requests(Abs(), a, accept, o)
    {
      var room := requests.AcceptO();
      var writePrio := (reqPrio && !reqHoldRd) || reqHoldWr;
      var readPrio := (!reqPrio && !reqHoldWr) || reqHoldRd;
      var writeActive := (a.awvalid || reqWr) && !reqRd && room && (writePrio || reqWr || !a.arvalid);
      var readActive := (a.arvalid || reqRd) && !reqWr && room && (readPrio || reqRd || !a.awvalid);
      Outputs(
        writeActive && !reqWr && accept && room, writeActive && accept && room, readActive && !reqRd && accept && room,
        false, 0, false, 0, 0, false,
        readActive, if writeActive && a.wvalid then a.w.strb else 0,
        if a.awvalid then a.aw.len else if a.arvalid then a.ar.len else 0,
        if reqWr || reqRd then reqAddr else if writeActive then a.aw.addr else a.ar.addr, a.w.data)
    }

    /** The response wires added to the request wires. */
    function ResponseWires(o: Outputs): (o': Outputs)
      requires Valid()
      reads this, requests, requests.ram, response, response.ram
      ensures o' == o.(bvalid := o'.bvalid, bid := o'.bid, rvalid := o'.rvalid,
                     rdata := o'.rdata, rid := o'.rid, rlast := o'.rlast)
      ensures Responses(Abs(), o')
    {
      var out := requests.DataOutO();
      var isWrite := requests.ValidO() && !out.read;
      var isRead := requests.ValidO() && out.read;
      o.(bvalid := response.ValidO() && isWrite && out.last, bid := out.id,
         rvalid := response.ValidO() && isRead, rdata := response.DataOutO(), rid := out.id, rlast := out.last)
    }

    function RespAcceptW(a: AxiIn, o: Outputs): (pop: bool)
      requires Valid() && Responses(Abs(), o)
      reads this, requests, requests.ram, response, response.ram
      ensures pop == RespAccept(Abs(), a)
    {
      (o.rvalid && a.rready) || (o.bvalid && a.bready)
      || (response.ValidO() && requests.ValidO() && !requests.DataOutO().read && !requests.DataOutO().last)
    }

    /** The record that goes into the request FIFO with a beat. */
    function RecordIn(a: AxiIn, accept: bool, o: Outputs): (q: Record)
      requires Requests(Abs(), a, accept, o)
      reads this, requests, response
      ensures q == Incoming(Abs(), a, accept)
    {
      if a.arvalid && o.arready then Record(true, a.ar.len == 0, a.ar.id)
      else if a.awvalid && o.awready then Record(false, a.aw.len == 0, a.aw.id)
      else Record(o.ramRd, reqLen == 0, reqId)
    }

    method ContinueBurst()
      modifies this`reqLen, this`reqAddr, this`reqRd, this`reqWr
      ensures BurstAbs() == Continue(nx, old(BurstAbs()))
    {
      if reqLen == 0 {
        reqRd, reqWr := false, false;
      } else {
        reqAddr, reqLen := nx(reqAddr, reqAxburst, reqAxlen), reqLen - 1;
      }
    }

    method LoadCommand(c: Command, started: bool)
      modifies this`reqLen, this`reqAddr, this`reqId, this`reqAxburst, this`reqAxlen
      ensures BurstAbs() == Load(nx, old(BurstAbs()), c, started)
    {
      reqId, reqAxburst, reqAxlen := c.id, c.burst, c.len;
      reqLen, reqAddr := if started then Dec(c.len) else c.len, if started then nx(c.addr, c.burst, c.len) else c.addr;
    }

    /** The burst continues first; an accepted command then overwrites what it names. */
    method ClockBurst(ghost s: State, a: AxiIn, accept: bool, o: Outputs)
      requires s.b == BurstAbs() && Requests(s, a, accept, o)
      modifies this`reqLen, this`reqAddr, this`reqRd, this`reqWr, this`reqId, this`reqAxburst, this`reqAxlen
      ensures BurstAbs() == NextBurst(nx, s, a, accept)
    {
      if (o.ramWr != 0 || o.ramRd) && accept {
        ContinueBurst();
      }
      if a.awvalid && o.awready {
        LoadCommand(a.aw, a.wvalid && o.wready);
        reqWr := if a.wvalid && o.wready then !a.w.last else true;
      } else if a.arvalid && o.arready {
        LoadCommand(a.ar, true);
        reqRd := a.ar.len != 0;
      }
    }

    method ClockFlags(ghost s: State, a: AxiIn, accept: bool, o: Outputs)
      requires s.prio == reqPrio && s.holdRd == reqHoldRd && s.holdWr == reqHoldWr && Requests(s, a, accept, o)
      modifies this`reqPrio, this`reqHoldRd, this`reqHoldWr
      ensures reqPrio == NextPrio(s, a, accept)
      ensures reqHoldRd == NextHold(s.holdRd, ReadActive(s, a), accept)
      ensures reqHoldWr == NextHold(s.holdWr, RamWr(s, a) != 0, accept)
    {
      if (a.awvalid && o.awready) || (a.arvalid && o.arready) {
        reqPrio := !reqPrio;
      }
      reqHoldRd := if o.ramRd && !accept then true else if accept then false else reqHoldRd;
      reqHoldWr := if o.ramWr != 0 && !accept then true else if accept then false else reqHoldWr;
    }

    method ClockFifos(push: bool, q: Record, r: RamIn, pop: bool)
      requires Valid()
      modifies requests, requests.ram, response, response.ram
      ensures Valid()
      ensures requests.queue == QueueNext(old(requests.queue), DEPTH, push, q, pop)
      ensures response.queue == QueueNext(old(response.queue), DEPTH, r.ack, r.readData, pop)
    {
      requests.Tick(push, q, pop);
      response.Tick(r.ack, r.readData, pop);
    }

    method ClockRegs(ghost s: State, a: AxiIn, accept: bool, o: Outputs)
      requires s == State(BurstAbs(), reqPrio, reqHoldRd, reqHoldWr, s.reqs, s.resps) && Requests(s, a, accept, o)
      modifies this
      ensures BurstAbs() == NextBurst(nx, s, a, accept) && reqPrio == NextPrio(s, a, accept)
      ensures reqHoldRd == NextHold(s.holdRd, ReadActive(s, a), accept)
      ensures reqHoldWr == NextHold(s.holdWr, RamWr(s, a) != 0, accept)
    {
      ClockBurst(s, a, accept, o);
      ClockFlags(s, a, accept, o);
    }

    /** The clock edge, given the request wires. */
    method Clock(ghost s: State, a: AxiIn, r: RamIn, o: Outputs, q: Record, pop: bool)
      requires Valid() && s == Abs() && Requests(s, a, r.accept, o)
      requires q == Incoming(s, a, r.accept) && pop == RespAccept(s, a)
      modifies this, requests, requests.ram, response, response.ram
      ensures Valid() && Abs() == Next(nx, s, a, r)
    {
      ClockFifos((o.ramRd || o.ramWr != 0) && r.accept, q, r, pop);
      ClockRegs(s, a, r.accept, o);
    }

    method Tick(a: AxiIn, r: RamIn) returns (o: Outputs)
      requires Valid()
      modifies this, requests, requests.ram, response, response.ram
      ensures Valid()
      ensures Abs() == Next(nx, old(Abs()), a, r)
      ensures Requests(old(Abs()), a, r.accept, o) && Responses(old(Abs()), o)
    {
      o := ResponseWires(RequestWires(a, r.accept));
      Clock(Abs(), a, r, o, RecordIn(a, r.accept, o), RespAcceptW(a, o));
    }
  }

  // ----- Logs of a run -----

  datatype Burst = Burst(read: bool, cmd: Command)
  /** A beat as the RAM takes it, and what it writes if it is a write. */
  datatype Beat = Beat(read: bool, addr: Word, last: bool, id: Nibble)
  datatype RamWrite = RamWrite(addr: Word, data: Word, strb: Nibble)
  datatype ReadOut = ReadOut(id: Nibble, data: Word, last: bool)

  /** Each log in order of time: accepted commands, W handshakes, beats taken by the RAM and
      the writes among them, RAM responses, requests retired with their response, and
      what left on the R and B channels. */
  datatype Log = Log(bursts: seq<Burst>, w: seq<(Word, Nibble)>, beats: seq<Beat>, writes: seq<RamWrite>,
                     acks: seq<Word>, done: seq<(Record, Word)>, r: seq<ReadOut>, b: seq<Nibble>)

  /** The handshakes each master still owes: a valid offered last cycle and not taken. */
  datatype Owed = Owed(aw: bool, awCmd: Command, w: bool, wBeat: WriteBeat, ar: bool, arCmd: Command)

  function NewBeats(s: State, a: AxiIn, accept: bool): seq<Beat> {
    if !(Presented(s, a) && accept) then [] else
    var q := Incoming(s, a, accept);
    [Beat(q.read, RamAddr(s, a), q.last, q.id)]
  }

  function NewWrites(s: State, a: AxiIn, accept: bool): seq<RamWrite> {
    if RamWr(s, a) != 0 && accept then [RamWrite(RamAddr(s, a), a.w.data, RamWr(s, a))] else []
  }

  function NewW(s: State, a: AxiIn, accept: bool): seq<(Word, Nibble)> {
    if WFire(s, a, accept) then [(a.w.data, a.w.strb)] else []
  }

  function NewBursts(s: State, a: AxiIn, accept: bool): seq<Burst> {
    (if AwFire(s, a, accept) then [Burst(false, a.aw)] else []) +
    (if ArFire(s, a, accept) then [Burst(true, a.ar)] else [])
  }

  function Append(log: Log, s: State, a: AxiIn, r: RamIn): Log {
    var pair := s.reqs != [] && s.resps != [];
    Log(log.bursts + NewBursts(s, a, r.accept), log.w + NewW(s, a, r.accept),
        log.beats + NewBeats(s, a, r.accept), log.writes + NewWrites(s, a, r.accept),
        log.acks + (if r.ack then [r.readData] else []),
        log.done + (if RespAccept(s, a) && pair then [(s.reqs[0], s.resps[0])] else []),
        log.r + (if RValid(s) && a.rready then [ReadOut(s.reqs[0].id, s.resps[0], s.reqs[0].last)] else []),
        log.b + (if BValid(s) && a.bready then [s.reqs[0].id] else []))
  }

  function NextOwed(s: State, a: AxiIn, accept: bool): Owed {
    Owed(a.awvalid && !AwFire(s, a, accept), a.aw, a.wvalid && !WFire(s, a, accept), a.w,
         a.arvalid && !ArFire(s, a, accept), a.ar)
  }

  /** With no burst in progress and room for a record, a command that is offered is taken as soon as
      the RAM accepts, and one of two. During a burst none is. */
  lemma CommandTaken(s: State, a: AxiIn)
    requires Exclusive(s) && |s.reqs| < 4
    ensures !s.b.rd && !s.b.wr && a.arvalid && !a.awvalid ==> NewBursts(s, a, true) == [Burst(true, a.ar)]
    ensures !s.b.rd && !s.b.wr && a.awvalid && !a.arvalid ==> NewBursts(s, a, true) == [Burst(false, a.aw)]
    ensures !s.b.rd && !s.b.wr && a.awvalid && a.arvalid ==>
            NewBursts(s, a, true) == [Burst(true, a.ar)] || NewBursts(s, a, true) == [Burst(false, a.aw)]
    ensures (s.b.rd || s.b.wr) || (!a.awvalid && !a.arvalid) ==> NewBursts(s, a, true) == []
  {
  }

  /** The logs record what crosses the pins. */
  lemma PinsAreLogged(log: Log, s: State, a: AxiIn, r: RamIn, o: Outputs)
    requires Exclusive(s) && Requests(s, a, r.accept, o) && Responses(s, o)
    ensures var l := Append(log, s, a, r);
            var taken := (o.ramRd || o.ramWr != 0) && r.accept;
            && l.bursts == log.bursts + ((if a.awvalid && o.awready then [Burst(false, a.aw)] else [])
                                         + (if a.arvalid && o.arready then [Burst(true, a.ar)] else []))
            && l.w == log.w + (if a.wvalid && o.wready then [(a.w.data, a.w.strb)] else [])
            && l.writes == log.writes + (if o.ramWr != 0 && r.accept
                                         then [RamWrite(o.ramAddr, o.ramWriteData, o.ramWr)] else [])
            && |l.beats| == |log.beats| + (if taken then 1 else 0)
            && (taken ==> l.beats[|log.beats|].read == o.ramRd && l.beats[|log.beats|].addr == o.ramAddr)
            && !(o.ramRd && o.ramWr != 0)
            && l.acks == log.acks + (if r.ack then [r.readData] else [])
            && l.r == log.r + (if o.rvalid && a.rready then [ReadOut(o.rid, o.rdata, o.rlast)] else [])
            && l.b == log.b + (if o.bvalid && a.bready then [o.bid] else [])
  {
    OneDirection(s, a);
  }

  // ----- What is asked of the environment -----

  /** Section A3.2.1 of ARM IHI 0022: a valid stays up with its payload until it is taken. */
  predicate Stable(o: Owed, a: AxiIn) {
    (o.aw ==> a.awvalid && a.aw == o.awCmd) && (o.w ==> a.wvalid && a.w == o.wBeat)
    && (o.ar ==> a.arvalid && a.ar == o.arCmd)
  }

  /** Every W beat taken writes something, and one taken along with its command is the last
      exactly when the command says so. The port looks at WLAST nowhere else. */
  predicate WellFormed(s: State, a: AxiIn, accept: bool) {
    WFire(s, a, accept) ==> a.w.strb != 0 && (AwFire(s, a, accept) ==> (a.w.last <==> a.aw.len == 0))
  }

  // ----- One cycle conserves beats -----

  function AsBeats(read: bool, id: Nibble, slots: seq<Slot>): (r: seq<Beat>)
    ensures |r| == |slots|
  {
    if slots == [] then [] else [Beat(read, slots[0].addr, slots[0].last, id)] + AsBeats(read, id, slots[1..])
  }

  /** The beats an accepted command stands for. */
  function BeatsOf(nx: NextFn, burst: Burst): seq<Beat> {
    var c := burst.cmd;
    AsBeats(burst.read, c.id, Countdown(nx, c.addr, c.burst, c.len, c.len))
  }

  function Wanted(nx: NextFn, bursts: seq<Burst>): seq<Beat> {
    if bursts == [] then [] else Wanted(nx, bursts[..|bursts| - 1]) + BeatsOf(nx, bursts[|bursts| - 1])
  }

  /** The beats still to come of the burst in progress. */
  function Remaining(nx: NextFn, b: BurstRegs): seq<Beat> {
    if b.rd || b.wr then AsBeats(b.rd, b.id, Countdown(nx, b.addr, b.burst, b.axlen, b.len)) else []
  }

  /** A read burst and a write burst are never both in progress, nor both hold flags set. */
  predicate Exclusive(s: State) {
    !(s.b.rd && s.b.wr) && !(s.holdRd && s.holdWr)
  }

  lemma OneDirection(s: State, a: AxiIn)
    requires Exclusive(s)
    ensures !(WriteActive(s, a) && ReadActive(s, a))
  {
  }

  /** The first beat of a countdown, and the rest. */
  lemma Unfold(nx: NextFn, read: bool, id: Nibble, addr: Word, burst: Pair, len: Byte, left: nat)
    ensures AsBeats(read, id, Countdown(nx, addr, burst, len, left))
         == [Beat(read, addr, left == 0, id)]
            + if left == 0 then [] else AsBeats(read, id, Countdown(nx, nx(addr, burst, len), burst, len, left - 1))
  {
    if left > 0 {
      assert Countdown(nx, addr, burst, len, left)[1..] == Countdown(nx, nx(addr, burst, len), burst, len, left - 1);
    }
  }

  /** Beats presented, plus beats the registers still hold, move in step with the commands. */
  predicate BeatsMove(nx: NextFn, s: State, a: AxiIn, accept: bool) {
    NewBeats(s, a, accept) + Remaining(nx, NextBurst(nx, s, a, accept))
    == Remaining(nx, s.b) + Wanted(nx, NewBursts(s, a, accept))
  }

  lemma OneWanted(nx: NextFn, burst: Burst)
    ensures Wanted(nx, [burst]) == BeatsOf(nx, burst)
  {
    assert [burst][..0] == [];
    assert Wanted(nx, []) == [];
  }

  lemma ReadStarts(nx: NextFn, s: State, a: AxiIn, accept: bool)
    requires Exclusive(s) && ArFire(s, a, accept)
    ensures BeatsMove(nx, s, a, accept)
  {
    OneDirection(s, a);
    OneWanted(nx, Burst(true, a.ar));
    assert NewBursts(s, a, accept) == [Burst(true, a.ar)];
    Unfold(nx, true, a.ar.id, a.ar.addr, a.ar.burst, a.ar.len, a.ar.len);
  }

  lemma WriteStarts(nx: NextFn, s: State, a: AxiIn, accept: bool)
    requires Exclusive(s) && AwFire(s, a, accept) && WellFormed(s, a, accept)
    ensures BeatsMove(nx, s, a, accept)
  {
    OneDirection(s, a);
    OneWanted(nx, Burst(false, a.aw));
    assert NewBursts(s, a, accept) == [Burst(false, a.aw)];
    Unfold(nx, false, a.aw.id, a.aw.addr, a.aw.burst, a.aw.len, a.aw.len);
  }

  lemma BurstGoesOn(nx: NextFn, s: State, a: AxiIn, accept: bool)
    requires Exclusive(s) && !AwFire(s, a, accept) && !ArFire(s, a, accept) && WellFormed(s, a, accept)
    ensures BeatsMove(nx, s, a, accept)
  {
    OneDirection(s, a);
    assert NewBursts(s, a, accept) == [];
    assert Wanted(nx, []) == [];
    if Presented(s, a) && accept {
      Unfold(nx, s.b.rd, s.b.id, s.b.addr, s.b.burst, s.b.axlen, s.b.len);
    }
  }

  function Payload(writes: seq<RamWrite>): (r: seq<(Word, Nibble)>)
    ensures |r| == |writes|
  {
    seq(|writes|, k requires 0 <= k < |writes| => (writes[k].data, writes[k].strb))
  }

  function WriteAddrs(beats: seq<Beat>): seq<Word> {
    if beats == [] then [] else
    WriteAddrs(beats[..|beats| - 1]) + if beats[|beats| - 1].read then [] else [beats[|beats| - 1].addr]
  }

  function Addrs(writes: seq<RamWrite>): (r: seq<Word>)
    ensures |r| == |writes|
  {
    seq(|writes|, k requires 0 <= k < |writes| => writes[k].addr)
  }

  /** A cycle moves the beats and the write data correctly exactly when its W beat is well
      formed: a beat with no strobe is taken and lost, and a WLAST that contradicts AWLEN on
      the first beat ends the burst early or never. */
  lemma CycleCorrectIff(nx: NextFn, s: State, a: AxiIn, accept: bool)
    requires Exclusive(s)
    ensures BeatsMove(nx, s, a, accept) && Payload(NewWrites(s, a, accept)) == NewW(s, a, accept)
            <==> WellFormed(s, a, accept)
  {
    if WellFormed(s, a, accept) {
      if ArFire(s, a, accept) {
        ReadStarts(nx, s, a, accept);
      } else if AwFire(s, a, accept) {
        WriteStarts(nx, s, a, accept);
      } else {
        BurstGoesOn(nx, s, a, accept);
      }
    } else if a.w.strb != 0 {
      FirstBeatMismatch(nx, s, a, accept);
    }
  }

  lemma FirstBeatMismatch(nx: NextFn, s: State, a: AxiIn, accept: bool)
    requires Exclusive(s) && WFire(s, a, accept) && AwFire(s, a, accept) && a.w.strb != 0
    requires !(a.w.last <==> a.aw.len == 0)
    ensures !BeatsMove(nx, s, a, accept)
  {
    OneDirection(s, a);
    OneWanted(nx, Burst(false, a.aw));
    assert NewBursts(s, a, accept) == [Burst(false, a.aw)];
    assert |BeatsOf(nx, Burst(false, a.aw))| == a.aw.len + 1;
    assert |Remaining(nx, NextBurst(nx, s, a, accept))| == if a.w.last then 0 else Dec(a.aw.len) + 1;
  }

  /** A write master that withdraws its command lets both hold flags rise, and then a read and a
      write are active at once. */
  lemma UnstableMastersClash(nx: NextFn, c: Command, w: WriteBeat)
    requires w.strb != 0
    ensures var write := AxiIn(true, c, true, w, false, false, c, false);
            var read := AxiIn(false, c, false, w, false, true, c, false);
            var both := AxiIn(true, c, true, w, false, true, c, false);
            var s := Next(nx, Next(nx, RESET, write, RamIn(false, false, 0)), read, RamIn(false, false, 0));
            s.holdRd && s.holdWr && ReadActive(s, both) && WriteActive(s, both)
  {
  }

  // ----- Runs -----

  datatype Run = Run(s: State, log: Log, owed: Owed)

  const EMPTY_LOG := Log([], [], [], [], [], [], [], [])
  const NO_COMMAND := Command(0, 0, 0, 0)
  const NOTHING_OWED := Owed(false, NO_COMMAND, false, WriteBeat(0, 0, false), false, NO_COMMAND)

  function RunOf(nx: NextFn, ins: seq<(AxiIn, RamIn)>): Run {
    if ins == [] then Run(RESET, EMPTY_LOG, NOTHING_OWED) else
    var p := RunOf(nx, ins[..|ins| - 1]);
    var (a, r) := ins[|ins| - 1];
    Run(Next(nx, p.s, a, r), Append(p.log, p.s, a, r), NextOwed(p.s, a, r.accept))
  }

  /** The masters are stable, W beats are well formed, and the RAM, at whatever delay, answers
      only beats it has taken and not answered yet. */
  predicate LegalCycle(p: Run, a: AxiIn, r: RamIn) {
    Stable(p.owed, a) && WellFormed(p.s, a, r.accept) && (r.ack ==> |p.log.acks| < |p.log.beats|)
  }

  predicate Legal(nx: NextFn, ins: seq<(AxiIn, RamIn)>) {
    ins == [] ||
    (Legal(nx, ins[..|ins| - 1]) && LegalCycle(RunOf(nx, ins[..|ins| - 1]), ins[|ins| - 1].0, ins[|ins| - 1].1))
  }

  // ----- Arbitration -----

  /** A hold flag is up only while its request is still being offered, with room for it. */
  predicate HoldsBacked(s: State, o: Owed) {
    && Exclusive(s) && |s.reqs| <= DEPTH
    && (s.holdRd ==> |s.reqs| != DEPTH && !s.b.wr && (s.b.rd || o.ar))
    && (s.holdWr ==> |s.reqs| != DEPTH && !s.b.rd && o.w && o.wBeat.strb != 0 && (s.b.wr || o.aw))
  }

  lemma BurstExclusive(nx: NextFn, s: State, a: AxiIn, accept: bool)
    requires Exclusive(s)
    ensures var b := NextBurst(nx, s, a, accept); !(b.rd && b.wr)
  {
    OneDirection(s, a);
  }

  /** A held request is presented again. */
  lemma HeldPresented(s: State, o: Owed, a: AxiIn)
    requires HoldsBacked(s, o) && Stable(o, a)
    ensures s.holdRd ==> ReadActive(s, a)
    ensures s.holdWr ==> WriteActive(s, a) && RamWr(s, a) != 0
  {
  }

  lemma HoldsStep(nx: NextFn, s: State, o: Owed, a: AxiIn, r: RamIn)
    requires HoldsBacked(s, o) && Stable(o, a)
    ensures HoldsBacked(Next(nx, s, a, r), NextOwed(s, a, r.accept))
  {
    OneDirection(s, a);
    BurstExclusive(nx, s, a, r.accept);
    HeldPresented(s, o, a);
    if !r.accept {
      assert NextBurst(nx, s, a, false) == s.b;
    }
  }

  /** A request presented and not accepted is presented unchanged in the next cycle, whatever
      else the masters offer then. */
  lemma RepresentedUnchanged(nx: NextFn, s: State, o: Owed, a: AxiIn, r: RamIn, a': AxiIn)
    requires HoldsBacked(s, o) && Stable(o, a)
    requires Presented(s, a) && !r.accept && Stable(NextOwed(s, a, r.accept), a')
    ensures var s' := Next(nx, s, a, r);
            && (ReadActive(s', a') <==> ReadActive(s, a)) && RamWr(s', a') == RamWr(s, a)
            && RamAddr(s', a') == RamAddr(s, a)
            && (RamWr(s, a) != 0 ==> a'.w.data == a.w.data)
            && !(ReadActive(s', a') && WriteActive(s', a'))
  {
    var s' := Next(nx, s, a, r);
    HoldsStep(nx, s, o, a, r);
    HeldPresented(s', NextOwed(s, a, r.accept), a');
    OneDirection(s, a);
    OneDirection(s', a');
    assert s'.b == s.b;
  }

  // ----- Responses -----

  function RecordOf(beat: Beat): Record {
    Record(beat.read, beat.last, beat.id)
  }

  function Records(beats: seq<Beat>): (r: seq<Record>)
    ensures |r| == |beats|
  {
    seq(|beats|, k requires 0 <= k < |beats| => RecordOf(beats[k]))
  }

  /** What retired requests put on the R channel, and on the B channel. */
  function ReadsOut(done: seq<(Record, Word)>): seq<ReadOut> {
    if done == [] then [] else
    var (q, d) := done[|done| - 1];
    ReadsOut(done[..|done| - 1]) + if q.read then [ReadOut(q.id, d, q.last)] else []
  }

  function WritesOut(done: seq<Record>): seq<Nibble> {
    if done == [] then [] else
    var q := done[|done| - 1];
    WritesOut(done[..|done| - 1]) + if !q.read && q.last then [q.id] else []
  }

  /** The two queues hold the records and the answers of the beats not yet retired, and the
      second never holds more than the first. */
  ghost predicate Matched(s: State, log: Log) {
    && |s.resps| <= |s.reqs| <= DEPTH
    && Records(log.beats) == Firsts(log.done) + s.reqs
    && log.acks == Seconds(log.done) + s.resps
  }

  ghost predicate Returned(log: Log) {
    log.r == ReadsOut(log.done) && log.b == WritesOut(Firsts(log.done))
  }

  lemma RecordsStep(nx: NextFn, s: State, log: Log, a: AxiIn, r: RamIn)
    requires Matched(s, log)
    ensures Records(Append(log, s, a, r).beats) == Firsts(Append(log, s, a, r).done) + Next(nx, s, a, r).reqs
  {
    var push := if Presented(s, a) && r.accept then [Incoming(s, a, r.accept)] else [];
    var pop := if RespAccept(s, a) then [s.reqs[0]] else [];
    assert Records(log.beats + NewBeats(s, a, r.accept)) == Records(log.beats) + push;
    assert Firsts(Append(log, s, a, r).done) == Firsts(log.done) + pop;
    QueueMoves(Firsts(log.done), s.reqs, RespAccept(s, a), push);
  }

  lemma AnswersStep(nx: NextFn, s: State, log: Log, a: AxiIn, r: RamIn)
    requires Matched(s, log) && (r.ack ==> |s.resps| != DEPTH)
    ensures Append(log, s, a, r).acks == Seconds(Append(log, s, a, r).done) + Next(nx, s, a, r).resps
  {
    var pop := if RespAccept(s, a) then [s.resps[0]] else [];
    assert Seconds(Append(log, s, a, r).done) == Seconds(log.done) + pop;
    QueueMoves(Seconds(log.done), s.resps, RespAccept(s, a), if r.ack then [r.readData] else []);
  }

  /** An answer always finds room, although the response FIFO's accept output is unconnected. */
  lemma AnswerFits(s: State, log: Log, r: RamIn)
    requires Matched(s, log) && (r.ack ==> |log.acks| < |log.beats|)
    ensures r.ack ==> |s.resps| < |s.reqs| <= DEPTH
  {
    assert |Records(log.beats)| == |log.done| + |s.reqs| && |log.acks| == |log.done| + |s.resps|;
  }

  lemma MatchedStep(nx: NextFn, s: State, log: Log, a: AxiIn, r: RamIn)
    requires Matched(s, log) && (r.ack ==> |log.acks| < |log.beats|)
    ensures Matched(Next(nx, s, a, r), Append(log, s, a, r))
  {
    AnswerFits(s, log, r);
    RecordsStep(nx, s, log, a, r);
    AnswersStep(nx, s, log, a, r);
  }

  /** An answered request leaves at once: a read when RREADY is up, the last of a write burst when
      BREADY is, and the others of a write burst whatever the masters do; and nothing else leaves. */
  lemma LeavesWhen(nx: NextFn, s: State, a: AxiIn, r: RamIn)
    requires |s.reqs| <= 4 && |s.resps| <= |s.reqs|
    ensures var t := Next(nx, s, a, r);
            var leaves := s.resps != [] && (if s.reqs[0].read then a.rready else s.reqs[0].last ==> a.bready);
            && (if leaves then s.reqs[1..] else s.reqs) <= t.reqs && |t.reqs| <= |s.reqs| + (if leaves then 0 else 1)
            && (if leaves then s.resps[1..] else s.resps) <= t.resps
  {
  }

  /** One more retirement. */
  lemma RetireOne(done: seq<(Record, Word)>, q: Record, d: Word)
    ensures ReadsOut(done + [(q, d)]) == ReadsOut(done) + if q.read then [ReadOut(q.id, d, q.last)] else []
    ensures WritesOut(Firsts(done + [(q, d)])) == WritesOut(Firsts(done)) + if !q.read && q.last then [q.id] else []
  {
    assert (done + [(q, d)])[..|done|] == done;
    assert Firsts(done + [(q, d)])[..|done|] == Firsts(done);
  }

  /** What one cycle sends out is what the retired request calls for. */
  lemma SentIsRetired(s: State, a: AxiIn)
    requires |s.resps| <= |s.reqs|
    ensures RespAccept(s, a) ==> s.reqs != [] && s.resps != []
    ensures RespAccept(s, a) ==> (RValid(s) && a.rready <==> s.reqs[0].read)
                                 && (BValid(s) && a.bready <==> !s.reqs[0].read && s.reqs[0].last)
    ensures !RespAccept(s, a) ==> !(RValid(s) && a.rready) && !(BValid(s) && a.bready)
  {
  }

  lemma ReturnedStep(s: State, log: Log, a: AxiIn, r: RamIn)
    requires |s.resps| <= |s.reqs| && Returned(log)
    ensures Returned(Append(log, s, a, r))
  {
    SentIsRetired(s, a);
    if RespAccept(s, a) {
      RetireOne(log.done, s.reqs[0], s.resps[0]);
    } else {
      assert log.done + [] == log.done && log.r + [] == log.r && log.b + [] == log.b;
    }
  }

  /** Section A3.2.1 of ARM IHI 0022 on the port's own channels: once up, BVALID and RVALID stay
      with their ID, data and RLAST until the ready, whatever else comes in. */
  lemma ResponseUntilReady(nx: NextFn, s: State, a: AxiIn, r: RamIn)
    ensures var s' := Next(nx, s, a, r);
            && (BValid(s) && !a.bready ==> BValid(s') && s'.reqs[0] == s.reqs[0])
            && (RValid(s) && !a.rready ==> RValid(s') && s'.reqs[0] == s.reqs[0] && s'.resps[0] == s.resps[0])
  {
  }

  // ----- Every run -----

  lemma WantedAppend(nx: NextFn, bursts: seq<Burst>, s: State, a: AxiIn, accept: bool)
    requires Exclusive(s)
    ensures Wanted(nx, bursts + NewBursts(s, a, accept)) == Wanted(nx, bursts) + Wanted(nx, NewBursts(s, a, accept))
  {
    OneDirection(s, a);
    var more := NewBursts(s, a, accept);
    if more == [] {
      assert bursts + more == bursts;
    } else {
      assert more == [more[0]];
      OneWanted(nx, more[0]);
      assert (bursts + more)[..|bursts|] == bursts;
    }
  }

  ghost predicate Conserved(nx: NextFn, p: Run) {
    && HoldsBacked(p.s, p.owed) && Matched(p.s, p.log) && Returned(p.log)
    && p.log.beats + Remaining(nx, p.s.b) == Wanted(nx, p.log.bursts)
    && Payload(p.log.writes) == p.log.w && Addrs(p.log.writes) == WriteAddrs(p.log.beats)
  }

  lemma MoveAlong<T>(out: seq<T>, left: seq<T>, out': seq<T>, left': seq<T>, more: seq<T>)
    requires out' + left' == left + more
    ensures (out + out') + left' == (out + left) + more
  {
    assert (out + out') + left' == out + (out' + left');
  }

  lemma BeatsStep(nx: NextFn, p: Run, a: AxiIn, r: RamIn)
    requires Exclusive(p.s) && WellFormed(p.s, a, r.accept)
    requires p.log.beats + Remaining(nx, p.s.b) == Wanted(nx, p.log.bursts)
    ensures Append(p.log, p.s, a, r).beats + Remaining(nx, NextBurst(nx, p.s, a, r.accept))
            == Wanted(nx, Append(p.log, p.s, a, r).bursts)
  {
    CycleCorrectIff(nx, p.s, a, r.accept);
    WantedAppend(nx, p.log.bursts, p.s, a, r.accept);
    MoveAlong(p.log.beats, Remaining(nx, p.s.b), NewBeats(p.s, a, r.accept),
              Remaining(nx, NextBurst(nx, p.s, a, r.accept)), Wanted(nx, NewBursts(p.s, a, r.accept)));
  }

  lemma PayloadStep(p: Run, a: AxiIn, accept: bool)
    requires WellFormed(p.s, a, accept) && Payload(p.log.writes) == p.log.w
    ensures Payload(p.log.writes + NewWrites(p.s, a, accept)) == p.log.w + NewW(p.s, a, accept)
  {
    assert Payload(p.log.writes + NewWrites(p.s, a, accept))
        == Payload(p.log.writes) + Payload(NewWrites(p.s, a, accept));
  }

  lemma AddrsStep(p: Run, a: AxiIn, accept: bool)
    requires Exclusive(p.s) && Addrs(p.log.writes) == WriteAddrs(p.log.beats)
    ensures Addrs(p.log.writes + NewWrites(p.s, a, accept)) == WriteAddrs(p.log.beats + NewBeats(p.s, a, accept))
  {
    OneDirection(p.s, a);
    assert Addrs(p.log.writes + NewWrites(p.s, a, accept)) == Addrs(p.log.writes) + Addrs(NewWrites(p.s, a, accept));
    if Presented(p.s, a) && accept {
      assert (p.log.beats + NewBeats(p.s, a, accept))[..|p.log.beats|] == p.log.beats;
    } else {
      assert p.log.beats + [] == p.log.beats;
    }
  }

  lemma {:induction false} RunConserves(nx: NextFn, ins: seq<(AxiIn, RamIn)>)
    requires Legal(nx, ins)
    ensures Conserved(nx, RunOf(nx, ins))
  {
    if ins != [] {
      var p := RunOf(nx, ins[..|ins| - 1]);
      var (a, r) := ins[|ins| - 1];
      RunConserves(nx, ins[..|ins| - 1]);
      HoldsStep(nx, p.s, p.owed, a, r);
      MatchedStep(nx, p.s, p.log, a, r);
      ReturnedStep(p.s, p.log, a, r);
      BeatsStep(nx, p, a, r);
      PayloadStep(p, a, r.accept);
      AddrsStep(p, a, r.accept);
    } else {
      assert Wanted(nx, []) == [];
      assert Records([]) == [];
    }
  }
}
