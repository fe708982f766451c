/** What every run of the testbench memory returns, whatever its delays. */
module Axi4MemRuns {
  import opened Axi4Mem
  import opened Bits
  import opened Bursts
  import opened TcmMemPmem

  /** Logs in order of time: commands taken, data of W beats taken, items taken from the two
      queues, what was put in the R register, how many writes had been performed before each of
      those, and the R and B handshakes; and the number of W beats taken of the recorded command. */
  datatype MemLog = MemLog(rdCmds: seq<Command>, wrCmds: seq<Command>, wdata: seq<(Word, Nibble)>,
                           fetched: seq<Item>, served: seq<ReadOut>, seen: seq<nat>, performed: seq<WriteItem>,
                           r: seq<ReadOut>, b: seq<Nibble>, beat: nat)

  datatype MemRun = MemRun(s: MemState, log: MemLog)

  function BeatNow(r: MemRun, a: AxiIn): nat {
    if AwTaken(r.s, a) then 0 else r.log.beat
  }

  function Record(r: MemRun, a: AxiIn, d: Delays): MemLog {
    var s, log := r.s, r.log;
    MemLog(
      log.rdCmds + (if ArTaken(s, a) then [a.ar] else []),
      log.wrCmds + (if AwTaken(s, a) then [a.aw] else []),
      log.wdata + (if WTaken(s, a) then [(a.w.data, a.w.strb)] else []),
      log.fetched + (if Serves(s, a, d) then [ReadsNow(s, a)[0]] else []),
      log.served + (if Serves(s, a, d) then [Served(s.mem, ReadsNow(s, a)[0])] else []),
      log.seen + (if Serves(s, a, d) then [|log.performed|] else []),
      log.performed + (if Performs(s, a, d) then [WritesNow(s, a)[0]] else []),
      log.r + (if s.rvalid && a.rready then [s.r] else []),
      log.b + (if s.bvalid && a.bready then [s.bid] else []),
      if WTaken(s, a) then BeatNow(r, a) + 1 else BeatNow(r, a))
  }

  function Clocked(r: MemRun, a: AxiIn, d: Delays): MemRun {
    MemRun(MemNext(r.s, a, d), Record(r, a, d))
  }

  function MemRunOf(initial: Memory, ins: seq<(AxiIn, Delays)>): MemRun {
    if ins == [] then MemRun(Initial(initial), MemLog([], [], [], [], [], [], [], [], [], 0)) else
    Clocked(MemRunOf(initial, ins[..|ins| - 1]), ins[|ins| - 1].0, ins[|ins| - 1].1)
  }

  /** The master sends a command no later than its data, and WLAST agrees with AWLEN. */
  predicate LegalBeat(r: MemRun, a: AxiIn) {
    WTaken(r.s, a) ==> Recorded(r.s, a).valid && (a.w.last <==> BeatNow(r, a) == Recorded(r.s, a).cmd.len)
  }

  predicate LegalMaster(initial: Memory, ins: seq<(AxiIn, Delays)>) {
    ins == [] ||
    (LegalMaster(initial, ins[..|ins| - 1]) && LegalBeat(MemRunOf(initial, ins[..|ins| - 1]), ins[|ins| - 1].0))
  }

  // ----- What is expected -----

  function AllReads(cmds: seq<Command>): seq<Item> {
    if cmds == [] then [] else AllReads(cmds[..|cmds| - 1]) + Unrolled(cmds[|cmds| - 1])
  }

  function WriteBurst(c: Command): seq<Item> {
    Items(c.id, Unroll(c.addr, c.burst, c.len, 0))
  }

  function AllWrites(cmds: seq<Command>): seq<Item> {
    if cmds == [] then [] else AllWrites(cmds[..|cmds| - 1]) + WriteBurst(cmds[|cmds| - 1])
  }

  function Ids(cmds: seq<Command>): (r: seq<Nibble>)
    ensures |r| == |cmds|
  {
    seq(|cmds|, k requires 0 <= k < |cmds| => cmds[k].id)
  }

  function Places(ws: seq<WriteItem>): (r: seq<Item>)
    ensures |r| == |ws|
  {
    seq(|ws|, k requires 0 <= k < |ws| => Item(ws[k].id, ws[k].addr, ws[k].last))
  }

  function Payloads(ws: seq<WriteItem>): (r: seq<(Word, Nibble)>)
    ensures |r| == |ws|
  {
    seq(|ws|, k requires 0 <= k < |ws| => (ws[k].data, ws[k].strb))
  }

  /** The IDs of the items marked last. */
  function LastIds(xs: seq<Item>): seq<Nibble> {
    if xs == [] then [] else LastIds(xs[..|xs| - 1]) + if xs[|xs| - 1].last then [xs[|xs| - 1].id] else []
  }

  function Replay(m: Memory, ws: seq<WriteItem>): Memory {
    if ws == [] then m else
    var w := ws[|ws| - 1];
    Write32(Replay(m, ws[..|ws| - 1]), w.addr, w.data, w.strb)
  }

  /** The beats the recorded command still waits for. */
  function Awaited(q: WriteReq, beat: nat): seq<Item>
    requires q.valid ==> beat <= q.cmd.len
  {
    if q.valid then Items(q.cmd.id, Unroll(q.cmd.addr, q.cmd.burst, q.cmd.len, beat)) else []
  }

  lemma ItemAt(id: Nibble, addr: Word, burst: Pair, len: Byte, k: nat)
    requires k <= len
    ensures |Items(id, Unroll(addr, burst, len, 0))| == len + 1
    ensures Items(id, Unroll(addr, burst, len, 0))[k]
         == Item(id, AddressAfter(BenchNextFn(), addr, burst, len, k), k == len)
  {
    NthUnrolled(addr, burst, len, 0, k);
  }

  /** A read burst has len + 1 items, from its address with the two low bits cleared; a write burst from
      its address as it is; each with its ID, and only the last marked. */
  lemma BurstItems(c: Command, k: nat)
    requires k <= c.len
    ensures |Unrolled(c)| == |WriteBurst(c)| == c.len + 1
    ensures Unrolled(c)[k]
         == Item(c.id, AddressAfter(BenchNextFn(), AlignWord(c.addr), c.burst, c.len, k), k == c.len)
    ensures WriteBurst(c)[k] == Item(c.id, AddressAfter(BenchNextFn(), c.addr, c.burst, c.len, k), k == c.len)
  {
    ItemAt(c.id, AlignWord(c.addr), c.burst, c.len, k);
    ItemAt(c.id, c.addr, c.burst, c.len, k);
  }

  // ----- The invariant -----

  predicate Bounded(s: MemState) {
    && |s.rdQ| <= 383 && |s.wrQ| <= QUEUE_LIMIT && (s.ready.ar ==> |s.rdQ| < QUEUE_LIMIT)
    && (s.ready.w ==> |s.wrQ| < QUEUE_LIMIT) && (s.ready.aw ==> !s.req.valid)
  }

  predicate ReadsOk(r: MemRun) {
    && AllReads(r.log.rdCmds) == r.log.fetched + r.s.rdQ
    && r.log.served == r.log.r + if r.s.rvalid then [r.s.r] else []
  }

  /** The k-th beat served has the ID and the last flag of the k-th item fetched, and the word that
      the memory holds at its address after the writes performed until then. */
  predicate BeatOk(initial: Memory, log: MemLog, k: nat)
    requires k < |log.served| == |log.fetched| == |log.seen|
  {
    && log.seen[k] <= |log.performed|
    && log.served[k] == ReadOut(log.fetched[k].id,
                                Read32(Replay(initial, log.performed[..log.seen[k]]), log.fetched[k].addr),
                                log.fetched[k].last)
  }

  predicate DataOk(initial: Memory, log: MemLog) {
    && |log.served| == |log.fetched| == |log.seen|
    && (forall k :: 0 <= k < |log.served| ==> BeatOk(initial, log, k))
    && (forall j, k :: 0 <= j < k < |log.seen| ==> log.seen[j] <= log.seen[k])
  }

  /** The beats pushed and the beats awaited are those of the commands. */
  predicate PlacesOk(pushed: seq<WriteItem>, q: WriteReq, beat: nat, cmds: seq<Command>) {
    (q.valid ==> beat <= q.cmd.len) && Places(pushed) + Awaited(q, beat) == AllWrites(cmds)
  }

  predicate WritesOk(r: MemRun) {
    && PlacesOk(r.log.performed + r.s.wrQ, r.s.req, r.log.beat, r.log.wrCmds)
    && Payloads(r.log.performed + r.s.wrQ) == r.log.wdata
  }

  predicate AnswersOk(initial: Memory, r: MemRun) {
    && LastIds(Places(r.log.performed)) == r.log.b + (if r.s.bvalid then [r.s.bid] else [])
    && r.s.mem == Replay(initial, r.log.performed)
  }

  // ----- One turn -----

  lemma BoundedStep(s: MemState, a: AxiIn, d: Delays)
    requires Bounded(s)
    ensures Bounded(MemNext(s, a, d))
  {
  }

  lemma PopMoves<T>(gone: seq<T>, q: seq<T>, pop: bool)
    requires pop ==> q != []
    ensures (gone + if pop then [q[0]] else []) + Tail(q, pop) == gone + q
  {
  }

  lemma OneMoreRead(cmds: seq<Command>, c: Command)
    ensures AllReads(cmds + [c]) == AllReads(cmds) + Unrolled(c)
  {
    assert (cmds + [c])[..|cmds|] == cmds;
  }

  lemma FetchedStep(cmds: seq<Command>, fetched: seq<Item>, s: MemState, a: AxiIn, pop: bool)
    requires AllReads(cmds) == fetched + s.rdQ && (pop ==> ReadsNow(s, a) != [])
    ensures AllReads(cmds + if ArTaken(s, a) then [a.ar] else [])
         == (fetched + if pop then [ReadsNow(s, a)[0]] else []) + Tail(ReadsNow(s, a), pop)
  {
    if ArTaken(s, a) {
      OneMoreRead(cmds, a.ar);
    } else {
      assert cmds + [] == cmds;
    }
    assert AllReads(cmds + if ArTaken(s, a) then [a.ar] else []) == fetched + ReadsNow(s, a);
    PopMoves(fetched, ReadsNow(s, a), pop);
  }

  lemma ReadsStep(r: MemRun, a: AxiIn, d: Delays)
    requires ReadsOk(r)
    ensures ReadsOk(Clocked(r, a, d))
  {
    FetchedStep(r.log.rdCmds, r.log.fetched, r.s, a, Serves(r.s, a, d));
  }

  lemma OneMoreWrite(cmds: seq<Command>, c: Command)
    ensures AllWrites(cmds + [c]) == AllWrites(cmds) + WriteBurst(c)
  {
    assert (cmds + [c])[..|cmds|] == cmds;
  }

  /** Recording a command, when none is waiting. */
  lemma RecordStep(pushed: seq<WriteItem>, q: WriteReq, beat: nat, cmds: seq<Command>, c: Command)
    requires PlacesOk(pushed, q, beat, cmds) && !q.valid
    ensures PlacesOk(pushed, WriteReq(true, c), 0, cmds + [c])
  {
    OneMoreWrite(cmds, c);
  }

  /** Taking a W beat for the recorded command. */
  lemma BeatStep(pushed: seq<WriteItem>, q: WriteReq, beat: nat, cmds: seq<Command>, w: WriteBeat)
    requires PlacesOk(pushed, q, beat, cmds) && q.valid && (w.last <==> beat == q.cmd.len)
    ensures var c := q.cmd;
            PlacesOk(pushed + [WriteItem(c.id, c.addr, w.data, w.strb, w.last)],
                     WriteReq(!w.last, c.(addr := BenchNext(c.addr, c.burst, c.len))), beat + 1, cmds)
  {
    var c := q.cmd;
    var next := BenchNext(c.addr, c.burst, c.len);
    ItemsFirst(c.id, Slot(c.addr, beat == c.len), Unroll(next, c.burst, c.len, beat + 1));
    assert Places(pushed + [WriteItem(c.id, c.addr, w.data, w.strb, w.last)])
        == Places(pushed) + [Item(c.id, c.addr, w.last)];
    assert beat == c.len ==> Unroll(next, c.burst, c.len, beat + 1) == [];
  }

  lemma QueueStep(r: MemRun, a: AxiIn, d: Delays)
    ensures var r' := Clocked(r, a, d);
            r'.log.performed + r'.s.wrQ == (r.log.performed + r.s.wrQ) + Pushed(r.s, a)
  {
    PopMoves(r.log.performed, WritesNow(r.s, a), Performs(r.s, a, d));
    assert r.log.performed + WritesNow(r.s, a) == (r.log.performed + r.s.wrQ) + Pushed(r.s, a);
  }

  lemma PayloadStep(all: seq<WriteItem>, r: MemRun, a: AxiIn)
    requires Payloads(all) == r.log.wdata
    ensures Payloads(all + Pushed(r.s, a)) == r.log.wdata + if WTaken(r.s, a) then [(a.w.data, a.w.strb)] else []
  {
  }

  function CommandsNow(r: MemRun, a: AxiIn): seq<Command> {
    r.log.wrCmds + if AwTaken(r.s, a) then [a.aw] else []
  }

  lemma RecordedStep(pushed: seq<WriteItem>, r: MemRun, a: AxiIn)
    requires PlacesOk(pushed, r.s.req, r.log.beat, r.log.wrCmds) && Bounded(r.s)
    ensures PlacesOk(pushed, Recorded(r.s, a), BeatNow(r, a), CommandsNow(r, a))
  {
    if AwTaken(r.s, a) {
      RecordStep(pushed, r.s.req, r.log.beat, r.log.wrCmds, a.aw);
    } else {
      assert CommandsNow(r, a) == r.log.wrCmds;
    }
  }

  lemma PlacesStep(pushed: seq<WriteItem>, r: MemRun, a: AxiIn, cmds: seq<Command>)
    requires PlacesOk(pushed, Recorded(r.s, a), BeatNow(r, a), cmds) && LegalBeat(r, a)
    ensures PlacesOk(pushed + Pushed(r.s, a), NextReq(r.s, a),
                     if WTaken(r.s, a) then BeatNow(r, a) + 1 else BeatNow(r, a), cmds)
  {
    if WTaken(r.s, a) {
      BeatStep(pushed, Recorded(r.s, a), BeatNow(r, a), cmds, a.w);
    } else {
      assert pushed + Pushed(r.s, a) == pushed;
    }
  }

  lemma WriteSide(r: MemRun, a: AxiIn, d: Delays)
    ensures var r' := Clocked(r, a, d);
            && r'.s.req == NextReq(r.s, a) && r'.log.wrCmds == CommandsNow(r, a)
            && r'.log.beat == (if WTaken(r.s, a) then BeatNow(r, a) + 1 else BeatNow(r, a))
            && r'.log.wdata == r.log.wdata + if WTaken(r.s, a) then [(a.w.data, a.w.strb)] else []
  {
  }

  /** The write side after a turn, `r'`. */
  lemma WritesMove(r: MemRun, a: AxiIn, r': MemRun, all: seq<WriteItem>)
    requires all == r.log.performed + r.s.wrQ && WritesOk(r) && Bounded(r.s) && LegalBeat(r, a)
    requires r'.log.performed + r'.s.wrQ == all + Pushed(r.s, a)
    requires r'.s.req == NextReq(r.s, a) && r'.log.wrCmds == CommandsNow(r, a)
    requires r'.log.beat == (if WTaken(r.s, a) then BeatNow(r, a) + 1 else BeatNow(r, a))
    requires r'.log.wdata == r.log.wdata + if WTaken(r.s, a) then [(a.w.data, a.w.strb)] else []
    ensures WritesOk(r')
  {
    RecordedStep(all, r, a);
    PlacesStep(all, r, a, CommandsNow(r, a));
    PayloadStep(all, r, a);
  }

  lemma WritesStep(r: MemRun, a: AxiIn, d: Delays)
    requires WritesOk(r) && Bounded(r.s) && LegalBeat(r, a)
    ensures WritesOk(Clocked(r, a, d))
  {
    QueueStep(r, a, d);
    WriteSide(r, a, d);
    WritesMove(r, a, Clocked(r, a, d), r.log.performed + r.s.wrQ);
  }

  lemma OnePerformed(initial: Memory, done: seq<WriteItem>, w: WriteItem)
    ensures LastIds(Places(done + [w])) == LastIds(Places(done)) + if w.last then [w.id] else []
    ensures Replay(initial, done + [w]) == Write32(Replay(initial, done), w.addr, w.data, w.strb)
  {
    assert (done + [w])[..|done|] == done;
    assert Places(done + [w])[..|done|] == Places(done);
  }

  lemma AnswersStep(initial: Memory, r: MemRun, a: AxiIn, d: Delays)
    requires AnswersOk(initial, r)
    ensures AnswersOk(initial, Clocked(r, a, d))
  {
    if Performs(r.s, a, d) {
      OnePerformed(initial, r.log.performed, WritesNow(r.s, a)[0]);
    } else {
      assert r.log.performed + [] == r.log.performed;
    }
  }

  /** A beat once served stays right as writes go on. */
  lemma BeatKept(initial: Memory, log: MemLog, log': MemLog, k: nat)
    requires DataOk(initial, log) && k < |log.served| && |log'.served| == |log'.fetched| == |log'.seen|
    requires log.served <= log'.served && log.fetched <= log'.fetched
             && log.seen <= log'.seen && log.performed <= log'.performed
    ensures BeatOk(initial, log', k)
  {
    assert BeatOk(initial, log, k);
    assert log'.performed[..log.seen[k]] == log.performed[..log.seen[k]];
  }

  lemma DataStep(initial: Memory, r: MemRun, a: AxiIn, d: Delays)
    requires DataOk(initial, r.log) && AnswersOk(initial, r)
    ensures DataOk(initial, Record(r, a, d))
  {
    var log, log' := r.log, Record(r, a, d);
    forall k | 0 <= k < |log'.served| ensures BeatOk(initial, log', k) && log'.seen[k] <= |log.performed| {
      if k < |log.served| {
        assert BeatOk(initial, log, k);
        BeatKept(initial, log, log', k);
      } else {
        assert log'.performed[..|log.performed|] == log.performed;
      }
    }
  }

  lemma {:induction false} RunKeeps(initial: Memory, ins: seq<(AxiIn, Delays)>)
    requires LegalMaster(initial, ins)
    ensures var r := MemRunOf(initial, ins);
            Bounded(r.s) && ReadsOk(r) && DataOk(initial, r.log) && WritesOk(r) && AnswersOk(initial, r)
  {
    if ins != [] {
      var r, a, d := MemRunOf(initial, ins[..|ins| - 1]), ins[|ins| - 1].0, ins[|ins| - 1].1;
      RunKeeps(initial, ins[..|ins| - 1]);
      BoundedStep(r.s, a, d);
      ReadsStep(r, a, d);
      DataStep(initial, r, a, d);
      WritesStep(r, a, d);
      AnswersStep(initial, r, a, d);
    }
  }

  // ----- One response per write burst -----

  lemma {:induction false} LastIdsConcat(a: seq<Item>, b: seq<Item>)
    ensures LastIds(a + b) == LastIds(a) + LastIds(b)
  {
    if b == [] {
      assert a + b == a;
    } else {
      LastIdsConcat(a, b[..|b| - 1]);
      assert (a + b)[..|a + b| - 1] == a + b[..|b| - 1];
    }
  }

  lemma {:induction false} BurstLastId(id: Nibble, addr: Word, burst: Pair, len: Byte, i: nat)
    requires i <= len
    ensures LastIds(Items(id, Unroll(addr, burst, len, i))) == [id]
    decreases len - i
  {
    var next := BenchNext(addr, burst, len);
    var first, rest := Item(id, addr, i == len), Items(id, Unroll(next, burst, len, i + 1));
    ItemsFirst(id, Slot(addr, i == len), Unroll(next, burst, len, i + 1));
    assert [first][..0] == [];
    assert LastIds([first]) == if i == len then [id] else [];
    LastIdsConcat([first], rest);
    if i < len {
      BurstLastId(id, next, burst, len, i + 1);
    } else {
      assert rest == [];
    }
  }

  lemma {:induction false} AllLastIds(cmds: seq<Command>)
    ensures LastIds(AllWrites(cmds)) == Ids(cmds)
  {
    if cmds != [] {
      var c := cmds[|cmds| - 1];
      AllLastIds(cmds[..|cmds| - 1]);
      LastIdsConcat(AllWrites(cmds[..|cmds| - 1]), WriteBurst(c));
      BurstLastId(c.id, c.addr, c.burst, c.len, 0);
      assert Ids(cmds) == Ids(cmds[..|cmds| - 1]) + [c.id];
    }
  }

  // ----- The main results -----

  /** At every moment, for every delay schedule: reads are fetched in the order of the unrolled
      bursts and each is offered once, with the word the memory holds at that point of the writes;
      writes are performed in order at the addresses of their bursts, each with its own W beat's
      data, and the memory is the initial one with exactly those writes; the read queue
      holds at most 383 items and the write queue at most 128. */
  lemma EveryMoment(initial: Memory, ins: seq<(AxiIn, Delays)>)
    requires LegalMaster(initial, ins)
    ensures var r := MemRunOf(initial, ins);
            && |r.s.rdQ| <= 383 && |r.s.wrQ| <= 128
            && r.log.fetched <= AllReads(r.log.rdCmds) && r.log.r <= r.log.served && DataOk(initial, r.log)
            && Places(r.log.performed) <= AllWrites(r.log.wrCmds) && Payloads(r.log.performed) <= r.log.wdata
            && r.s.mem == Replay(initial, r.log.performed)
  {
    RunKeeps(initial, ins);
    var r := MemRunOf(initial, ins);
    PlacesConcat(r.log.performed, r.s.wrQ);
  }

  lemma PlacesConcat(a: seq<WriteItem>, b: seq<WriteItem>)
    ensures Places(a + b) == Places(a) + Places(b) && Payloads(a + b) == Payloads(a) + Payloads(b)
  {
  }

  /** Once everything is drained, every beat of every read burst has been returned in order, with
      its ID, its last flag and the data of its moment, and each write burst has had exactly one B
      response, with its ID and in order. */
  lemma DrainedRunAnswersAll(initial: Memory, ins: seq<(AxiIn, Delays)>)
    requires LegalMaster(initial, ins)
    requires var s := MemRunOf(initial, ins).s; s.rdQ == [] && s.wrQ == [] && !s.req.valid && !s.rvalid && !s.bvalid
    ensures var log := MemRunOf(initial, ins).log;
            && log.r == log.served && log.fetched == AllReads(log.rdCmds) && DataOk(initial, log)
            && log.b == Ids(log.wrCmds)
            && Places(log.performed) == AllWrites(log.wrCmds) && Payloads(log.performed) == log.wdata
  {
    RunKeeps(initial, ins);
    var log := MemRunOf(initial, ins).log;
    assert log.performed + [] == log.performed;
    assert Places(log.performed) + [] == Places(log.performed);
    AllLastIds(log.wrCmds);
  }
}
