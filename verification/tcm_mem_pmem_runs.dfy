/** What every run of the TCM's AXI port delivers, burst by burst. */
module TcmMemPmemRuns {
  import opened Bits
  import opened Bursts
  import opened Fifos
  import opened Seqs
  import opened TcmMemPmem

  // ----- What a burst should return -----

  /** `left + 1` marks with the same ID, only the last of them marked as last. */
  function LastMarked(id: Nibble, left: nat): (r: seq<(Nibble, bool)>)
    ensures |r| == left + 1 && forall k :: 0 <= k <= left ==> r[k] == (id, k == left)
  {
    [(id, left == 0)] + if left == 0 then [] else LastMarked(id, left - 1)
  }

  /** The {id, last} marks of a burst's ARLEN + 1 R beats. */
  function ReadMarks(burst: Burst): seq<(Nibble, bool)> {
    if burst.read then LastMarked(burst.cmd.id, burst.cmd.len) else []
  }

  function AllReadMarks(bursts: seq<Burst>): seq<(Nibble, bool)> {
    if bursts == [] then [] else AllReadMarks(bursts[..|bursts| - 1]) + ReadMarks(bursts[|bursts| - 1])
  }

  /** One B response per write burst, with its ID. */
  function AllWriteIds(bursts: seq<Burst>): seq<Nibble> {
    if bursts == [] then [] else
    AllWriteIds(bursts[..|bursts| - 1]) + if bursts[|bursts| - 1].read then [] else [bursts[|bursts| - 1].cmd.id]
  }

  function Marks(r: seq<ReadOut>): seq<(Nibble, bool)> {
    seq(|r|, k requires 0 <= k < |r| => (r[k].id, r[k].last))
  }

  // ----- From records to responses -----

  function MarksOf(records: seq<Record>): seq<(Nibble, bool)> {
    if records == [] then [] else
    var q := records[|records| - 1];
    MarksOf(records[..|records| - 1]) + if q.read then [(q.id, q.last)] else []
  }

  lemma {:induction false} MarksReturned(done: seq<(Record, Word)>)
    ensures Marks(ReadsOut(done)) == MarksOf(Firsts(done))
  {
    if done != [] {
      MarksReturned(done[..|done| - 1]);
      assert Firsts(done)[..|done| - 1] == Firsts(done[..|done| - 1]);
    }
  }

  lemma {:induction false} MarksConcat(a: seq<Record>, b: seq<Record>)
    ensures MarksOf(a + b) == MarksOf(a) + MarksOf(b)
  {
    if b == [] {
      assert a + b == a;
    } else {
      MarksConcat(a, b[..|b| - 1]);
      assert (a + b)[..|a + b| - 1] == a + b[..|b| - 1];
    }
  }

  lemma {:induction false} IdsConcat(a: seq<Record>, b: seq<Record>)
    ensures WritesOut(a + b) == WritesOut(a) + WritesOut(b)
  {
    if b == [] {
      assert a + b == a;
    } else {
      IdsConcat(a, b[..|b| - 1]);
      assert (a + b)[..|a + b| - 1] == a + b[..|b| - 1];
    }
  }

  lemma RecordsConcat(a: seq<Beat>, b: seq<Beat>)
    ensures Records(a + b) == Records(a) + Records(b)
  {
  }

  lemma OneRecord(q: Record)
    ensures MarksOf([q]) == if q.read then [(q.id, q.last)] else []
    ensures WritesOut([q]) == if !q.read && q.last then [q.id] else []
  {
    assert [q][..0] == [];
    assert MarksOf([]) == [] && WritesOut([]) == [];
  }

  /** One record more at the front. */
  lemma RecordFirst(first: Beat, rest: seq<Beat>)
    ensures MarksOf(Records([first] + rest))
         == (if first.read then [(first.id, first.last)] else []) + MarksOf(Records(rest))
    ensures WritesOut(Records([first] + rest))
         == (if !first.read && first.last then [first.id] else []) + WritesOut(Records(rest))
  {
    var q := RecordOf(first);
    OneRecord(q);
    RecordsConcat([first], rest);
    assert Records([first]) == [q];
    MarksConcat([q], Records(rest));
    IdsConcat([q], Records(rest));
  }

  /** The responses of one burst from any beat on. */
  lemma {:induction false} BurstReads(nx: NextFn, id: Nibble, addr: Word, burst: Pair, len: Byte, left: nat)
    ensures var q := Records(AsBeats(true, id, Countdown(nx, addr, burst, len, left)));
            MarksOf(q) == LastMarked(id, left) && WritesOut(q) == []
    decreases left
  {
    Unfold(nx, true, id, addr, burst, len, left);
    var addr' := nx(addr, burst, len);
    var rest := if left == 0 then [] else AsBeats(true, id, Countdown(nx, addr', burst, len, left - 1));
    RecordFirst(Beat(true, addr, left == 0, id), rest);
    if left > 0 {
      BurstReads(nx, id, addr', burst, len, left - 1);
    } else {
      assert Records(rest) == [];
    }
  }

  lemma {:induction false} BurstWrites(nx: NextFn, id: Nibble, addr: Word, burst: Pair, len: Byte, left: nat)
    ensures var q := Records(AsBeats(false, id, Countdown(nx, addr, burst, len, left)));
            MarksOf(q) == [] && WritesOut(q) == [id]
    decreases left
  {
    Unfold(nx, false, id, addr, burst, len, left);
    var addr' := nx(addr, burst, len);
    var rest := if left == 0 then [] else AsBeats(false, id, Countdown(nx, addr', burst, len, left - 1));
    RecordFirst(Beat(false, addr, left == 0, id), rest);
    if left > 0 {
      BurstWrites(nx, id, addr', burst, len, left - 1);
    } else {
      assert Records(rest) == [];
    }
  }

  lemma {:induction false} AllResponses(nx: NextFn, bursts: seq<Burst>)
    ensures MarksOf(Records(Wanted(nx, bursts))) == AllReadMarks(bursts)
    ensures WritesOut(Records(Wanted(nx, bursts))) == AllWriteIds(bursts)
  {
    if bursts != [] {
      var front, last := Wanted(nx, bursts[..|bursts| - 1]), bursts[|bursts| - 1];
      var c := last.cmd;
      AllResponses(nx, bursts[..|bursts| - 1]);
      if last.read {
        BurstReads(nx, c.id, c.addr, c.burst, c.len, c.len);
      } else {
        BurstWrites(nx, c.id, c.addr, c.burst, c.len, c.len);
      }
      RecordsConcat(front, BeatsOf(nx, last));
      MarksConcat(Records(front), Records(BeatsOf(nx, last)));
      IdsConcat(Records(front), Records(BeatsOf(nx, last)));
    }
  }

  // ----- The main results -----

  /** At every moment of every run: the RAM has taken exactly the beats of the accepted bursts,
      in order and up to the burst in progress, each write with the next W beat's data at its
      own address; and what has left on R and B is what the retired prefix of those beats and
      of the RAM's answers calls for. */
  lemma EveryMoment(nx: NextFn, ins: seq<(AxiIn, RamIn)>)
    requires Legal(nx, ins)
    ensures var p := RunOf(nx, ins);
            && p.log.beats + Remaining(nx, p.s.b) == Wanted(nx, p.log.bursts)
            && Addrs(p.log.writes) == WriteAddrs(p.log.beats) && Payload(p.log.writes) == p.log.w
            && Firsts(p.log.done) <= Records(p.log.beats) && Seconds(p.log.done) <= p.log.acks
            && p.log.r == ReadsOut(p.log.done) && p.log.b == WritesOut(Firsts(p.log.done))
            && |p.s.resps| <= |p.s.reqs| <= DEPTH
  {
    RunConserves(nx, ins);
  }

  /** Once the port is idle with its queues drained, every read burst has had its ARLEN + 1 RAM
      reads and as many R beats, with its ID, the RAM's data and RLAST on the last only; every
      write burst its AWLEN + 1 RAM writes and one B with its ID; all in acceptance order. */
  lemma QuietRunServedAll(nx: NextFn, ins: seq<(AxiIn, RamIn)>)
    requires Legal(nx, ins)
    requires var s := RunOf(nx, ins).s; !s.b.rd && !s.b.wr && s.reqs == []
    ensures var log := RunOf(nx, ins).log;
            && log.beats == Wanted(nx, log.bursts)
            && Marks(log.r) == AllReadMarks(log.bursts) && log.b == AllWriteIds(log.bursts)
            && Seconds(log.done) == log.acks && Firsts(log.done) == Records(log.beats) && log.r == ReadsOut(log.done)
  {
    RunConserves(nx, ins);
    var p := RunOf(nx, ins);
    AllResponses(nx, p.log.bursts);
    MarksReturned(p.log.done);
    assert p.log.beats + [] == p.log.beats;
    assert Firsts(p.log.done) + [] == Firsts(p.log.done);
    assert Seconds(p.log.done) + [] == Seconds(p.log.done);
  }

  // ----- Malformed write beats -----

  /** A command taken with a W beat that ends it at once, though it writes nothing or more beats
      were due: the burst is over, and no record will be its last. */
  predicate Loses(s: State, a: AxiIn, accept: bool) {
    AwFire(s, a, accept) && WFire(s, a, accept) && a.w.last && (a.w.strb == 0 || a.aw.len != 0)
  }

  /** Stable masters, and WLAST on the beat that comes with a one-beat command. */
  predicate Tolerable(p: Run, a: AxiIn, accept: bool) {
    Stable(p.owed, a) && (AwFire(p.s, a, accept) && WFire(p.s, a, accept) && a.aw.len == 0 ==> a.w.last)
  }

  predicate TolerableRun(nx: NextFn, ins: seq<(AxiIn, RamIn)>) {
    ins == [] ||
    var before := ins[..|ins| - 1];
    var (a, r) := ins[|ins| - 1];
    TolerableRun(nx, before) && Tolerable(RunOf(nx, before), a, r.accept)
  }

  /** The write commands lost in a run. */
  function Losses(nx: NextFn, ins: seq<(AxiIn, RamIn)>): nat {
    if ins == [] then 0 else
    var before := ins[..|ins| - 1];
    var (a, r) := ins[|ins| - 1];
    Losses(nx, before) + if Loses(RunOf(nx, before).s, a, r.accept) then 1 else 0
  }

  function IsLastWrite(q: Record): nat {
    if !q.read && q.last then 1 else 0
  }

  function LastWrites(q: seq<Record>): nat {
    |WritesOut(q)|
  }

  /** The B responses still to come: last beats in the request FIFO, and the burst in progress. */
  function StillOwed(s: State): nat {
    LastWrites(s.reqs) + if s.b.wr then 1 else 0
  }

  lemma CountPush(q: seq<Record>, x: Record)
    ensures LastWrites(q + [x]) == LastWrites(q) + IsLastWrite(x)
  {
    assert (q + [x])[..|q|] == q;
  }

  lemma CountPop(q: seq<Record>)
    requires q != []
    ensures LastWrites(q) == IsLastWrite(q[0]) + LastWrites(q[1..])
  {
    OneRecord(q[0]);
    IdsConcat([q[0]], q[1..]);
    assert q == [q[0]] + q[1..];
  }

  lemma CountQueue(q: seq<Record>, push: bool, x: Record, pop: bool)
    requires (push ==> |q| != DEPTH) && (pop ==> q != [])
    ensures LastWrites(QueueNext(q, DEPTH, push, x, pop)) + (if pop then IsLastWrite(q[0]) else 0)
         == LastWrites(q) + if push then IsLastWrite(x) else 0
  {
    var tail := if pop then q[1..] else q;
    if pop {
      CountPop(q);
    }
    if push {
      CountPush(tail, x);
    } else {
      assert QueueNext(q, DEPTH, push, x, pop) == tail;
    }
  }

  /** What one cycle adds to the requests and to the burst in progress. */
  lemma OwedByCycle(nx: NextFn, s: State, a: AxiIn, accept: bool)
    requires Exclusive(s) && (AwFire(s, a, accept) && WFire(s, a, accept) && a.aw.len == 0 ==> a.w.last)
    ensures var q := Incoming(s, a, accept);
            var push := Presented(s, a) && accept;
            (if push then IsLastWrite(q) else 0) + (if NextBurst(nx, s, a, accept).wr then 1 else 0)
            + (if Loses(s, a, accept) then 1 else 0)
            == (if s.b.wr then 1 else 0) + if AwFire(s, a, accept) then 1 else 0
  {
    OneDirection(s, a);
  }

  lemma OneMoreId(bursts: seq<Burst>, s: State, a: AxiIn, accept: bool)
    requires Exclusive(s)
    ensures |AllWriteIds(bursts + NewBursts(s, a, accept))|
         == |AllWriteIds(bursts)| + if AwFire(s, a, accept) then 1 else 0
  {
    OneDirection(s, a);
    var more := NewBursts(s, a, accept);
    if more == [] {
      assert bursts + more == bursts;
    } else {
      assert (bursts + more)[..|bursts|] == bursts;
    }
  }

  /** A response leaves on B exactly when a last write record leaves the request FIFO. */
  lemma BIsRetirement(s: State, a: AxiIn)
    ensures RespAccept(s, a) ==> s.reqs != []
    ensures (if BValid(s) && a.bready then 1 else 0) == if RespAccept(s, a) then IsLastWrite(s.reqs[0]) else 0
  {
  }

  lemma RecordsOwed(nx: NextFn, s: State, a: AxiIn, r: RamIn)
    ensures LastWrites(Next(nx, s, a, r).reqs) + (if BValid(s) && a.bready then 1 else 0)
         == LastWrites(s.reqs) + if Presented(s, a) && r.accept then IsLastWrite(Incoming(s, a, r.accept)) else 0
  {
    BIsRetirement(s, a);
    CountQueue(s.reqs, Presented(s, a) && r.accept, Incoming(s, a, r.accept), RespAccept(s, a));
  }

  lemma OwedStep(nx: NextFn, p: Run, a: AxiIn, r: RamIn, n: nat)
    requires Exclusive(p.s) && Tolerable(p, a, r.accept)
    requires |p.log.b| + StillOwed(p.s) + n == |AllWriteIds(p.log.bursts)|
    ensures var log := Append(p.log, p.s, a, r);
            |log.b| + StillOwed(Next(nx, p.s, a, r)) + n + (if Loses(p.s, a, r.accept) then 1 else 0)
            == |AllWriteIds(log.bursts)|
  {
    RecordsOwed(nx, p.s, a, r);
    OwedByCycle(nx, p.s, a, r.accept);
    OneMoreId(p.log.bursts, p.s, a, r.accept);
  }

  /** In every such run each accepted write burst has had its B, or is still owed it, or was
      lost; so a lost one leaves the responses behind for ever. */
  lemma {:induction false} LostWritesNeverAnswered(nx: NextFn, ins: seq<(AxiIn, RamIn)>)
    requires TolerableRun(nx, ins)
    ensures var p := RunOf(nx, ins);
            && HoldsBacked(p.s, p.owed)
            && |p.log.b| + StillOwed(p.s) + Losses(nx, ins) == |AllWriteIds(p.log.bursts)|
  {
    if ins != [] {
      var before := ins[..|ins| - 1];
      var (a, r) := ins[|ins| - 1];
      LostWritesNeverAnswered(nx, before);
      HoldsStep(nx, RunOf(nx, before).s, RunOf(nx, before).owed, a, r);
      OwedStep(nx, RunOf(nx, before), a, r, Losses(nx, before));
    }
  }

  /** It can happen: a one-beat write with no strobe, with the port at rest. */
  lemma ZeroStrobeLost(nx: NextFn, c: Command, data: Word, bready: bool, rready: bool)
    requires c.len == 0
    ensures var a := AxiIn(true, c, true, WriteBeat(data, 0, true), bready, false, c, rready);
            Loses(RESET, a, true) && NewBeats(RESET, a, true) == [] && !NextBurst(nx, RESET, a, true).wr
  {
  }

  // ----- The testbench memory as the simple form -----

  function BeatWords(beats: seq<Beat>): seq<(int, bool)> {
    seq(|beats|, k requires 0 <= k < |beats| => (beats[k].addr / 4, beats[k].last))
  }

  /** What the testbench memory unrolls for the same commands. */
  function BenchWords(bursts: seq<Burst>): seq<(int, bool)> {
    if bursts == [] then [] else
    var c := bursts[|bursts| - 1].cmd;
    BenchWords(bursts[..|bursts| - 1]) + Words(Unroll(AlignWord(c.addr), c.burst, c.len, 0))
  }

  lemma {:induction false} SlotWords(read: bool, id: Nibble, slots: seq<Slot>)
    ensures BeatWords(AsBeats(read, id, slots)) == Words(slots)
  {
    if slots != [] {
      var rest := AsBeats(read, id, slots[1..]);
      SlotWords(read, id, slots[1..]);
      assert BeatWords([Beat(read, slots[0].addr, slots[0].last, id)] + rest)
          == [(slots[0].addr / 4, slots[0].last)] + BeatWords(rest);
    }
  }

  lemma BeatWordsConcat(a: seq<Beat>, b: seq<Beat>)
    ensures BeatWords(a + b) == BeatWords(a) + BeatWords(b)
  {
  }

  lemma {:induction false} SameAsBench(opt: Options, bursts: seq<Burst>)
    requires forall k :: 0 <= k < |bursts| ==> Supported(opt, bursts[k].cmd.burst)
    ensures BeatWords(Wanted(PortNextFn(opt), bursts)) == BenchWords(bursts)
  {
    if bursts != [] {
      var front, last := bursts[..|bursts| - 1], bursts[|bursts| - 1];
      var c, nx := last.cmd, PortNextFn(opt);
      SameAsBench(opt, front);
      BeatWordsConcat(Wanted(nx, front), BeatsOf(nx, last));
      SlotWords(last.read, c.id, Countdown(nx, c.addr, c.burst, c.len, c.len));
      CountdownIsUnroll(opt, c.addr, c.burst, c.len);
    }
  }

  /** A drained port has given the RAM the very words, in the very order, that the testbench
      memory unrolls for the commands it accepted. */
  lemma QuietRunMatchesBench(opt: Options, ins: seq<(AxiIn, RamIn)>)
    requires var nx := PortNextFn(opt); Legal(nx, ins) && !RunOf(nx, ins).s.b.rd && !RunOf(nx, ins).s.b.wr
    requires var bursts := RunOf(PortNextFn(opt), ins).log.bursts;
             forall k :: 0 <= k < |bursts| ==> Supported(opt, bursts[k].cmd.burst)
    ensures var log := RunOf(PortNextFn(opt), ins).log; BeatWords(log.beats) == BenchWords(log.bursts)
  {
    var nx := PortNextFn(opt);
    RunConserves(nx, ins);
    var log := RunOf(nx, ins).log;
    assert log.beats + [] == log.beats;
    SameAsBench(opt, log.bursts);
  }
}
