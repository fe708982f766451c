/** `tb_axi4_mem`: the testbench's AXI4 memory. It unrolls a burst into a queue when it takes the
    command, and serves the queues under arbitrary delays. */
module Axi4Mem {
  import opened Bits
  import opened Bursts
  import opened TcmMemPmem
  import Arith

  // ----- Bytes -----

  type Memory = map<Word, Byte>

  function ReadByte(m: Memory, a: Word): Byte {
    if a in m then m[a] else 0
  }

  function Offset(a: Word, i: nat): Word {
    (a + i) % TWO_32
  }

  /** 1 << (8 * i) */
  function Lane(i: nat): nat
    requires i < 4
  {
    if i == 0 then 1 else if i == 1 then 0x100 else if i == 2 then 0x1_0000 else 0x100_0000
  }

  /** strb & (1 << i) */
  predicate Strobed(strb: Nibble, i: nat)
    requires i < 4
  {
    (if i == 0 then strb else if i == 1 then strb / 2 else if i == 2 then strb / 4 else strb / 8) % 2 == 1
  }

  /** The word at an address, least significant byte first. */
  function Read32(m: Memory, a: Word): Word {
    ReadByte(m, a) + 0x100 * ReadByte(m, Offset(a, 1))
      + 0x1_0000 * ReadByte(m, Offset(a, 2)) + 0x100_0000 * ReadByte(m, Offset(a, 3))
  }

  function WriteLanes(m: Memory, a: Word, data: Word, strb: Nibble, n: nat): Memory
    requires n <= 4
  {
    if n == 0 then m else
    var m' := WriteLanes(m, a, data, strb, n - 1);
    if Strobed(strb, n - 1) then m'[Offset(a, n - 1) := data / Lane(n - 1) % 256] else m'
  }

  function Write32(m: Memory, a: Word, data: Word, strb: Nibble): Memory {
    WriteLanes(m, a, data, strb, 4)
  }

  lemma OffsetsDiffer(a: Word, i: nat, j: nat)
    requires i < j < 4
    ensures Offset(a, i) != Offset(a, j)
  {
  }

  lemma LaneByte(m: Memory, a: Word, data: Word, strb: Nibble, n: nat, b: Word)
    requires n < 4
    ensures ReadByte(WriteLanes(m, a, data, strb, n + 1), b)
         == if b == Offset(a, n) && Strobed(strb, n) then data / Lane(n) % 256
            else ReadByte(WriteLanes(m, a, data, strb, n), b)
  {
  }

  lemma LanesWritten(m: Memory, a: Word, data: Word, strb: Nibble, b: Word)
    ensures (forall i :: 0 <= i < 4 && b == Offset(a, i) && Strobed(strb, i) ==>
               ReadByte(Write32(m, a, data, strb), b) == data / Lane(i) % 256)
    ensures (forall i :: 0 <= i < 4 && Strobed(strb, i) ==> b != Offset(a, i)) ==>
               ReadByte(Write32(m, a, data, strb), b) == ReadByte(m, b)
  {
    assert WriteLanes(m, a, data, strb, 0) == m;
    forall i, j | 0 <= i < j < 4 ensures Offset(a, i) != Offset(a, j) {
      OffsetsDiffer(a, i, j);
    }
    LaneByte(m, a, data, strb, 0, b);
    LaneByte(m, a, data, strb, 1, b);
    LaneByte(m, a, data, strb, 2, b);
    LaneByte(m, a, data, strb, 3, b);
  }

  /** Each of the four bytes from the address on, modulo 2^32, takes its lane of the data if its
      strobe bit is set, and every other byte stays. */
  lemma Write32Bytes(m: Memory, a: Word, data: Word, strb: Nibble, b: Word)
    ensures var w, a1, a2, a3 := Write32(m, a, data, strb),
                                 (a + 1) % 0x1_0000_0000, (a + 2) % 0x1_0000_0000, (a + 3) % 0x1_0000_0000;
            && ReadByte(w, a) == (if strb % 2 == 1 then data % 256 else ReadByte(m, a))
            && ReadByte(w, a1) == (if strb / 2 % 2 == 1 then data / 256 % 256 else ReadByte(m, a1))
            && ReadByte(w, a2) == (if strb / 4 % 2 == 1 then data / 65536 % 256 else ReadByte(m, a2))
            && ReadByte(w, a3) == (if strb / 8 % 2 == 1 then data / 0x100_0000 % 256 else ReadByte(m, a3))
            && (b !in {a, a1, a2, a3} ==> ReadByte(w, b) == ReadByte(m, b))
  {
    LaneWritten(m, a, data, strb, 0);
    LaneWritten(m, a, data, strb, 1);
    LaneWritten(m, a, data, strb, 2);
    LaneWritten(m, a, data, strb, 3);
    LanesWritten(m, a, data, strb, b);
  }

  lemma LaneWritten(m: Memory, a: Word, data: Word, strb: Nibble, n: nat)
    requires n < 4
    ensures ReadByte(Write32(m, a, data, strb), Offset(a, n))
         == if Strobed(strb, n) then data / Lane(n) % 256 else ReadByte(m, Offset(a, n))
  {
    forall i, j | 0 <= i < j < 4 ensures Offset(a, i) != Offset(a, j) {
      OffsetsDiffer(a, i, j);
    }
    LanesWritten(m, a, data, strb, Offset(a, n));
  }

  /** The word read is made of the four bytes from the address on, least significant first. */
  lemma Read32Bytes(m: Memory, a: Word)
    ensures Read32(m, a) % 256 == ReadByte(m, a)
    ensures Read32(m, a) / 256 % 256 == ReadByte(m, (a + 1) % 0x1_0000_0000)
    ensures Read32(m, a) / 65536 % 256 == ReadByte(m, (a + 2) % 0x1_0000_0000)
    ensures Read32(m, a) / 0x100_0000 % 256 == ReadByte(m, (a + 3) % 0x1_0000_0000)
  {
    Four(ReadByte(m, a), ReadByte(m, Offset(a, 1)), ReadByte(m, Offset(a, 2)), ReadByte(m, Offset(a, 3)));
  }

  lemma Four(b0: Byte, b1: Byte, b2: Byte, b3: Byte)
    ensures var x: int := b0 + 0x100 * b1 + 0x1_0000 * b2 + 0x100_0000 * b3;
            x % 256 == b0 && x / 256 % 256 == b1 && x / 65536 % 256 == b2 && x / 0x100_0000 % 256 == b3
  {
    var x := b0 + 0x100 * b1 + 0x1_0000 * b2 + 0x100_0000 * b3;
    Arith.ModUnique(x, 256, b1 + 256 * b2 + 65536 * b3, b0);
    Arith.ModUnique(b1 + 256 * b2 + 65536 * b3, 256, b2 + 256 * b3, b1);
    Arith.ModUnique(x, 65536, b2 + 256 * b3, b0 + 256 * b1);
    Arith.ModUnique(b2 + 256 * b3, 256, b3, b2);
    Arith.ModUnique(x, 0x100_0000, b3, b0 + 256 * b1 + 65536 * b2);
    Arith.ModUnique(b3, 256, 0, b3);
  }

  lemma Bytes(data: Word)
    ensures data == data % 256 + 0x100 * (data / 0x100 % 256)
                    + 0x1_0000 * (data / 0x1_0000 % 256) + 0x100_0000 * (data / 0x100_0000 % 256)
  {
  }

  lemma FromBytes(m: Memory, a: Word, data: Word)
    requires ReadByte(m, Offset(a, 0)) == data % 256 && ReadByte(m, Offset(a, 1)) == data / 0x100 % 256
    requires ReadByte(m, Offset(a, 2)) == data / 0x1_0000 % 256 && ReadByte(m, Offset(a, 3)) == data / 0x100_0000 % 256
    ensures Read32(m, a) == data
  {
    Bytes(data);
    assert Offset(a, 0) == a;
  }

  lemma LaneRead(m: Memory, a: Word, data: Word, n: nat)
    requires n < 4
    ensures ReadByte(Write32(m, a, data, 15), Offset(a, n)) == data / Lane(n) % 256
  {
    assert Strobed(15, n);
    LanesWritten(m, a, data, 15, Offset(a, n));
  }

  /** A word written with all strobes is read back. */
  lemma WriteThenRead(m: Memory, a: Word, data: Word)
    ensures Read32(Write32(m, a, data, 15), a) == data
  {
    LaneRead(m, a, data, 0);
    LaneRead(m, a, data, 1);
    LaneRead(m, a, data, 2);
    LaneRead(m, a, data, 3);
    FromBytes(Write32(m, a, data, 15), a, data);
  }

  // ----- State -----

  datatype Item = Item(id: Nibble, addr: Word, last: bool)
  datatype WriteItem = WriteItem(id: Nibble, addr: Word, data: Word, strb: Nibble, last: bool)

  /** The recorded write command; its address moves on with each beat. */
  datatype WriteReq = WriteReq(valid: bool, cmd: Command)

  datatype Ready = Ready(ar: bool, aw: bool, w: bool)

  datatype MemState = MemState(mem: Memory, rdQ: seq<Item>, wrQ: seq<WriteItem>, req: WriteReq,
                               ready: Ready, rvalid: bool, r: ReadOut, bvalid: bool, bid: Nibble)

  /** One coin for each delay the memory may take in a cycle. */
  datatype Delays = Delays(r: bool, b: bool, ar: bool, aw: bool, w: bool)

  const NO_READ := ReadOut(0, 0, false)

  function Initial(mem: Memory): MemState {
    MemState(mem, [], [], WriteReq(false, NO_COMMAND), Ready(false, false, false), false, NO_READ, false, 0)
  }

  const QUEUE_LIMIT := 128

  // ----- One cycle -----

  function Items(id: Nibble, slots: seq<Slot>): (r: seq<Item>)
    ensures |r| == |slots|
  {
    seq(|slots|, k requires 0 <= k < |slots| => Item(id, slots[k].addr, slots[k].last))
  }

  lemma ItemsFirst(id: Nibble, slot: Slot, rest: seq<Slot>)
    ensures Items(id, [slot] + rest) == [Item(id, slot.addr, slot.last)] + Items(id, rest)
  {
  }

  /** A read starts at the aligned address. */
  function Unrolled(c: Command): seq<Item> {
    Items(c.id, Unroll(AlignWord(c.addr), c.burst, c.len, 0))
  }

  predicate ArTaken(s: MemState, a: AxiIn) {
    a.arvalid && s.ready.ar
  }

  predicate AwTaken(s: MemState, a: AxiIn) {
    a.awvalid && s.ready.aw
  }

  predicate WTaken(s: MemState, a: AxiIn) {
    a.wvalid && s.ready.w
  }

  function Recorded(s: MemState, a: AxiIn): WriteReq {
    if AwTaken(s, a) then WriteReq(true, a.aw) else s.req
  }

  /** The memory asserts that a W beat has a command to go with. */
  predicate Asserts(s: MemState, a: AxiIn) {
    WTaken(s, a) ==> Recorded(s, a).valid
  }

  function NextReq(s: MemState, a: AxiIn): WriteReq {
    var q := Recorded(s, a);
    if WTaken(s, a) then WriteReq(!a.w.last, q.cmd.(addr := BenchNext(q.cmd.addr, q.cmd.burst, q.cmd.len))) else q
  }

  function ReadsNow(s: MemState, a: AxiIn): seq<Item> {
    s.rdQ + if ArTaken(s, a) then Unrolled(a.ar) else []
  }

  function Pushed(s: MemState, a: AxiIn): seq<WriteItem> {
    var c := Recorded(s, a).cmd;
    if WTaken(s, a) then [WriteItem(c.id, c.addr, a.w.data, a.w.strb, a.w.last)] else []
  }

  function WritesNow(s: MemState, a: AxiIn): seq<WriteItem> {
    s.wrQ + Pushed(s, a)
  }

  /** The next read is served, the next write performed. */
  predicate Serves(s: MemState, a: AxiIn, d: Delays) {
    !(s.rvalid && !a.rready) && ReadsNow(s, a) != [] && !d.r
  }

  predicate Performs(s: MemState, a: AxiIn, d: Delays) {
    !(s.bvalid && !a.bready) && WritesNow(s, a) != [] && !d.b
  }

  function Tail<T>(q: seq<T>, pop: bool): seq<T> {
    if pop && q != [] then q[1..] else q
  }

  function NextReady(queued: nat, toWrite: nat, recorded: bool, d: Delays): Ready {
    var aw := !d.aw && toWrite < QUEUE_LIMIT;
    Ready(!d.ar && queued < QUEUE_LIMIT, aw && !recorded, aw && !d.w)
  }

  function Served(m: Memory, item: Item): ReadOut {
    ReadOut(item.id, Read32(m, item.addr), item.last)
  }

  function MemNext(s: MemState, a: AxiIn, d: Delays): MemState {
    var rds, wrs := ReadsNow(s, a), WritesNow(s, a);
    var rdQ, wrQ := Tail(rds, Serves(s, a, d)), Tail(wrs, Performs(s, a, d));
    MemState(
      if Performs(s, a, d) then Write32(s.mem, wrs[0].addr, wrs[0].data, wrs[0].strb) else s.mem,
      rdQ, wrQ, NextReq(s, a), NextReady(|rdQ|, |wrQ|, NextReq(s, a).valid, d),
      Serves(s, a, d) || (s.rvalid && !a.rready),
      if Serves(s, a, d) then Served(s.mem, rds[0]) else if s.rvalid && a.rready then NO_READ else s.r,
      if Performs(s, a, d) then wrs[0].last else s.bvalid && !a.bready,
      if Performs(s, a, d) then wrs[0].id else if s.bvalid && a.bready then 0 else s.bid)
  }

  // ----- The process -----

  method DoRead32(m: Memory, a: Word) returns (data: Word)
    ensures data == Read32(m, a)
  {
    var sum: nat := 0;
    for i := 0 to 4
      invariant sum == (if i > 0 then ReadByte(m, a) else 0) + (if i > 1 then 0x100 * ReadByte(m, Offset(a, 1)) else 0)
                       + (if i > 2 then 0x1_0000 * ReadByte(m, Offset(a, 2)) else 0)
                       + (if i > 3 then 0x100_0000 * ReadByte(m, Offset(a, 3)) else 0)
    {
      sum := sum + ReadByte(m, Offset(a, i)) * Lane(i);
    }
    data := sum;
  }

  class Axi4Memory {
    var mem: Memory
    var rdQ: seq<Item>
    var wrQ: seq<WriteItem>
    var req: WriteReq
    var ready: Ready
    var rvalid: bool
    var r: ReadOut
    var bvalid: bool
    var bid: Nibble

    ghost function Abs(): MemState
      reads this
    {
      MemState(mem, rdQ, wrQ, req, ready, rvalid, r, bvalid, bid)
    }

    constructor (initial: Memory)
      ensures Abs() == Initial(initial)
    {
      mem, rdQ, wrQ, req := initial, [], [], WriteReq(false, NO_COMMAND);
      ready, rvalid, r, bvalid, bid := Ready(false, false, false), false, NO_READ, false, 0;
    }

    method DoWrite32(a: Word, data: Word, strb: Nibble)
      modifies this`mem
      ensures mem == Write32(old(mem), a, data, strb)
    {
      for i := 0 to 4
        invariant mem == WriteLanes(old(mem), a, data, strb, i)
      {
        if Strobed(strb, i) {
          mem := mem[Offset(a, i) := data / Lane(i) % 256];
        }
      }
    }

    method DoUnroll(c: Command)
      modifies this`rdQ
      ensures rdQ == old(rdQ) + Unrolled(c)
    {
      var nextAddr: Word := AlignWord(c.addr);
      for i := 0 to c.len + 1
        invariant rdQ + Items(c.id, Unroll(nextAddr, c.burst, c.len, i)) == old(rdQ) + Unrolled(c)
      {
        ItemsFirst(c.id, Slot(nextAddr, i == c.len),
                   Unroll(BenchNext(nextAddr, c.burst, c.len), c.burst, c.len, i + 1));
        rdQ := rdQ + [Item(c.id, nextAddr, i == c.len)];
        nextAddr := BenchNext(nextAddr, c.burst, c.len);
      }
    }

    /** The commands and the write data of this cycle. */
    method TakeInputs(a: AxiIn) returns (ok: bool)
      modifies this`rdQ, this`wrQ, this`req
      ensures ok == old(Asserts(Abs(), a))
      ensures ok ==> rdQ == old(ReadsNow(Abs(), a)) && wrQ == old(WritesNow(Abs(), a)) && req == old(NextReq(Abs(), a))
    {
      if a.arvalid && ready.ar {
        DoUnroll(a.ar);
      }
      if a.awvalid && ready.aw {
        req := WriteReq(true, a.aw);
      }
      ok := true;
      if a.wvalid && ready.w {
        ok := req.valid;
        if ok {
          var c := req.cmd;
          wrQ := wrQ + [WriteItem(c.id, c.addr, a.w.data, a.w.strb, a.w.last)];
          req := WriteReq(!a.w.last, c.(addr := BenchNext(c.addr, c.burst, c.len)));
        }
      }
    }

    method ServeRead(rready: bool, delay: bool)
      modifies this`rdQ, this`rvalid, this`r
      ensures var pop := !(old(rvalid) && !rready) && old(rdQ) != [] && !delay;
              && rdQ == Tail(old(rdQ), pop) && rvalid == (pop || (old(rvalid) && !rready))
              && r == if pop then Served(mem, old(rdQ)[0]) else if old(rvalid) && rready then NO_READ else old(r)
    {
      if rvalid && rready {
        rvalid, r := false, NO_READ;
      }
      if !rvalid && |rdQ| > 0 && !delay {
        var item := rdQ[0];
        rdQ := rdQ[1..];
        var data := DoRead32(mem, item.addr);
        rvalid, r := true, ReadOut(item.id, data, item.last);
      }
    }

    method PerformWrite(bready: bool, delay: bool)
      modifies this`mem, this`wrQ, this`bvalid, this`bid
      ensures var pop := !(old(bvalid) && !bready) && old(wrQ) != [] && !delay;
              && wrQ == Tail(old(wrQ), pop) && bvalid == (if pop then old(wrQ)[0].last else old(bvalid) && !bready)
              && bid == (if pop then old(wrQ)[0].id else if old(bvalid) && bready then 0 else old(bid))
              && mem == if pop then Write32(old(mem), old(wrQ)[0].addr, old(wrQ)[0].data, old(wrQ)[0].strb)
                        else old(mem)
    {
      if bvalid && bready {
        bvalid, bid := false, 0;
      }
      if !bvalid && |wrQ| > 0 && !delay {
        var item := wrQ[0];
        wrQ := wrQ[1..];
        DoWrite32(item.addr, item.data, item.strb);
        bvalid, bid := item.last, item.id;
      }
    }

    /** One turn of the process. A failed assertion ends the simulation. */
    method Process(a: AxiIn, d: Delays) returns (ok: bool)
      modifies this
      ensures ok == Asserts(old(Abs()), a)
      ensures ok ==> Abs() == MemNext(old(Abs()), a, d)
    {
      ok := TakeInputs(a);
      if ok {
        ServeRead(a.rready, d.r);
        PerformWrite(a.bready, d.b);
        ready := NextReady(|rdQ|, |wrQ|, req.valid, d);
      }
    }
  }
}
