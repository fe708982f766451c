/** The simulator's two-level page walk and permission checks, and the Sv32 translation of
    section 4.3.2 of the RISC-V privileged specification v1.11 that they implement. */
module Sv32 {
  import opened Arith
  import opened Bits
  import opened PhysicalMemory

  const PAGE: int := 4096
  const SUPERPAGE: int := 0x40_0000
  const IDX: int := 1024

  type Priv = p: int | 0 <= p <= 3
  const USER: Priv := 0
  const SUPER: Priv := 1
  const MACHINE: Priv := 3

  datatype Access = Fetch | Read | Write

  // ----- Page table entries -----

  /** Bits 0 to 4: present, read, write, execute, user. */
  function Flags(pte: Word): (r: nat)
    ensures r < 32
  {
    pte % 32
  }

  predicate Present(pte: Word) { Flags(pte) % 2 >= 1 }
  predicate Readable(pte: Word) { Flags(pte) % 4 >= 2 }
  predicate Writable(pte: Word) { Flags(pte) % 8 >= 4 }
  predicate Executable(pte: Word) { Flags(pte) % 16 >= 8 }
  predicate User(pte: Word) { Flags(pte) >= 16 }

  predicate Pointer(pte: Word) {
    !Readable(pte) && !Writable(pte) && !Executable(pte)
  }

  function Ppn(pte: Word): (r: nat)
    ensures r < 0x40_0000
  {
    pte / IDX
  }

  /** The counter of the walk. It is an unsigned 32-bit number: -1 stands for 0xFFFFFFFF, to which
      it wraps after level 0. */
  type Level = i: int | -1 <= i <= 1

  /** The index into the table of level `i`, at shift 12 + 10 * i. */
  function Vpn(va: Word, i: Level): nat {
    if i == 1 then va / SUPERPAGE else if i == 0 then va / PAGE % IDX else va / 4 % IDX
  }

  datatype Entry = Unreadable | Entry(pte: Word)

  /** `mmu_read_word` on some memory. */
  type Reader = Word -> Entry

  function ReaderOf(rs: seq<Region>): Reader
    requires Aligned(rs)
  {
    (a: Word) => var o := Load(rs, a, 4, false); if o.Halt? then Unreadable else Entry(o.value)
  }

  // ----- The simulator -----

  /** The walk yields an entry with flags, or stops the simulator, or comes to a shift by a
      negative amount, which the language leaves undefined. */
  datatype Walked = Found(pte: Word) | Halted | Runaway

  /** What the walk makes of a leaf of level `i`: the entry of the one page that is accessed. */
  function Leaf(rd: Reader, pte: Word, va: Word, i: nat): Walked
    requires i <= 1
  {
    var value := Or(Ppn(pte), if i == 1 then va / PAGE % IDX else 0) * PAGE + pte % IDX;
    if value >= TWO_32 then Halted
    else if rd(value - value % PAGE).Unreadable? then Halted
    else Found(value)
  }

  lemma EntryAligned(page: nat, index: nat)
    ensures (page * PAGE + 4 * index) % TWO_32 % 4 == 0
  {
    var x := IDX * page + index;
    var q := 4 * x / TWO_32;
    assert 4 * x % TWO_32 == 4 * (x - 0x4000_0000 * q);
    ModUnique(4 * x % TWO_32, 4, x - 0x4000_0000 * q, 0);
  }

  /** Table addresses are 32-bit sums and products. */
  function EntryAddress(base: Word, va: Word, i: Level): (a: Word)
    ensures base % PAGE == 0 ==> a % 4 == 0
  {
    EntryAligned(base / PAGE, Vpn(va, i));
    (base + 4 * Vpn(va, i)) % TWO_32
  }

  function TableBase(ppn: nat): (a: Word)
    ensures a % PAGE == 0
  {
    ppn * PAGE % TWO_32
  }

  /** From the table at `base`, of level `i`. A pointer at level 0 makes the counter wrap, and one
      more entry is read; if it is present, the shift that comes next is negative, by -10
      for a leaf and by -8 for a pointer. */
  function WalkFrom(rd: Reader, base: Word, va: Word, i: Level): Walked
    decreases i + 1
  {
    var e := rd(EntryAddress(base, va, i));
    if e.Unreadable? || !Present(e.pte) then Found(0)
    else if i == -1 then Runaway
    else if Pointer(e.pte) then WalkFrom(rd, TableBase(Ppn(e.pte)), va, i - 1)
    else Leaf(rd, e.pte, va, i)
  }

  /** SATP_MODE is bit 31, SATP_PPN the low 22 bits. */
  function WalkSatp(rd: Reader, satp: Word, va: Word): Walked
  {
    if satp < 0x8000_0000 then Found(va - va % PAGE + 15) else
    WalkFrom(rd, TableBase(satp % SUPERPAGE), va, 1)
  }

  datatype Translated = Physical(pa: Word) | PageFault | Stopped

  /** The checks of `mmu_i_translate` and `mmu_d_translate` on the entry found. */
  function Checked(pte: Word, priv: Priv, sum: bool, acc: Access, va: Word): Translated
    requires priv <= SUPER
  {
    if Writable(pte) && !Readable(pte) then PageFault
    else if priv == SUPER && User(pte) && (acc.Fetch? || !sum) then Stopped
    else if priv == USER && !User(pte) then PageFault
    else if !(match acc case Fetch => Executable(pte) case Read => Readable(pte) case Write => Writable(pte))
         then PageFault
    else Physical((pte - pte % PAGE + va % PAGE) % TWO_32)
  }

  function Translate(rd: Reader, satp: Word, priv: Priv, sum: bool, acc: Access, va: Word): Translated
  {
    if priv > SUPER then Physical(va) else
    After(WalkSatp(rd, satp, va), priv, sum, acc, va)
  }

  function After(w: Walked, priv: Priv, sum: bool, acc: Access, va: Word): Translated
    requires priv <= SUPER
  {
    match w
    case Found(pte) => Checked(pte, priv, sum, acc, va)
    case _ => Stopped
  }

  // ----- The specification -----

  datatype Mapping = Unmapped | Mapped(pte: Word, level: nat)

  /** Bit `k` of an entry, for the reference: V, R, W, X and U are bits 0 to 4. */
  predicate V(pte: Word) { pte % 2 == 1 }
  predicate R(pte: Word) { pte / 2 % 2 == 1 }
  predicate W(pte: Word) { pte / 4 % 2 == 1 }
  predicate X(pte: Word) { pte / 8 % 2 == 1 }
  predicate U(pte: Word) { pte / 16 % 2 == 1 }

  /** VPN[1] is va[31:22] and VPN[0] is va[21:12]. */
  function SpecIndex(va: Word, i: nat): (r: nat)
    ensures r < 1024
  {
    if i == 1 then va / 0x40_0000 % 1024 else va / 4096 % 1024
  }

  /** Physical addresses are 34 bits wide; nothing is mapped above 32. */
  function SpecWalk(rd: Reader, table: nat, va: Word, i: nat): (m: Mapping)
    requires i <= 1
    ensures m.Mapped? ==> m.level <= 1
    decreases i
  {
    var a := table * 4096 + SpecIndex(va, i) * 4;
    if a >= 0x1_0000_0000 then Unmapped else
    var e := rd(a);
    if e.Unreadable? || !V(e.pte) || (!R(e.pte) && W(e.pte)) then Unmapped
    else if R(e.pte) || X(e.pte) then Mapped(e.pte, i)
    else if i == 0 then Unmapped
    else SpecWalk(rd, e.pte / 1024, va, i - 1)
  }

  /** The user bit against the mode, and the bit of the access; `sum` is bit 18 of the status register. */
  predicate Allowed(pte: Word, priv: Priv, sum: bool, acc: Access) {
    && (if priv == 0 then U(pte) else U(pte) ==> sum && !acc.Fetch?)
    && match acc case Fetch => X(pte) case Read => R(pte) case Write => W(pte)
  }

  /** The simulator exits on a supervisor's access to a user page that is not enabled. */
  predicate Refused(pte: Word, priv: Priv, sum: bool, acc: Access) {
    !(W(pte) && !R(pte)) && priv == 1 && U(pte) && (acc.Fetch? || !sum)
  }

  predicate Misaligned(pte: Word, level: nat) {
    level == 1 && pte / 1024 % 1024 != 0
  }

  /** The 34-bit physical address of a leaf: PPN[1] and PPN[0], or PPN[1] and VPN[0], and the offset. */
  function SpecAddress(pte: Word, level: nat, va: Word): nat {
    if level == 1 then pte / 0x10_0000 * 0x40_0000 + va % 0x40_0000 else pte / 1024 * 4096 + va % 4096
  }

  datatype SpecResult = SpecFault | SpecAt(pa: nat)

  /** Steps 1 to 8 of the translation, without the accessed and dirty bits. */
  function SpecTranslate(rd: Reader, satp: Word, priv: Priv, sum: bool, acc: Access, va: Word): SpecResult
  {
    SpecOf(SpecWalk(rd, satp % 0x40_0000, va, 1), priv, sum, acc, va)
  }

  function SpecOf(m: Mapping, priv: Priv, sum: bool, acc: Access, va: Word): SpecResult {
    match m
    case Unmapped => SpecFault
    case Mapped(pte, level) =>
      if !Allowed(pte, priv, sum, acc) || Misaligned(pte, level) then SpecFault else SpecAt(SpecAddress(pte, level, va))
  }

  // ----- The flags and the indices are those of the reference -----

  lemma LowParts(h: nat, b0: nat, b1: nat, b2: nat, b3: nat, b4: nat)
    requires b0 <= 1 && b1 <= 1 && b2 <= 1 && b3 <= 1 && b4 <= 1
    ensures var x, low := 32 * h + 16 * b4 + 8 * b3 + 4 * b2 + 2 * b1 + b0, 16 * b4 + 8 * b3 + 4 * b2 + 2 * b1 + b0;
            && x % 32 == low && low % 2 == b0 && low % 4 == 2 * b1 + b0 && low % 8 == 4 * b2 + 2 * b1 + b0
            && low % 16 == 8 * b3 + 4 * b2 + 2 * b1 + b0
  {
    var low := 16 * b4 + 8 * b3 + 4 * b2 + 2 * b1 + b0;
    ModUnique(32 * h + low, 32, h, low);
    ModUnique(low, 2, 8 * b4 + 4 * b3 + 2 * b2 + b1, b0);
    ModUnique(low, 4, 4 * b4 + 2 * b3 + b2, 2 * b1 + b0);
    ModUnique(low, 8, 2 * b4 + b3, 4 * b2 + 2 * b1 + b0);
    ModUnique(low, 16, b4, 8 * b3 + 4 * b2 + 2 * b1 + b0);
  }

  lemma Quarters(x: nat)
    ensures x / 4 == x / 2 / 2 && x / 8 == x / 4 / 2 && x / 16 == x / 8 / 2
  {
  }

  lemma LowBits(x: nat)
    ensures x % 32 % 2 == x % 2
    ensures x % 32 % 4 == 2 * (x / 2 % 2) + x % 2
    ensures x % 32 % 8 == 4 * (x / 4 % 2) + x % 32 % 4
    ensures x % 32 % 16 == 8 * (x / 8 % 2) + x % 32 % 8
    ensures x % 32 == 16 * (x / 16 % 2) + x % 32 % 16
  {
    Quarters(x);
    LowParts(x / 16 / 2, x % 2, x / 2 % 2, x / 4 % 2, x / 8 % 2, x / 16 % 2);
  }

  lemma FlagsAre(pte: Word)
    ensures (Present(pte) <==> V(pte)) && (Readable(pte) <==> R(pte)) && (Writable(pte) <==> W(pte))
    ensures (Executable(pte) <==> X(pte)) && (User(pte) <==> U(pte)) && (Pointer(pte) <==> Points(pte))
  {
    LowBits(pte);
  }

  lemma IndexIs(va: Word, i: nat)
    requires i <= 1
    ensures Vpn(va, i) == SpecIndex(va, i)
  {
    if i == 1 {
      ModUnique(va / 0x40_0000, 1024, 0, va / 0x40_0000);
    }
  }

  // ----- What the simulator asks of the page tables -----

  /** The root table, and the second table if there is one, lie below 4 GiB. */
  predicate TablesLow(rd: Reader, satp: Word, va: Word)
  {
    satp % 0x40_0000 < 0x10_0000 &&
    var e := rd(satp % 0x40_0000 * 4096 + SpecIndex(va, 1) * 4);
    e.Entry? && V(e.pte) && Points(e.pte) ==> e.pte / 1024 < 0x10_0000
  }

  predicate Points(pte: Word) {
    !R(pte) && !W(pte) && !X(pte)
  }

  /** The entry at which a walk of two levels ends; one of level 0 may be a pointer. */
  datatype End = Missing | Last(pte: Word, level: nat)

  function EndOfWalk(rd: Reader, table: nat, va: Word, i: nat): (e: End)
    requires i <= 1
    ensures e.Last? ==> e.level <= i
    decreases i
  {
    var e := rd((table * 4096 + SpecIndex(va, i) * 4) % 0x1_0000_0000);
    if e.Unreadable? || !V(e.pte) then Missing
    else if Points(e.pte) && i == 1 then EndOfWalk(rd, e.pte / 1024, va, 0)
    else Last(e.pte, i)
  }

  // ----- When the walk stops or runs away -----

  /** The page a leaf maps `va` to, as the walk computes it: superpage bits are or-ed in. */
  function LeafPage(pte: Word, va: Word, i: nat): nat {
    Or(pte / 1024, if i == 1 then va / 4096 % 1024 else 0)
  }

  predicate OutOfRange(rd: Reader, page: nat)
  {
    page >= 0x10_0000 || rd(page * 4096).Unreadable?
  }

  lemma LeafValue(rd: Reader, pte: Word, va: Word, i: nat)
    requires i <= 1
    ensures Leaf(rd, pte, va, i) ==
            if OutOfRange(rd, LeafPage(pte, va, i)) then Halted else Found(LeafPage(pte, va, i) * PAGE + pte % IDX)
  {
    var page := LeafPage(pte, va, i);
    var value := page * PAGE + pte % IDX;
    ModUnique(value, PAGE, page, pte % IDX);
  }

  /** The entry read past a last-level pointer, with bits 2 to 11 of the address for its index,
      is there and present. */
  predicate RunsOn(rd: Reader, pointer: Word, va: Word) {
    var e := rd((pointer / 1024 * 4096 + va / 4 % 1024 * 4) % 0x1_0000_0000);
    e.Entry? && V(e.pte)
  }

  function EndsAs(rd: Reader, e: End, va: Word): Walked
    requires e.Last? ==> e.level <= 1
  {
    if e.Missing? then Found(0)
    else if Points(e.pte) then if RunsOn(rd, e.pte, va) then Runaway else Found(0)
    else Leaf(rd, e.pte, va, e.level)
  }

  lemma AddressIs(table: nat, va: Word, i: Level)
    ensures EntryAddress(TableBase(table), va, i)
         == (table * 4096 + (if i == -1 then va / 4 % 1024 else SpecIndex(va, i)) * 4) % 0x1_0000_0000
  {
    ModShift(table * 4096, 4 * Vpn(va, i), TWO_32);
    if i >= 0 {
      IndexIs(va, i);
    }
  }

  lemma WrappedEnds(rd: Reader, pointer: Word, va: Word)
    ensures WalkFrom(rd, TableBase(Ppn(pointer)), va, -1) == if RunsOn(rd, pointer, va) then Runaway else Found(0)
  {
    AddressIs(Ppn(pointer), va, -1);
    var e := rd(EntryAddress(TableBase(Ppn(pointer)), va, -1));
    if e.Entry? {
      FlagsAre(e.pte);
    }
  }

  lemma {:induction false} WalkEnds(rd: Reader, table: nat, va: Word, i: nat)
    requires i <= 1
    ensures var e := EndOfWalk(rd, table, va, i);
            WalkFrom(rd, TableBase(table), va, i) == EndsAs(rd, e, va)
    decreases i
  {
    AddressIs(table, va, i);
    var e := rd(EntryAddress(TableBase(table), va, i));
    if e.Entry? {
      FlagsAre(e.pte);
      if Present(e.pte) && Pointer(e.pte) {
        if i == 1 {
          WalkEnds(rd, Ppn(e.pte), va, 0);
        } else {
          WrappedEnds(rd, e.pte, va);
        }
      }
    }
  }

  /** With translation on, the walk runs away if and only if it comes to a last-level pointer and
      the entry at the wrapped index beyond it is readable and present, and stops the simulator
      if and only if it ends at a leaf whose page is not in memory. Otherwise it terminates. */
  lemma WalkOutcomeIff(rd: Reader, satp: Word, va: Word)
    requires satp >= 0x8000_0000
    ensures var e := EndOfWalk(rd, satp % 0x40_0000, va, 1);
            && (WalkSatp(rd, satp, va).Runaway? <==> e.Last? && Points(e.pte) && RunsOn(rd, e.pte, va))
            && (WalkSatp(rd, satp, va).Halted? <==>
                e.Last? && !Points(e.pte) && OutOfRange(rd, LeafPage(e.pte, va, e.level)))
  {
    WalkEnds(rd, satp % 0x40_0000, va, 1);
    var e := EndOfWalk(rd, satp % 0x40_0000, va, 1);
    if e.Last? {
      LeafValue(rd, e.pte, va, e.level);
    }
  }

  // ----- The walk is the specification's -----

  function MappingOf(e: End): Mapping {
    if e.Missing? || Points(e.pte) || (W(e.pte) && !R(e.pte)) then Unmapped else Mapped(e.pte, e.level)
  }

  function SpecEntry(table: nat, va: Word, i: nat): nat {
    table * 4096 + SpecIndex(va, i) * 4
  }

  lemma SpecEntryFits(table: nat, va: Word, i: nat)
    requires table < 0x10_0000
    ensures SpecEntry(table, va, i) < 0x1_0000_0000
    ensures SpecEntry(table, va, i) % 0x1_0000_0000 == SpecEntry(table, va, i)
  {
    ModOnce(SpecEntry(table, va, i), 0x1_0000_0000);
  }

  lemma LastEnds(rd: Reader, table: nat, va: Word)
    requires table < 0x10_0000
    ensures SpecWalk(rd, table, va, 0) == MappingOf(EndOfWalk(rd, table, va, 0))
  {
    SpecEntryFits(table, va, 0);
  }

  lemma SpecEnds(rd: Reader, table: nat, va: Word)
    requires table < 0x10_0000
    requires var e := rd(table * 4096 + SpecIndex(va, 1) * 4);
             e.Entry? && V(e.pte) && Points(e.pte) ==> e.pte / 1024 < 0x10_0000
    ensures SpecWalk(rd, table, va, 1) == MappingOf(EndOfWalk(rd, table, va, 1))
  {
    SpecEntryFits(table, va, 1);
    var e := rd(SpecEntry(table, va, 1));
    if e.Entry? && V(e.pte) && Points(e.pte) {
      LastEnds(rd, e.pte / 1024, va);
    }
  }

  /** The flags of the entry the walk yields are those of the leaf. */
  lemma SameFlags(page: nat, pte: Word)
    requires page < 0x10_0000
    ensures var v: Word := page * PAGE + pte % IDX; Flags(v) == Flags(pte) && v - v % PAGE == page * PAGE
  {
    LowFlags(4 * page, pte % IDX);
    LowFlags(pte / IDX, pte % IDX);
  }

  lemma LowFlags(q: nat, f: nat)
    ensures (IDX * q + f) % 32 == f % 32
  {
  }

  lemma CheckedLeaf(page: nat, pte: Word, priv: Priv, sum: bool, acc: Access, va: Word)
    requires page < 0x10_0000 && priv <= SUPER
    ensures var c := Checked(page * PAGE + pte % IDX, priv, sum, acc, va);
            && (c.Physical? <==> Allowed(pte, priv, sum, acc) && !(W(pte) && !R(pte)))
            && (c.Physical? ==> c.pa == page * PAGE + va % PAGE)
            && (c.Stopped? <==> Refused(pte, priv, sum, acc))
  {
    SameFlags(page, pte);
    FlagsAre(pte);
  }

  lemma SplitPpn(pte: Word)
    ensures pte / 1024 == 1024 * (pte / 0x10_0000) + pte / 1024 % 1024
  {
  }

  lemma SplitOffset(va: Word)
    ensures va % 0x40_0000 == 4096 * (va / 4096 % 1024) + va % 4096
  {
    var q, r := va / 4096, va % 4096;
    ModUnique(va, 0x40_0000, q / 1024, 4096 * (q % 1024) + r);
  }

  /** A leaf's page and the address it gives, when its superpage is aligned. */
  lemma AlignedLeaf(pte: Word, va: Word, i: nat)
    requires i <= 1 && !Misaligned(pte, i)
    ensures LeafPage(pte, va, i) * PAGE + va % PAGE == SpecAddress(pte, i, va)
  {
    if i == 1 {
      assert Pow2(10) == 1024;
      OrAdd(pte / 1024, va / 4096 % 1024, 10);
      SplitOffset(va);
      SplitPpn(pte);
    } else {
      OrZero(pte / 1024);
    }
  }

  predicate Agree(t: Translated, s: SpecResult) {
    match t case Physical(pa) => s == SpecAt(pa) case PageFault => s.SpecFault? case Stopped => false
  }

  lemma ZeroFaults(priv: Priv, sum: bool, acc: Access, va: Word)
    requires priv <= SUPER
    ensures Checked(0, priv, sum, acc, va).PageFault?
  {
  }

  lemma LeafThen(rd: Reader, pte: Word, va: Word, i: nat, priv: Priv, sum: bool, acc: Access)
    requires priv <= SUPER && i <= 1
    ensures var c := After(Leaf(rd, pte, va, i), priv, sum, acc, va);
            && (c.Physical? <==> !OutOfRange(rd, LeafPage(pte, va, i)) && Allowed(pte, priv, sum, acc)
                                 && !(W(pte) && !R(pte)))
            && (c.Physical? ==> c.pa == LeafPage(pte, va, i) * PAGE + va % PAGE)
            && (c.Stopped? <==> OutOfRange(rd, LeafPage(pte, va, i)) || Refused(pte, priv, sum, acc))
  {
    LeafValue(rd, pte, va, i);
    if !OutOfRange(rd, LeafPage(pte, va, i)) {
      CheckedLeaf(LeafPage(pte, va, i), pte, priv, sum, acc, va);
    }
  }

  /** An access that Sv32 faults and the simulator lets through. */
  predicate LetThrough(e: End, priv: Priv, sum: bool, acc: Access) {
    e.Last? && Misaligned(e.pte, e.level) && Allowed(e.pte, priv, sum, acc) && !(W(e.pte) && !R(e.pte))
  }

  /** The simulator exits, or is in undefined territory. */
  predicate Stops(rd: Reader, e: End, priv: Priv, sum: bool, acc: Access, va: Word) {
    e.Last? && if Points(e.pte) then RunsOn(rd, e.pte, va)
               else OutOfRange(rd, LeafPage(e.pte, va, e.level)) || Refused(e.pte, priv, sum, acc)
  }

  lemma EndStopsIff(rd: Reader, e: End, priv: Priv, sum: bool, acc: Access, va: Word)
    requires priv <= SUPER && (e.Last? ==> e.level <= 1)
    ensures After(EndsAs(rd, e, va), priv, sum, acc, va).Stopped? <==> Stops(rd, e, priv, sum, acc, va)
  {
    ZeroFaults(priv, sum, acc, va);
    if e.Last? && !Points(e.pte) {
      LeafThen(rd, e.pte, va, e.level, priv, sum, acc);
    }
  }

  /** With translation on, exactly when an access stops the simulator. */
  lemma TranslateStopsIff(rd: Reader, satp: Word, priv: Priv, sum: bool, acc: Access, va: Word)
    requires satp >= 0x8000_0000 && priv <= SUPER
    ensures Translate(rd, satp, priv, sum, acc, va).Stopped?
            <==> Stops(rd, EndOfWalk(rd, satp % 0x40_0000, va, 1), priv, sum, acc, va)
  {
    TranslateIs(rd, satp, priv, sum, acc, va);
    EndStopsIff(rd, EndOfWalk(rd, satp % 0x40_0000, va, 1), priv, sum, acc, va);
  }

  lemma AlignedAgrees(rd: Reader, pte: Word, va: Word, i: nat, priv: Priv, sum: bool, acc: Access)
    requires priv <= SUPER && i <= 1 && !Misaligned(pte, i) && !Points(pte)
    requires !OutOfRange(rd, LeafPage(pte, va, i)) && !Refused(pte, priv, sum, acc)
    ensures Agree(After(Leaf(rd, pte, va, i), priv, sum, acc, va), SpecOf(MappingOf(Last(pte, i)), priv, sum, acc, va))
  {
    LeafThen(rd, pte, va, i, priv, sum, acc);
    AlignedLeaf(pte, va, i);
  }

  lemma MisalignedAgreesIff(rd: Reader, pte: Word, va: Word, i: nat, priv: Priv, sum: bool, acc: Access)
    requires priv <= SUPER && i <= 1 && Misaligned(pte, i) && !Points(pte)
    requires !OutOfRange(rd, LeafPage(pte, va, i)) && !Refused(pte, priv, sum, acc)
    ensures Agree(After(Leaf(rd, pte, va, i), priv, sum, acc, va), SpecOf(MappingOf(Last(pte, i)), priv, sum, acc, va))
            <==> !LetThrough(Last(pte, i), priv, sum, acc)
  {
    LeafThen(rd, pte, va, i, priv, sum, acc);
  }

  lemma EndAgreesIff(rd: Reader, e: End, priv: Priv, sum: bool, acc: Access, va: Word)
    requires priv <= SUPER && (e.Last? ==> e.level <= 1) && !Stops(rd, e, priv, sum, acc, va)
    ensures Agree(After(EndsAs(rd, e, va), priv, sum, acc, va), SpecOf(MappingOf(e), priv, sum, acc, va))
            <==> !LetThrough(e, priv, sum, acc)
  {
    if e.Missing? || Points(e.pte) {
      ZeroFaults(priv, sum, acc, va);
    } else if Misaligned(e.pte, e.level) {
      MisalignedAgreesIff(rd, e.pte, va, e.level, priv, sum, acc);
    } else {
      AlignedAgrees(rd, e.pte, va, e.level, priv, sum, acc);
    }
  }

  lemma TranslateIs(rd: Reader, satp: Word, priv: Priv, sum: bool, acc: Access, va: Word)
    requires satp >= 0x8000_0000 && priv <= SUPER
    ensures Translate(rd, satp, priv, sum, acc, va)
         == After(EndsAs(rd, EndOfWalk(rd, satp % 0x40_0000, va, 1), va), priv, sum, acc, va)
  {
    WalkEnds(rd, satp % 0x40_0000, va, 1);
  }

  lemma SpecIs(rd: Reader, satp: Word, priv: Priv, sum: bool, acc: Access, va: Word)
    requires TablesLow(rd, satp, va)
    ensures SpecTranslate(rd, satp, priv, sum, acc, va)
         == SpecOf(MappingOf(EndOfWalk(rd, satp % 0x40_0000, va, 1)), priv, sum, acc, va)
  {
    SpecEnds(rd, satp % 0x40_0000, va);
  }

  /** With tables below 4 GiB, an access is translated or faulted as Sv32 says if and only if it
      does not stop the simulator and is not one that a misaligned superpage allows, which Sv32
      faults and the simulator lets through. */
  lemma TranslateAgreesIff(rd: Reader, satp: Word, priv: Priv, sum: bool, acc: Access, va: Word)
    requires satp >= 0x8000_0000 && priv <= SUPER && TablesLow(rd, satp, va)
    ensures var e := EndOfWalk(rd, satp % 0x40_0000, va, 1);
            Agree(Translate(rd, satp, priv, sum, acc, va), SpecTranslate(rd, satp, priv, sum, acc, va))
            <==> !Stops(rd, e, priv, sum, acc, va) && !LetThrough(e, priv, sum, acc)
  {
    var e := EndOfWalk(rd, satp % 0x40_0000, va, 1);
    TranslateIs(rd, satp, priv, sum, acc, va);
    SpecIs(rd, satp, priv, sum, acc, va);
    EndStopsIff(rd, e, priv, sum, acc, va);
    if !Stops(rd, e, priv, sum, acc, va) {
      EndAgreesIff(rd, e, priv, sum, acc, va);
    }
  }

  /** Where the simulator stops, Sv32 has an answer: it faults, unless the walk came to an aligned
      leaf that allows the access and whose page is not in memory. */
  lemma StoppedSpec(rd: Reader, satp: Word, priv: Priv, sum: bool, acc: Access, va: Word)
    requires satp >= 0x8000_0000 && priv <= SUPER && TablesLow(rd, satp, va)
    requires var e := EndOfWalk(rd, satp % 0x40_0000, va, 1); Stops(rd, e, priv, sum, acc, va)
    ensures var e := EndOfWalk(rd, satp % 0x40_0000, va, 1);
            var at := !Points(e.pte) && OutOfRange(rd, LeafPage(e.pte, va, e.level)) && Allowed(e.pte, priv, sum, acc)
                      && !(W(e.pte) && !R(e.pte)) && !Misaligned(e.pte, e.level);
            SpecTranslate(rd, satp, priv, sum, acc, va) ==
            if at then SpecAt(SpecAddress(e.pte, e.level, va)) else SpecFault
  {
    SpecIs(rd, satp, priv, sum, acc, va);
  }

  /** A successful access was allowed by the leaf it ended at, and keeps its offset in the page. */
  lemma SuccessMeansAllowed(rd: Reader, satp: Word, priv: Priv, sum: bool, acc: Access, va: Word)
    requires satp >= 0x8000_0000 && priv <= SUPER && Translate(rd, satp, priv, sum, acc, va).Physical?
    ensures var e := EndOfWalk(rd, satp % 0x40_0000, va, 1);
            && e.Last? && V(e.pte) && Allowed(e.pte, priv, sum, acc)
            && Translate(rd, satp, priv, sum, acc, va).pa == LeafPage(e.pte, va, e.level) * PAGE + va % PAGE
  {
    var e := EndOfWalk(rd, satp % 0x40_0000, va, 1);
    WalkEnds(rd, satp % 0x40_0000, va, 1);
    EndPresent(rd, satp % 0x40_0000, va, 1);
    ZeroFaults(priv, sum, acc, va);
    if e.Last? && !Points(e.pte) {
      LeafThen(rd, e.pte, va, e.level, priv, sum, acc);
    }
  }

  lemma {:induction false} EndPresent(rd: Reader, table: nat, va: Word, i: nat)
    requires i <= 1
    ensures var e := EndOfWalk(rd, table, va, i); e.Last? ==> V(e.pte)
    decreases i
  {
    var e := rd((table * PAGE + 4 * Vpn(va, i)) % TWO_32);
    if i == 1 && e.Entry? && V(e.pte) && Points(e.pte) {
      EndPresent(rd, Ppn(e.pte), va, 0);
    }
  }

  /** With translation off, an address is its own translation except in user mode, where every
      access faults: the entry the walk makes up has no user flag. */
  lemma BareAgreesIff(rd: Reader, satp: Word, priv: Priv, sum: bool, acc: Access, va: Word)
    requires satp < 0x8000_0000
    ensures Translate(rd, satp, priv, sum, acc, va) == Physical(va) <==> priv != USER
    ensures priv == USER ==> Translate(rd, satp, priv, sum, acc, va).PageFault?
  {
    var page := va / PAGE;
    assert va - va % PAGE + 15 == page * PAGE + 15 % IDX;
    if priv <= SUPER {
      CheckedLeaf(page, 15, priv, sum, acc, va);
    }
  }

  /** In machine mode, and in the unused mode below it, nothing is translated. */
  lemma MachineIsBare(rd: Reader, satp: Word, priv: Priv, sum: bool, acc: Access, va: Word)
    ensures priv >= 2 ==> Translate(rd, satp, priv, sum, acc, va) == Physical(va)
  {
  }

  // ----- The exceptions exist -----

  /** Two pages of memory at zero, the first a page table with one entry. */
  function OneEntry(pte: Word): (rs: seq<Region>)
    ensures Aligned(rs)
  {
    [Region(0, 8192, [pte] + seq(2047, k => 0))]
  }

  lemma OneEntryReads(pte: Word, a: Word)
    requires a % 4 == 0 && a < 8192
    ensures ReaderOf(OneEntry(pte))(a) == Entry(if a == 0 then pte else 0)
  {
    var rs := OneEntry(pte);
    assert Contains(rs[0], a);
    assert Find(rs, a, 0) == 0;
  }

  lemma RootLeaf(rd: Reader)
    requires rd(0) == Entry(1027)
    ensures EndOfWalk(rd, 0, 0, 1) == Last(1027, 1) && LeafPage(1027, 0, 1) == 1
    ensures Allowed(1027, SUPER, false, Read) && !W(1027) && !Points(1027) && Misaligned(1027, 1)
  {
    OrZero(1);
  }

  /** A superpage that starts at page 1 is let through. */
  lemma SuperpageAtOne(rd: Reader)
    requires rd(0) == Entry(1027) && rd(4096).Entry?
    ensures Translate(rd, 0x8000_0000, SUPER, false, Read, 0) == Physical(4096)
    ensures SpecTranslate(rd, 0x8000_0000, SUPER, false, Read, 0).SpecFault?
  {
    RootLeaf(rd);
    var e := Last(1027, 1);
    WalkEnds(rd, 0, 0, 1);
    SpecEnds(rd, 0, 0);
    LeafThen(rd, 1027, 0, 1, SUPER, false, Read);
    assert SpecOf(MappingOf(e), SUPER, false, Read, 0).SpecFault?;
  }

  lemma MisalignedLetThrough()
    ensures var rd := ReaderOf(OneEntry(1027));
            && Translate(rd, 0x8000_0000, SUPER, false, Read, 0) == Physical(4096)
            && SpecTranslate(rd, 0x8000_0000, SUPER, false, Read, 0).SpecFault?
  {
    OneEntryReads(1027, 0);
    OneEntryReads(1027, 4096);
    SuperpageAtOne(ReaderOf(OneEntry(1027)));
  }

  lemma SelfPointerEnds(rd: Reader, va: Word)
    requires rd(0) == Entry(1) && va < 4096
    ensures EndOfWalk(rd, 0, va, 1) == Last(1, 0)
  {
    assert SpecIndex(va, 0) == 0 && SpecIndex(va, 1) == 0;
    assert V(1) && Points(1);
    assert EndOfWalk(rd, 0, va, 0) == Last(1, 0);
  }

  lemma RunsAway(rd: Reader)
    requires rd(0) == Entry(1)
    ensures WalkSatp(rd, 0x8000_0000, 0).Runaway?
  {
    SelfPointerEnds(rd, 0);
    WalkEnds(rd, 0, 0, 1);
  }

  /** A table that points to itself makes the walk run away at address 0, where the wrapped index
      meets the same entry again. */
  lemma SelfPointerRunsAway()
    ensures WalkSatp(ReaderOf(OneEntry(1)), 0x8000_0000, 0).Runaway?
  {
    OneEntryReads(1, 0);
    RunsAway(ReaderOf(OneEntry(1)));
  }

  lemma ComesToNothing(rd: Reader)
    requires rd(0) == Entry(1) && rd(4) == Entry(0)
    ensures WalkSatp(rd, 0x8000_0000, 4) == Found(0)
  {
    SelfPointerEnds(rd, 4);
    WalkEnds(rd, 0, 4, 1);
  }

  /** At address 4 it does not: the wrapped index meets an empty entry, and the access faults. */
  lemma SelfPointerFaults()
    ensures Translate(ReaderOf(OneEntry(1)), 0x8000_0000, SUPER, false, Read, 4).PageFault?
  {
    OneEntryReads(1, 0);
    OneEntryReads(1, 4);
    ComesToNothing(ReaderOf(OneEntry(1)));
    ZeroFaults(SUPER, false, Read, 4);
  }

  lemma UserLeaf(rd: Reader)
    requires rd(0) == Entry(19)
    ensures EndOfWalk(rd, 0, 0, 1) == Last(19, 1) && Refused(19, SUPER, false, Read) && !Points(19)
    ensures !Allowed(19, SUPER, false, Read)
  {
  }

  lemma UserPageStops(rd: Reader)
    requires rd(0) == Entry(19)
    ensures Translate(rd, 0x8000_0000, SUPER, false, Read, 0).Stopped?
    ensures SpecTranslate(rd, 0x8000_0000, SUPER, false, Read, 0).SpecFault?
  {
    UserLeaf(rd);
    assert TablesLow(rd, 0x8000_0000, 0);
    TranslateStopsIff(rd, 0x8000_0000, SUPER, false, Read, 0);
    SpecIs(rd, 0x8000_0000, SUPER, false, Read, 0);
  }

  /** A supervisor reading a user page without SUM: the simulator exits where Sv32 faults. */
  lemma SupervisorStops()
    ensures var rd := ReaderOf(OneEntry(19));
            && Translate(rd, 0x8000_0000, SUPER, false, Read, 0).Stopped?
            && SpecTranslate(rd, 0x8000_0000, SUPER, false, Read, 0).SpecFault?
  {
    OneEntryReads(19, 0);
    UserPageStops(ReaderOf(OneEntry(19)));
  }
}
