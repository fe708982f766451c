/** The privileged part of the instruction-set simulator: traps, returns, interrupts, and loads and
    stores through the page tables. `error()` and a failed assertion end the simulation. */
module Hart {
  import opened Bits
  import opened PhysicalMemory
  import opened SimpleMemories
  import opened Sv32
  import Arith

  /** A 32-bit register by its bits. */
  type Bits32 = s: seq<bool> | |s| == 32 witness seq(32, _ => false)

  const SIE := 1
  const MIE := 3
  const SPIE := 5
  const MPIE := 7
  const SPP := 8
  const MPP := 11  // two bits
  const SUM := 18

  const IRQ_MIN := 1
  const IRQ_MAX := 12
  const INTERRUPT: Word := 0x8000_0000
  const PAGE_FAULT_INST: Word := 12
  const PAGE_FAULT_LOAD: Word := 13
  const PAGE_FAULT_STORE: Word := 15

  datatype HartState = HartState(pc: Word, mpriv: Priv, msr: Bits32, mideleg: Bits32, medeleg: Bits32,
                                 mie: Bits32, mip: Bits32, mepc: Word, mcause: Word, mevec: Word,
                                 sepc: Word, scause: Word, stval: Word, sevec: Word, satp: Word, mem: seq<Region>)

  // ----- Traps -----

  /** Causes fit the delegation registers. */
  predicate Cause(cause: Word) {
    cause % INTERRUPT < 32
  }

  /** The trap is delegated, and did not come from machine mode. */
  predicate ToSuper(s: HartState, cause: Word)
    requires Cause(cause)
  {
    s.mpriv <= SUPER && (if cause >= INTERRUPT then s.mideleg else s.medeleg)[cause % INTERRUPT]
  }

  function GetMpp(msr: Bits32): Priv {
    (if msr[MPP] then 1 else 0) + (if msr[MPP + 1] then 2 else 0)
  }

  function SetMpp(msr: Bits32, p: Priv): Bits32 {
    msr[MPP := p % 2 == 1][MPP + 1 := p >= 2]
  }

  function Trap(s: HartState, cause: Word, pc: Word, bad: Word): HartState
    requires Cause(cause)
  {
    if ToSuper(s, cause) then EnterSuper(s, cause, pc, bad) else EnterMachine(s, cause, pc)
  }

  function EnterSuper(s: HartState, cause: Word, pc: Word, bad: Word): HartState {
    s.(msr := s.msr[SPIE := s.msr[SIE]][SIE := false][SPP := s.mpriv == SUPER], mpriv := SUPER,
       sepc := pc, scause := cause, stval := bad, pc := s.sevec)
  }

  /** There is no register for the bad address here. */
  function EnterMachine(s: HartState, cause: Word, pc: Word): HartState {
    s.(msr := SetMpp(s.msr[MPIE := s.msr[MIE]][MIE := false], s.mpriv), mpriv := MACHINE,
       mepc := pc, mcause := cause, pc := s.mevec)
  }

  // ----- Returns -----

  function Mret(s: HartState): Outcome<HartState> {
    if s.mpriv != MACHINE then Halt else
    Done(s.(msr := SetMpp(s.msr[MIE := s.msr[MPIE]][MPIE := true], USER), mpriv := GetMpp(s.msr), pc := s.mepc))
  }

  function Sret(s: HartState): Outcome<HartState> {
    if s.mpriv != SUPER then Halt else
    Done(s.(msr := s.msr[SIE := s.msr[SPIE]][SPIE := true][SPP := false],
            mpriv := if s.msr[SPP] then SUPER else USER, pc := s.sepc))
  }

  // ----- Interrupts -----

  predicate MachineEnabled(s: HartState) {
    s.mpriv < MACHINE || s.msr[MIE]
  }

  predicate SuperEnabled(s: HartState) {
    s.mpriv < SUPER || (s.mpriv == SUPER && s.msr[SIE])
  }

  predicate ForMachine(s: HartState, i: nat)
    requires i < 32
  {
    s.mip[i] && s.mie[i] && !s.mideleg[i] && MachineEnabled(s)
  }

  predicate ForSuper(s: HartState, i: nat)
    requires i < 32
  {
    s.mip[i] && s.mie[i] && s.mideleg[i] && SuperEnabled(s)
  }

  predicate AnyForMachine(s: HartState) {
    exists i :: 0 <= i < 32 && ForMachine(s, i)
  }

  /** Interrupts for machine mode hide those for supervisor mode. */
  predicate Offered(s: HartState, i: nat)
    requires i < 32
  {
    if AnyForMachine(s) then ForMachine(s, i) else ForSuper(s, i)
  }

  /** The lowest-numbered one on offer from `i` on, or IRQ_MAX. */
  function FirstOffered(s: HartState, i: nat): (r: nat)
    requires i <= IRQ_MAX
    ensures i <= r <= IRQ_MAX && (r < IRQ_MAX ==> Offered(s, r)) && forall k :: i <= k < r ==> !Offered(s, k)
    decreases IRQ_MAX - i
  {
    if i == IRQ_MAX || Offered(s, i) then i else FirstOffered(s, i + 1)
  }

  /** After an instruction that did not trap, with `s.pc` the next one. */
  function Poll(s: HartState): HartState {
    var i := FirstOffered(s, IRQ_MIN);
    if i < IRQ_MAX then Trap(s, INTERRUPT + i, s.pc, 0) else s
  }

  // ----- Memory -----

  datatype Accessed = Faulted(s: HartState) | At(pa: Word)

  /** An access that faults traps with the cause of its kind. */
  function FaultCause(acc: Access): Word {
    match acc case Fetch => PAGE_FAULT_INST case Read => PAGE_FAULT_LOAD case Write => PAGE_FAULT_STORE
  }

  function Reach(s: HartState, acc: Access, pc: Word, va: Word): Outcome<Accessed>
    requires Aligned(s.mem)
  {
    match Translate(ReaderOf(s.mem), s.satp, s.mpriv, s.msr[SUM], acc, va)
    case Physical(pa) => Done(At(pa))
    case PageFault => Done(Faulted(Trap(s, FaultCause(acc), pc, va)))
    case Stopped => Halt
  }

  /** A store is done, or faults; the memory changes only if it is done. */
  function StoreVirtual(s: HartState, pc: Word, va: Word, data: Word, w: Width): Outcome<HartState>
    requires Aligned(s.mem)
  {
    match Reach(s, Access.Write, pc, va)
    case Halt => Halt
    case Done(Faulted(t)) => Done(t)
    case Done(At(pa)) =>
      var m := Store(s.mem, pa, data, w);
      if m.Halt? then Halt else Done(s.(mem := m.value))
  }

  datatype Loaded = LoadFault(s: HartState) | Value(x: Word)

  function LoadVirtual(s: HartState, pc: Word, va: Word, w: Width, signed: bool): Outcome<Loaded>
    requires Aligned(s.mem)
  {
    match Reach(s, Access.Read, pc, va)
    case Halt => Halt
    case Done(Faulted(t)) => Done(LoadFault(t))
    case Done(At(pa)) =>
      var x := Load(s.mem, pa, w, signed);
      if x.Halt? then Halt else Done(Value(x.value))
  }

  // ----- The object -----

  class Riscv {
    var pc: Word
    var mpriv: Priv
    var msr: Bits32
    var mideleg: Bits32
    var medeleg: Bits32
    var mie: Bits32
    var mip: Bits32
    var mepc: Word
    var mcause: Word
    var mevec: Word
    var sepc: Word
    var scause: Word
    var stval: Word
    var sevec: Word
    var satp: Word
    var mem: seq<Region>

    ghost function Abs(): HartState
      reads this
    {
      HartState(pc, mpriv, msr, mideleg, medeleg, mie, mip, mepc, mcause, mevec, sepc, scause, stval, sevec, satp, mem)
    }

    ghost predicate Valid()
      reads this
    {
      Aligned(mem)
    }

    method Exception(cause: Word, epc: Word, badaddr: Word)
      requires Cause(cause)
      modifies this
      ensures Abs() == Trap(old(Abs()), cause, epc, badaddr)
    {
      var deleg := if cause >= INTERRUPT then mideleg else medeleg;
      if mpriv <= SUPER && deleg[cause % INTERRUPT] {
        RaiseToSuper(cause, epc, badaddr);
      } else {
        RaiseToMachine(cause, epc);
      }
    }

    method RaiseToSuper(cause: Word, epc: Word, badaddr: Word)
      modifies this
      ensures Abs() == EnterSuper(old(Abs()), cause, epc, badaddr)
    {
      msr := msr[SPIE := msr[SIE]][SIE := false][SPP := mpriv == SUPER];
      mpriv := SUPER;
      sepc, scause, stval := epc, cause, badaddr;
      pc := sevec;
    }

    method RaiseToMachine(cause: Word, epc: Word)
      modifies this
      ensures Abs() == EnterMachine(old(Abs()), cause, epc)
    {
      msr := SetMpp(msr[MPIE := msr[MIE]][MIE := false], mpriv);
      mpriv := MACHINE;
      mepc, mcause := epc, cause;
      pc := mevec;
    }

    method DoMret() returns (ok: bool)
      modifies this
      ensures if ok then Mret(old(Abs())) == Done(Abs()) else Mret(old(Abs())).Halt? && Abs() == old(Abs())
    {
      ok := mpriv == MACHINE;
      if ok {
        var prev := GetMpp(msr);
        msr := SetMpp(msr[MIE := msr[MPIE]][MPIE := true], USER);
        mpriv := prev;
        pc := mepc;
      }
    }

    method DoSret() returns (ok: bool)
      modifies this
      ensures if ok then Sret(old(Abs())) == Done(Abs()) else Sret(old(Abs())).Halt? && Abs() == old(Abs())
    {
      ok := mpriv == SUPER;
      if ok {
        var prev := if msr[SPP] then SUPER else USER;
        msr := msr[SIE := msr[SPIE]][SPIE := true][SPP := false];
        mpriv := prev;
        pc := sepc;
      }
    }

    method CheckInterrupts() returns (taken: bool)
      modifies this
      ensures Abs() == Poll(old(Abs())) && taken == (FirstOffered(old(Abs()), IRQ_MIN) < IRQ_MAX)
    {
      var mEnabled := mpriv < MACHINE || (mpriv == MACHINE && msr[MIE]);
      var sEnabled := mpriv < SUPER || (mpriv == SUPER && msr[SIE]);
      var anyM := false;
      for i := 0 to 32
        invariant anyM <==> exists k :: 0 <= k < i && ForMachine(Abs(), k)
      {
        if mip[i] && mie[i] && !mideleg[i] && mEnabled {
          assert ForMachine(Abs(), i);
          anyM := true;
        }
      }
      var i := IRQ_MIN;
      while i < IRQ_MAX && !(mip[i] && mie[i] && if anyM then !mideleg[i] && mEnabled else mideleg[i] && sEnabled)
        invariant IRQ_MIN <= i <= IRQ_MAX && FirstOffered(Abs(), IRQ_MIN) == FirstOffered(Abs(), i)
      {
        i := i + 1;
      }
      taken := i < IRQ_MAX;
      if taken {
        Exception(INTERRUPT + i, pc, 0);
      }
    }

    method FindRegion(a: Word) returns (j: nat)
      ensures j == Find(mem, a, 0)
    {
      j := 0;
      while j < |mem| && !(a >= mem[j].base && a < (mem[j].base + mem[j].size) % TWO_32)
        invariant j <= |mem| && Find(mem, a, 0) == Find(mem, a, j)
      {
        j := j + 1;
      }
    }

    method ReadWord(a: Word) returns (e: Entry)
      requires Valid() && a % 4 == 0
      ensures e == ReaderOf(mem)(a)
    {
      var j := FindRegion(a);
      if j == |mem| {
        return Unreadable;
      }
      InRegion(mem[j], a);
      return Entry(mem[j].words[(a - mem[j].base) / 4]);
    }

    /** The page of a leaf must be in memory. */
    method MmuLeaf(pte: Word, addr: Word, i: nat) returns (w: Walked)
      requires Valid() && i <= 1
      ensures w == Leaf(ReaderOf(mem), pte, addr, i)
    {
      var page := Arith.Or(Ppn(pte), if i == 1 then addr / PAGE % IDX else 0);
      var value := page * PAGE + pte % IDX;
      if value >= TWO_32 {
        return Halted;
      }
      PageAligned(value);
      var target := ReadWord(value - value % PAGE);
      w := if target.Unreadable? then Halted else Found(value);
    }

    /** The counter is unsigned, so a pointer at level 0 sends it round instead of ending the loop. */
    method MmuWalk(addr: Word) returns (w: Walked)
      requires Valid()
      ensures w == WalkSatp(ReaderOf(mem), satp, addr)
    {
      if satp < 0x8000_0000 {
        return Found(addr - addr % PAGE + 15);
      }
      ghost var rd := ReaderOf(mem);
      var base: Word := TableBase(satp % SUPERPAGE);
      var i: Level := 1;
      while true
        invariant base % PAGE == 0 && WalkFrom(rd, base, addr, i) == WalkSatp(rd, satp, addr)
        decreases i + 1
      {
        var e := ReadWord(EntryAddress(base, addr, i));
        if e.Unreadable? || !Present(e.pte) {
          return Found(0);
        } else if i == -1 {
          return Runaway;
        } else if !Pointer(e.pte) {
          w := MmuLeaf(e.pte, addr, i);
          return;
        }
        base, i := TableBase(Ppn(e.pte)), i - 1;
      }
    }

    /** The checks of `mmu_i_translate` and `mmu_d_translate`. */
    method MmuCheck(addr: Word, acc: Access) returns (o: Translated)
      requires Valid()
      ensures o == Translate(ReaderOf(mem), satp, mpriv, msr[SUM], acc, addr)
    {
      if mpriv > SUPER {
        return Physical(addr);
      }
      var w := MmuWalk(addr);
      match w {
        case Found(pte) => o := Checked(pte, mpriv, msr[SUM], acc, addr);
        case _ => o := Stopped;
      }
    }

    /** `mmu_i_translate` and `mmu_d_translate`. */
    method MmuTranslate(epc: Word, addr: Word, acc: Access) returns (o: Translated)
      requires Valid()
      modifies this
      ensures Valid() && o == Translate(ReaderOf(old(mem)), old(satp), old(mpriv), old(msr)[SUM], acc, addr)
      ensures match Reach(old(Abs()), acc, epc, addr)
              case Halt => o.Stopped? && Abs() == old(Abs())
              case Done(At(pa)) => o == Physical(pa) && Abs() == old(Abs())
              case Done(Faulted(s)) => o.PageFault? && Abs() == s
    {
      o := MmuCheck(addr, acc);
      if o.PageFault? {
        Exception(FaultCause(acc), epc, addr);
      }
    }

    /** `done` is false after a page fault; `ok` is false if the simulator stops. */
    method StoreWord(epc: Word, address: Word, data: Word, width: Width) returns (ok: bool, done: bool)
      requires Valid()
      modifies this
      ensures ok == StoreVirtual(old(Abs()), epc, address, data, width).Done?
      ensures ok ==> Valid() && Done(Abs()) == StoreVirtual(old(Abs()), epc, address, data, width)
    {
      var physical := MmuTranslate(epc, address, Access.Write);
      match physical {
        case Stopped => return false, false;
        case PageFault => return true, false;
        case Physical(pa) =>
          var j := FindRegion(pa);
          if j == |mem| || pa % width != 0 {
            return false, false;
          }
          mem := mem[j := Put(mem[j], pa, data, width)];
          return true, true;
      }
    }

    method LoadWord(epc: Word, address: Word, width: Width, signedLoad: bool) returns (ok: bool, done: bool, data: Word)
      requires Valid()
      modifies this
      ensures match LoadVirtual(old(Abs()), epc, address, width, signedLoad)
              case Halt => !ok
              case Done(LoadFault(t)) => ok && !done && Abs() == t
              case Done(Value(x)) => ok && done && data == x && Abs() == old(Abs())
    {
      var physical := MmuTranslate(epc, address, Access.Read);
      match physical {
        case Stopped => return false, false, 0;
        case PageFault => return true, false, 0;
        case Physical(pa) =>
          var j := FindRegion(pa);
          if j == |mem| || pa % width != 0 {
            return false, false, 0;
          }
          return true, true, Get(mem[j], pa, width, signedLoad);
      }
    }
  }

  lemma PageAligned(value: Word)
    ensures (value - value % PAGE) % 4 == 0
  {
    assert value - value % PAGE == 4 * (IDX * (value / PAGE));
    Arith.ModUnique(value - value % PAGE, 4, IDX * (value / PAGE), 0);
  }
}
