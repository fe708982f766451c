/** Laws of the simulator's privileged part. */
module HartRuns {
  import opened Bits
  import opened Hart
  import opened PhysicalMemory
  import opened SimpleMemories
  import opened Sv32

  // ----- Traps -----

  /** The trap is delegated by the bit of its number, for interrupts or for exceptions, and came
      from user or supervisor mode. */
  lemma DelegatedIff(s: HartState, cause: Word)
    requires Cause(cause)
    ensures ToSuper(s, cause) <==>
            s.mpriv <= 1 && if cause >= 0x8000_0000 then s.mideleg[cause - 0x8000_0000] else s.medeleg[cause]
  {
  }

  /** Entry to supervisor or machine mode, whichever the delegation says: the cause, the address
      and the vector are those of that mode; its interrupt enable (bit 1 or 3) is stacked in bit 5
      or 7 and cleared, the mode left in bit 8 or bits 11 and 12; and nothing else changes. */
  lemma TrapDelivers(s: HartState, cause: Word, pc: Word, bad: Word)
    requires Cause(cause)
    ensures var t := Trap(s, cause, pc, bad);
            && t.mpriv >= s.mpriv && t.mem == s.mem && t.satp == s.satp
            && t.mideleg == s.mideleg && t.medeleg == s.medeleg && t.mie == s.mie && t.mip == s.mip
            && (if ToSuper(s, cause)
                then t.mpriv == 1 && t.sepc == pc && t.scause == cause && t.stval == bad && t.pc == s.sevec
                     && t.msr[5] == s.msr[1] && !t.msr[1] && t.msr[8] == (s.mpriv == 1)
                     && (forall k :: 0 <= k < 32 && k !in {1, 5, 8} ==> t.msr[k] == s.msr[k])
                     && t.mepc == s.mepc && t.mcause == s.mcause
                else t.mpriv == 3 && t.mepc == pc && t.mcause == cause && t.pc == s.mevec
                     && t.msr[7] == s.msr[3] && !t.msr[3]
                     && t.msr[11] == (s.mpriv % 2 == 1) && t.msr[12] == (s.mpriv >= 2)
                     && (forall k :: 0 <= k < 32 && k !in {3, 7, 11, 12} ==> t.msr[k] == s.msr[k])
                     && t.sepc == s.sepc && t.scause == s.scause && t.stval == s.stval)
  {
  }

  /** Machine return: only from machine mode; bit 7 goes back to bit 3 and is set, bits 11 and 12 give
      the mode and are cleared. */
  lemma MretPops(s: HartState)
    ensures Mret(s).Halt? <==> s.mpriv != 3
    ensures Mret(s).Done? ==> var t := Mret(s).value;
            && t.pc == s.mepc && t.mpriv == (if s.msr[11] then 1 else 0) + (if s.msr[12] then 2 else 0)
            && t.msr[3] == s.msr[7] && t.msr[7] && !t.msr[11] && !t.msr[12] && t.mem == s.mem
            && (forall k :: 0 <= k < 32 && k !in {3, 7, 11, 12} ==> t.msr[k] == s.msr[k])
  {
  }

  /** Supervisor return: only from supervisor mode; bit 5 goes back to bit 1 and is set, bit 8 gives
      the mode and is cleared. */
  lemma SretPops(s: HartState)
    ensures Sret(s).Halt? <==> s.mpriv != 1
    ensures Sret(s).Done? ==> var t := Sret(s).value;
            && t.pc == s.sepc && t.mpriv == (if s.msr[8] then 1 else 0)
            && t.msr[1] == s.msr[5] && t.msr[5] && !t.msr[8] && t.mem == s.mem
            && (forall k :: 0 <= k < 32 && k !in {1, 5, 8} ==> t.msr[k] == s.msr[k])
  {
  }

  /** What a handler must leave alone for its return to be exact. */
  predicate SameStack(t: HartState, u: HartState) {
    t.mpriv == u.mpriv && t.msr == u.msr && t.mepc == u.mepc && t.sepc == u.sepc
  }

  lemma MppKept(msr: Bits32, p: Priv)
    ensures GetMpp(SetMpp(msr, p)) == p
    ensures forall k :: 0 <= k < 32 && k != MPP && k != MPP + 1 ==> SetMpp(msr, p)[k] == msr[k]
  {
  }

  /** A status register restored but for the fields that a machine-mode stack pop resets. */
  predicate RestoredM(msr: Bits32, msr': Bits32) {
    && msr'[MPIE] && !msr'[MPP] && !msr'[MPP + 1]
    && forall k :: 0 <= k < 32 && k != MPIE && k != MPP && k != MPP + 1 ==> msr'[k] == msr[k]
  }

  predicate RestoredS(msr: Bits32, msr': Bits32) {
    && msr'[SPIE] && !msr'[SPP] && forall k :: 0 <= k < 32 && k != SPIE && k != SPP ==> msr'[k] == msr[k]
  }

  /** A trap to machine mode, whatever its handler does besides, and the matching return. */
  lemma MachineRoundTrip(s: HartState, cause: Word, pc: Word, bad: Word, t: HartState)
    requires Cause(cause) && !ToSuper(s, cause) && SameStack(t, Trap(s, cause, pc, bad))
    ensures Mret(t).Done?
    ensures var u := Mret(t).value; u.pc == pc && u.mpriv == s.mpriv && RestoredM(s.msr, u.msr) && u.sepc == s.sepc
  {
    MppKept(s.msr[MPIE := s.msr[MIE]][MIE := false], s.mpriv);
    MppKept(t.msr[MIE := t.msr[MPIE]][MPIE := true], USER);
  }

  lemma SuperRoundTrip(s: HartState, cause: Word, pc: Word, bad: Word, t: HartState)
    requires Cause(cause) && ToSuper(s, cause) && SameStack(t, Trap(s, cause, pc, bad))
    ensures Sret(t).Done?
    ensures var u := Sret(t).value; u.pc == pc && u.mpriv == s.mpriv && RestoredS(s.msr, u.msr) && u.mepc == s.mepc
  {
  }

  /** A supervisor handler interrupted by a trap to machine mode still returns exactly: the two
      stacks do not interfere. */
  lemma NestedRoundTrip(s: HartState, cause: Word, pc: Word, bad: Word, t: HartState,
                        cause': Word, pc': Word, bad': Word, t': HartState)
    requires Cause(cause) && ToSuper(s, cause) && SameStack(t, Trap(s, cause, pc, bad))
    requires Cause(cause') && !ToSuper(t, cause') && SameStack(t', Trap(t, cause', pc', bad'))
    ensures Mret(t').Done? && Sret(Mret(t').value).Done?
    ensures var u := Mret(t').value;
            var v := Sret(u).value;
            && u.pc == pc' && v.pc == pc && v.mpriv == s.mpriv && v.msr[SIE] == s.msr[SIE] && v.msr[MIE] == s.msr[MIE]
            && forall k :: 0 <= k < 32 && k !in {SPIE, SPP, MPIE, MPP, MPP + 1} ==> v.msr[k] == s.msr[k]
  {
    MachineRoundTrip(t, cause', pc', bad', t');
    var u := Mret(t').value;
    assert u.msr[SPIE] == t.msr[SPIE] && u.msr[SPP] == t.msr[SPP];
  }

  // ----- Interrupts -----

  lemma IrqTarget(s: HartState, i: nat)
    requires i < 32
    ensures Cause(0x8000_0000 + i) && (ToSuper(s, 0x8000_0000 + i) <==> s.mpriv <= 1 && s.mideleg[i])
  {
    assert (0x8000_0000 + i) % 0x8000_0000 == i;
  }

  /** Machine mode takes an interrupt that is pending, enabled and not delegated, always from a lower
      mode and from itself with bit 3 set. */
  predicate TakesM(s: HartState, i: nat)
    requires i < 32
  {
    s.mip[i] && s.mie[i] && !s.mideleg[i] && (s.mpriv < 3 || s.msr[3])
  }

  /** Supervisor mode takes one that is delegated, always from user mode and from itself with bit 1 set. */
  predicate TakesS(s: HartState, i: nat)
    requires i < 32
  {
    s.mip[i] && s.mie[i] && s.mideleg[i] && (s.mpriv < 1 || (s.mpriv == 1 && s.msr[1]))
  }

  lemma TakesIs(s: HartState, i: nat)
    requires i < 32
    ensures (TakesM(s, i) <==> ForMachine(s, i)) && (TakesS(s, i) <==> ForSuper(s, i))
  {
  }

  predicate SomeM(s: HartState) {
    exists i :: 0 <= i < 32 && TakesM(s, i)
  }

  lemma OfferedIs(s: HartState, i: nat)
    requires i < 32
    ensures Offered(s, i) <==> if SomeM(s) then TakesM(s, i) else TakesS(s, i)
  {
    TakesIs(s, i);
    if SomeM(s) {
      var k :| 0 <= k < 32 && TakesM(s, k);
      TakesIs(s, k);
      assert ForMachine(s, k);
    }
    if AnyForMachine(s) {
      var k :| 0 <= k < 32 && ForMachine(s, k);
      TakesIs(s, k);
      assert TakesM(s, k);
    }
  }

  /** The interrupt `i` is taken: from `s.pc`, with its cause, in the mode it was taken for. */
  predicate Delivered(s: HartState, i: nat, t: HartState)
    requires i < 32
  {
    if s.mideleg[i]
    then t.mpriv == 1 && t.scause == 0x8000_0000 + i && t.sepc == s.pc && t.pc == s.sevec
    else t.mpriv == 3 && t.mcause == 0x8000_0000 + i && t.mepc == s.pc && t.pc == s.mevec
  }

  lemma DeliversOffered(s: HartState, i: nat)
    requires i < 32 && Offered(s, i)
    ensures Delivered(s, i, Trap(s, 0x8000_0000 + i, s.pc, 0))
  {
    OfferedIs(s, i);
    IrqTarget(s, i);
    TrapDelivers(s, 0x8000_0000 + i, s.pc, 0);
  }

  /** What the poll does: if machine mode takes any, the lowest-numbered from 1 to 11 that it takes,
      or else the lowest-numbered that supervisor mode takes, is delivered; if there is none, nothing
      happens. */
  lemma InterruptDelivered(s: HartState)
    ensures var i := FirstOffered(s, 1);
            if i <= 11
            then (if SomeM(s) then TakesM(s, i) else TakesS(s, i)) && Delivered(s, i, Poll(s))
                 && forall k :: 1 <= k < i ==> !if SomeM(s) then TakesM(s, k) else TakesS(s, k)
            else Poll(s) == s && forall k :: 1 <= k <= 11 ==> !if SomeM(s) then TakesM(s, k) else TakesS(s, k)
  {
    var i := FirstOffered(s, 1);
    if i <= 11 {
      OfferedIs(s, i);
      DeliversOffered(s, i);
    }
    forall k | 1 <= k < i ensures !if SomeM(s) then TakesM(s, k) else TakesS(s, k) {
      OfferedIs(s, k);
    }
  }

  /** With no interrupt enabled outside the numbers 1 to 11, one is taken if and only if one is
      pending and enabled for either mode. */
  lemma TakenIff(s: HartState)
    requires forall i :: 0 <= i < 32 && s.mie[i] ==> 1 <= i <= 11
    ensures FirstOffered(s, 1) <= 11 <==> exists i :: 0 <= i < 32 && (TakesM(s, i) || TakesS(s, i))
  {
    var r := FirstOffered(s, 1);
    if r <= 11 {
      OfferedIs(s, r);
    }
    if i :| 0 <= i < 32 && (TakesM(s, i) || TakesS(s, i)) {
      if SomeM(s) {
        var k :| 0 <= k < 32 && TakesM(s, k);
        OfferedIs(s, k);
      } else {
        assert TakesS(s, i);
        OfferedIs(s, i);
      }
    }
  }

  /** Masked, machine mode is not interrupted, and supervisor mode only by what is not delegated. */
  lemma MaskedIsQuiet(s: HartState)
    ensures s.mpriv == 3 && !s.msr[3] ==> Poll(s) == s
    ensures s.mpriv == 1 && !s.msr[1] ==> Poll(s) == s || Poll(s).mpriv == 3
  {
    InterruptDelivered(s);
  }

  // ----- Runs -----

  /** What can happen to the privileged state: traps, returns, polls, and software writing the
      registers it may write. */
  datatype Event = TrapEvent(cause: Word, pc: Word, bad: Word) | MretEvent | SretEvent | PollEvent
                 | Software(msr: Bits32, mideleg: Bits32, medeleg: Bits32, mie: Bits32, mip: Bits32, pc: Word)

  predicate Possible(e: Event) {
    e.TrapEvent? ==> Cause(e.cause)
  }

  function Happens(s: HartState, e: Event): Outcome<HartState>
    requires Possible(e)
  {
    match e
    case TrapEvent(cause, pc, bad) => Done(Trap(s, cause, pc, bad))
    case MretEvent => Mret(s)
    case SretEvent => Sret(s)
    case PollEvent => Done(Poll(s))
    case Software(msr, mideleg, medeleg, mie, mip, pc) =>
      Done(s.(msr := msr, mideleg := mideleg, medeleg := medeleg, mie := mie, mip := mip, pc := pc))
  }

  function RunOf(s: HartState, es: seq<Event>): Outcome<HartState>
    requires forall k :: 0 <= k < |es| ==> Possible(es[k])
  {
    if es == [] then Done(s) else
    var before := RunOf(s, es[..|es| - 1]);
    if before.Halt? then Halt else Happens(before.value, es[|es| - 1])
  }

  predicate IsReturn(e: Event) {
    e.MretEvent? || e.SretEvent?
  }

  lemma PollRaises(s: HartState)
    ensures Poll(s).mpriv >= s.mpriv
  {
    var i := FirstOffered(s, IRQ_MIN);
    if i < IRQ_MAX {
      TrapDelivers(s, INTERRUPT + i, s.pc, 0);
    }
  }

  /** Over every run: privilege falls only at a return, so a run with no return in it ends at
      least as privileged as it began. */
  lemma {:induction false} OnlyReturnsLower(s: HartState, es: seq<Event>)
    requires forall k :: 0 <= k < |es| ==> Possible(es[k]) && !IsReturn(es[k])
    ensures RunOf(s, es).Done? && RunOf(s, es).value.mpriv >= s.mpriv
  {
    if es != [] {
      var e := es[|es| - 1];
      OnlyReturnsLower(s, es[..|es| - 1]);
      var t := RunOf(s, es[..|es| - 1]).value;
      if e.TrapEvent? {
        TrapDelivers(t, e.cause, e.pc, e.bad);
      }
      PollRaises(t);
    }
  }

  // ----- Memory -----

  /** A page fault has the cause of its access, the faulting instruction's address, and leaves
      the memory unchanged. */
  lemma FaultTraps(s: HartState, acc: Access, pc: Word, va: Word)
    requires Aligned(s.mem) && Reach(s, acc, pc, va).Done? && Reach(s, acc, pc, va).value.Faulted?
    ensures var t, cause := Reach(s, acc, pc, va).value.s, FaultCause(acc);
            && s.mpriv <= SUPER && t.mem == s.mem && cause == (if acc.Fetch? then 12 else if acc.Read? then 13 else 15)
            && (if s.medeleg[cause]
                then t.mpriv == SUPER && t.sepc == pc && t.scause == cause && t.stval == va && t.pc == s.sevec
                else t.mpriv == MACHINE && t.mepc == pc && t.mcause == cause && t.pc == s.mevec)
  {
    TrapDelivers(s, FaultCause(acc), pc, va);
  }

  /** A store through the page tables changes the bytes it covers at the translated address and
      no others; one that faults changes none. */
  lemma StoreVirtualBytes(s: HartState, pc: Word, va: Word, data: Word, w: Width, b: Word)
    requires Aligned(s.mem) && StoreVirtual(s, pc, va, data, w).Done?
    ensures var t := StoreVirtual(s, pc, va, data, w).value;
            Aligned(t.mem) && match Translate(ReaderOf(s.mem), s.satp, s.mpriv, s.msr[SUM], Access.Write, va)
                              case Physical(pa) => ByteAt(t.mem, b) ==
                                  if pa <= b < pa + w then Just(ByteOf(data, b - pa)) else ByteAt(s.mem, b)
                              case _ => ByteAt(t.mem, b) == ByteAt(s.mem, b)
  {
    match Translate(ReaderOf(s.mem), s.satp, s.mpriv, s.msr[SUM], Access.Write, va) {
      case Physical(pa) => StoreByte(s.mem, pa, data, w, b);
      case _ =>
    }
  }

  /** With translation on, a store that is done went to a page whose leaf allows writing in this
      mode. Bit 18 of the status register lets the supervisor at user pages. */
  lemma StoreWasAllowed(s: HartState, pc: Word, va: Word, data: Word, w: Width)
    requires Aligned(s.mem) && s.satp >= 0x8000_0000 && s.mpriv <= 1
    requires StoreVirtual(s, pc, va, data, w).Done? && StoreVirtual(s, pc, va, data, w).value.mem != s.mem
    ensures var e := EndOfWalk(ReaderOf(s.mem), s.satp % 0x40_0000, va, 1);
            e.Last? && V(e.pte) && W(e.pte) && (if s.mpriv == 0 then U(e.pte) else U(e.pte) ==> s.msr[18])
  {
    StoreReached(s, pc, va, data, w);
    SuccessMeansAllowed(ReaderOf(s.mem), s.satp, s.mpriv, s.msr[18], Access.Write, va);
  }

  lemma StoreReached(s: HartState, pc: Word, va: Word, data: Word, w: Width)
    requires Aligned(s.mem)
    requires StoreVirtual(s, pc, va, data, w).Done? && StoreVirtual(s, pc, va, data, w).value.mem != s.mem
    ensures Translate(ReaderOf(s.mem), s.satp, s.mpriv, s.msr[18], Access.Write, va).Physical?
  {
    if Translate(ReaderOf(s.mem), s.satp, s.mpriv, s.msr[18], Access.Write, va).PageFault? {
      TrapDelivers(s, 15, pc, va);
    }
  }

  /** A load returns what the memory holds at the translated address, or faults with cause 13, or stops
      the simulator, as the translation of a read does. */
  lemma LoadVirtualIs(s: HartState, pc: Word, va: Word, w: Width, signed: bool)
    requires Aligned(s.mem)
    ensures var t, l := Translate(ReaderOf(s.mem), s.satp, s.mpriv, s.msr[18], Access.Read, va),
                        LoadVirtual(s, pc, va, w, signed);
            match t
            case Physical(pa) =>
              (match Load(s.mem, pa, w, signed) case Halt => l.Halt? case Done(x) => l == Done(Value(x)))
            case PageFault => l == Done(LoadFault(Trap(s, 13, pc, va)))
            case Stopped => l.Halt?
  {
  }

  /** And a store, with cause 15. */
  lemma StoreVirtualIs(s: HartState, pc: Word, va: Word, data: Word, w: Width)
    requires Aligned(s.mem)
    ensures var t, st := Translate(ReaderOf(s.mem), s.satp, s.mpriv, s.msr[18], Access.Write, va),
                         StoreVirtual(s, pc, va, data, w);
            match t
            case Physical(pa) =>
              (match Store(s.mem, pa, data, w) case Halt => st.Halt? case Done(m) => st == Done(s.(mem := m)))
            case PageFault => st == Done(Trap(s, 15, pc, va))
            case Stopped => st.Halt?
  {
  }

  lemma LoadWasAllowed(s: HartState, pc: Word, va: Word, w: Width, signed: bool)
    requires Aligned(s.mem) && s.satp >= 0x8000_0000 && s.mpriv <= 1
    requires LoadVirtual(s, pc, va, w, signed).Done? && LoadVirtual(s, pc, va, w, signed).value.Value?
    ensures var e := EndOfWalk(ReaderOf(s.mem), s.satp % 0x40_0000, va, 1);
            e.Last? && V(e.pte) && R(e.pte) && (if s.mpriv == 0 then U(e.pte) else U(e.pte) ==> s.msr[18])
  {
    LoadVirtualIs(s, pc, va, w, signed);
    SuccessMeansAllowed(ReaderOf(s.mem), s.satp, s.mpriv, s.msr[18], Access.Read, va);
  }
}
