/** Burst address generation: `calculate_addr_next` of the TCM port and `calc_next_addr` of the
    testbench memory. Every wrap mask is 2^k - 1, so `addr & mask` is written `addr % (mask + 1)`. */
module Bursts {
  import opened Arith
  import opened Bits

  const FIXED: Pair := 0
  const INCR: Pair := 1
  const WRAP: Pair := 2

  /** The two build options of the TCM port. */
  datatype Options = Options(fixed: bool, wrap: bool)

  /** The words of the container a WRAP burst stays in; the wrap mask is four times this, less one. */
  function WrapWords(len: Byte): (n: nat)
    ensures n in {1, 2, 4, 8, 16}
  {
    if len == 0 then 1 else if len == 1 then 2 else if len == 3 then 4 else if len == 7 then 8 else 16
  }

  /** `(addr & ~mask) | ((addr + 4) & mask)` */
  function WrapNext(addr: Word, len: Byte): Word {
    WrapFits(addr, WrapWords(len));
    addr - addr % (4 * WrapWords(len)) + (addr + 4) % (4 * WrapWords(len))
  }

  lemma WrapFits(addr: Word, n: nat)
    requires n in {1, 2, 4, 8, 16}
    ensures 0 <= addr - addr % (4 * n) <= TWO_32 - 4 * n
  {
    assert addr - addr % 4 <= TWO_32 - 4 && addr - addr % 8 <= TWO_32 - 8 && addr - addr % 16 <= TWO_32 - 16
           && addr - addr % 32 <= TWO_32 - 32 && addr - addr % 64 <= TWO_32 - 64;
  }

  function IncrNext(addr: Word): Word {
    if addr + 4 < TWO_32 then addr + 4 else addr + 4 - TWO_32
  }

  function PortNext(opt: Options, addr: Word, burst: Pair, len: Byte): Word {
    if burst == FIXED && opt.fixed then addr
    else if burst == WRAP && opt.wrap then WrapNext(addr, len)
    else IncrNext(addr)
  }

  function BenchNext(addr: Word, burst: Pair, len: Byte): Word {
    if burst == WRAP then WrapNext(addr, len) else if burst == INCR then IncrNext(addr) else addr
  }

  /** The TCM port built with these options implements this burst type. */
  predicate Supported(opt: Options, burst: Pair) {
    burst == INCR || (burst == FIXED && opt.fixed) || (burst == WRAP && opt.wrap)
  }

  lemma WrapOrIncr(addr: nat, m: nat)
    requires m >= 4
    ensures (addr - addr % m + (addr + 4) % m == addr + 4) <==> addr % m + 4 < m
    ensures (addr - addr % m + (addr + 4) % m == addr + 4 - TWO_32) ==> m >= TWO_32
  {
    ModShift(addr, 4, m);
    ModOnce(addr % m + 4, m);
  }

  /** The two agree on a supported type, and otherwise only on a WRAP step that does not wrap. */
  lemma NextAgrees(opt: Options, addr: Word, burst: Pair, len: Byte)
    ensures PortNext(opt, addr, burst, len) == BenchNext(addr, burst, len)
            <==> Supported(opt, burst) || (burst == WRAP && addr % (4 * WrapWords(len)) + 4 < 4 * WrapWords(len))
  {
    WrapOrIncr(addr, 4 * WrapWords(len));
    WrapFits(addr, WrapWords(len));
  }

  // ----- Beats -----

  datatype Slot = Slot(addr: Word, last: bool)

  /** `calculate_addr_next` as some build has it. */
  type NextFn = (Word, Pair, Byte) -> Word

  function PortNextFn(opt: Options): NextFn {
    (addr, burst, len) => PortNext(opt, addr, burst, len)
  }

  /** The port's countdown: the beats left from `addr` with `left` in the length register. */
  function Countdown(nx: NextFn, addr: Word, burst: Pair, len: Byte, left: nat): (r: seq<Slot>)
    ensures |r| == left + 1 && r[0] == Slot(addr, left == 0)
    decreases left
  {
    [Slot(addr, left == 0)] + if left == 0 then [] else Countdown(nx, nx(addr, burst, len), burst, len, left - 1)
  }

  /** The testbench's unroll of beats `i` to `len` into its queue, the next one at `addr`. */
  function Unroll(addr: Word, burst: Pair, len: Byte, i: nat): (r: seq<Slot>)
    requires i <= len + 1
    ensures |r| == len + 1 - i
    decreases len + 1 - i
  {
    if i == len + 1 then [] else
    [Slot(addr, i == len)] + Unroll(BenchNext(addr, burst, len), burst, len, i + 1)
  }

  function Words(slots: seq<Slot>): seq<(int, bool)> {
    if slots == [] then [] else [(slots[0].addr / 4, slots[0].last)] + Words(slots[1..])
  }

  /** A wrap keeps the byte offset inside the word. */
  lemma WrapWord(a: Word, n: nat)
    requires n > 0
    ensures (a - a % (4 * n) + (a + 4) % (4 * n)) / 4 == a / 4 - a / 4 % n + (a / 4 + 1) % n
  {
    ModScale(4, a / 4, a % 4, n);
    ModScale(4, a / 4 + 1, a % 4, n);
  }

  lemma SameWrapWord(a: Word, b: Word, n: nat)
    requires a / 4 == b / 4 && n > 0
    ensures (a - a % (4 * n) + (a + 4) % (4 * n)) / 4 == (b - b % (4 * n) + (b + 4) % (4 * n)) / 4
  {
    WrapWord(a, n);
    WrapWord(b, n);
  }

  lemma SameWord(a: Word, b: Word, burst: Pair, len: Byte)
    requires a / 4 == b / 4
    ensures BenchNext(a, burst, len) / 4 == BenchNext(b, burst, len) / 4
  {
    if burst == WRAP {
      SameWrapWord(a, b, WrapWords(len));
    }
  }

  lemma {:induction false} CountdownIsUnrollFrom(opt: Options, a: Word, b: Word, burst: Pair, len: Byte, i: nat)
    requires Supported(opt, burst) && i <= len && a / 4 == b / 4
    ensures Words(Countdown(PortNextFn(opt), a, burst, len, len - i)) == Words(Unroll(b, burst, len, i))
    decreases len - i
  {
    if i < len {
      var a', b' := PortNext(opt, a, burst, len), BenchNext(b, burst, len);
      NextAgrees(opt, a, burst, len);
      SameWord(a, b, burst, len);
      CountdownIsUnrollFrom(opt, a', b', burst, len, i + 1);
      assert Countdown(PortNextFn(opt), a, burst, len, len - i)[1..]
          == Countdown(PortNextFn(opt), a', burst, len, len - i - 1);
      assert Unroll(b, burst, len, i)[1..] == Unroll(b', burst, len, i + 1);
    } else {
      assert Unroll(b, burst, len, i) == [Slot(b, true)];
    }
  }

  /** The registered countdown issues the same word addresses and last flags as the
      testbench's up-front unroll, which starts from the aligned address. */
  lemma CountdownIsUnroll(opt: Options, addr: Word, burst: Pair, len: Byte)
    requires Supported(opt, burst)
    ensures Words(Countdown(PortNextFn(opt), addr, burst, len, len)) == Words(Unroll(AlignWord(addr), burst, len, 0))
  {
    CountdownIsUnrollFrom(opt, addr, AlignWord(addr), burst, len, 0);
  }

  /** The address after `k` beats. */
  function AddressAfter(nx: NextFn, addr: Word, burst: Pair, len: Byte, k: nat): Word {
    if k == 0 then addr else nx(AddressAfter(nx, addr, burst, len, k - 1), burst, len)
  }

  lemma {:induction false} AddressAfterFirst(nx: NextFn, addr: Word, burst: Pair, len: Byte, k: nat)
    ensures AddressAfter(nx, nx(addr, burst, len), burst, len, k) == AddressAfter(nx, addr, burst, len, k + 1)
  {
    if k > 0 {
      AddressAfterFirst(nx, addr, burst, len, k - 1);
    }
  }

  /** The k-th beat of a countdown; only the last is marked. */
  lemma {:induction false} NthBeat(nx: NextFn, addr: Word, burst: Pair, len: Byte, left: nat, k: nat)
    requires k <= left
    ensures Countdown(nx, addr, burst, len, left)[k] == Slot(AddressAfter(nx, addr, burst, len, k), k == left)
    decreases left
  {
    if k > 0 {
      NthBeat(nx, nx(addr, burst, len), burst, len, left - 1, k - 1);
      AddressAfterFirst(nx, addr, burst, len, k - 1);
    }
  }

  /** An INCR burst, and any type the port is built without, goes on by 4 bytes a beat, modulo 2^32. */
  lemma {:induction false} IncrAddresses(opt: Options, addr: Word, burst: Pair, len: Byte, k: nat)
    requires !(burst == 0 && opt.fixed) && !(burst == 2 && opt.wrap)
    ensures AddressAfter(PortNextFn(opt), addr, burst, len, k) == (addr + 4 * k) % 0x1_0000_0000
  {
    if k > 0 {
      IncrAddresses(opt, addr, burst, len, k - 1);
      ModShift(addr + 4 * (k - 1), 4, TWO_32);
      OneIncr(AddressAfter(PortNextFn(opt), addr, burst, len, k - 1));
    }
  }

  lemma OneIncr(addr: Word)
    ensures IncrNext(addr) == (addr + 4) % 0x1_0000_0000
  {
  }

  function BenchNextFn(): NextFn {
    (addr, burst, len) => BenchNext(addr, burst, len)
  }

  /** The k-th beat of the testbench's unroll; only the last is marked. */
  lemma {:induction false} NthUnrolled(addr: Word, burst: Pair, len: Byte, i: nat, k: nat)
    requires i + k <= len
    ensures Unroll(addr, burst, len, i)[k] == Slot(AddressAfter(BenchNextFn(), addr, burst, len, k), i + k == len)
    decreases k
  {
    if k > 0 {
      NthUnrolled(BenchNext(addr, burst, len), burst, len, i + 1, k - 1);
      AddressAfterFirst(BenchNextFn(), addr, burst, len, k - 1);
    }
  }

  /** Its INCR bursts go on by 4 bytes a beat, modulo 2^32; its WRAP bursts go round; the others stay. */
  lemma {:induction false} BenchAddresses(addr: Word, burst: Pair, len: Byte, k: nat)
    ensures AddressAfter(BenchNextFn(), addr, burst, len, k)
         == if burst == 1 then (addr + 4 * k) % 0x1_0000_0000 else if burst == 2 then WrapIter(addr, len, k) else addr
  {
    if k > 0 {
      BenchAddresses(addr, burst, len, k - 1);
      if burst == 1 {
        ModShift(addr + 4 * (k - 1), 4, TWO_32);
        OneIncr(AddressAfter(BenchNextFn(), addr, burst, len, k - 1));
      }
    }
  }

  /** A FIXED burst stays where it is. */
  lemma {:induction false} FixedAddresses(opt: Options, addr: Word, len: Byte, k: nat)
    requires opt.fixed
    ensures AddressAfter(PortNextFn(opt), addr, 0, len, k) == addr
  {
    if k > 0 {
      FixedAddresses(opt, addr, len, k - 1);
    }
  }

  /** A WRAP burst goes round. */
  lemma {:induction false} WrapAddresses(opt: Options, addr: Word, len: Byte, k: nat)
    requires opt.wrap
    ensures AddressAfter(PortNextFn(opt), addr, 2, len, k) == WrapIter(addr, len, k)
  {
    if k > 0 {
      WrapAddresses(opt, addr, len, k - 1);
    }
  }

  /** It keeps the address bits above the lowest 2, 3, 4, 5 or 6, by its length. */
  lemma WrapNextBits(addr: Word, len: Byte)
    ensures len == 0 ==> WrapNext(addr, len) == addr - addr % 4 + (addr + 4) % 4
    ensures len == 1 ==> WrapNext(addr, len) == addr - addr % 8 + (addr + 4) % 8
    ensures len == 3 ==> WrapNext(addr, len) == addr - addr % 16 + (addr + 4) % 16
    ensures len == 7 ==> WrapNext(addr, len) == addr - addr % 32 + (addr + 4) % 32
    ensures len !in {0, 1, 3, 7} ==> WrapNext(addr, len) == addr - addr % 64 + (addr + 4) % 64
  {
  }

  // ----- Wrapping -----

  function WrapIter(addr: Word, len: Byte, k: nat): Word {
    if k == 0 then addr else WrapNext(WrapIter(addr, len, k - 1), len)
  }

  /** The place reached in a ring of `n` places after `k <= n` steps from place `from`. */
  function Place(from: nat, k: nat, n: nat): int {
    if from + k < n then from + k else from + k - n
  }

  /** One beat, from place `p` of the `n`-word container that starts at word `n * b`. */
  lemma WrapStep(b: nat, p: nat, n: nat)
    requires p < n
    ensures (4 * (n * b + p)) % (4 * n) == 4 * p
    ensures (4 * (n * b + p) + 4) % (4 * n) == 4 * Place(p, 1, n)
  {
    var base := n * b;
    assert (4 * n) * b == 4 * base;
    ModUnique(4 * (base + p), 4 * n, b, 4 * p);
    if p + 1 < n {
      ModUnique(4 * (base + p) + 4, 4 * n, b, 4 * (p + 1));
    } else {
      assert (4 * n) * (b + 1) == (4 * n) * b + 4 * n;
      ModUnique(4 * (base + p) + 4, 4 * n, b + 1, 0);
    }
  }

  lemma WrapNextWord(base: nat, c: nat, p: nat, len: Byte)
    requires len in {1, 3, 7, 15} && base == (len + 1) * c && p <= len && 4 * (base + len) < TWO_32
    ensures WrapNext(4 * (base + p), len) == 4 * (base + Place(p, 1, len + 1))
  {
    WrapStep(c, p, len + 1);
  }

  lemma {:induction false} WrapAt(addr: Word, base: nat, c: nat, from: nat, len: Byte, k: nat)
    requires len in {1, 3, 7, 15} && base == (len + 1) * c && 4 * (base + len) < TWO_32
    requires addr == 4 * (base + from) && from <= len && k <= len + 1
    ensures WrapIter(addr, len, k) == 4 * (base + Place(from, k, len + 1))
  {
    if k > 0 {
      WrapAt(addr, base, c, from, len, k - 1);
      WrapNextWord(base, c, Place(from, k - 1, len + 1), len);
    }
  }

  /** A wrapping burst meets this address on exactly one of its beats. */
  predicate MetOnce(addr: Word, len: Byte, met: int) {
    exists k :: 0 <= k <= len && WrapIter(addr, len, k) == met
                && forall j :: 0 <= j <= len && WrapIter(addr, len, j) == met ==> j == k
  }

  /** In the `c`-th container of `len + 1` words, from its word `from`. */
  lemma WrapVisits(addr: Word, base: nat, c: nat, from: nat, to: nat, len: Byte)
    requires len in {1, 3, 7, 15} && base == (len + 1) * c && 4 * (base + len) < TWO_32
    requires addr == 4 * (base + from) && from <= len && to <= len
    ensures WrapIter(addr, len, len + 1) == addr && MetOnce(addr, len, 4 * (base + to))
  {
    WrapAt(addr, base, c, from, len, len + 1);
    var k := if to >= from then to - from else to + len + 1 - from;
    WrapAt(addr, base, c, from, len, k);
    forall j | 0 <= j <= len && WrapIter(addr, len, j) == 4 * (base + to) ensures j == k {
      WrapAt(addr, base, c, from, len, j);
    }
  }

  /** The aligned container of `n` words. */
  function ContainerStart(addr: Word, n: nat): int
    requires n > 0
  {
    addr - addr % (4 * n)
  }

  /** Where an aligned address lies in its container. */
  lemma WrapPlace(addr: Word, n: nat) returns (base: nat, c: nat, from: nat)
    requires addr % 4 == 0 && n > 0 && ContainerStart(addr, n) <= TWO_32 - 4 * n
    ensures base == n * c && addr == 4 * (base + from) && from < n
    ensures ContainerStart(addr, n) == 4 * base && 4 * (base + n - 1) < TWO_32
  {
    var w := addr / 4;
    c, from := w / n, w % n;
    base := n * c;
    assert w == base + from;
    ModScale(4, w, 0, n);
  }

  /** Section A3.4.1 of ARM IHI 0022: from every aligned address, a wrapping burst of 2, 4, 8 or 16
      beats returns to it after the last beat and meets every word of its aligned container
      exactly once on the way. */
  lemma WrapVisitsContainerOnce(addr: Word, to: nat, len: Byte)
    requires addr % 4 == 0 && len in {1, 3, 7, 15} && to <= len
    ensures WrapIter(addr, len, len + 1) == addr && MetOnce(addr, len, ContainerStart(addr, len + 1) + 4 * to)
  {
    WrapFits(addr, len + 1);
    var base, c, from := WrapPlace(addr, len + 1);
    WrapVisits(addr, base, c, from, to, len);
  }
}
