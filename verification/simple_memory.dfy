/** `SimpleMemory`, the simulator's word-packed little-endian memory, and the bytes it holds.
    Masks and shifts of whole byte lanes are written as remainders and multiples. */
module SimpleMemories {
  import opened Arith
  import opened Bits

  type Width = w: int | w == 1 || w == 2 || w == 4 witness 1

  const TWO_8: int := 0x100
  const TWO_16: int := 0x1_0000
  const TWO_24: int := 0x100_0000

  // ----- The byte map -----

  /** Byte `k` of a word. */
  function ByteOf(x: Word, k: int): Byte
    requires 0 <= k < 4
  {
    if k == 0 then x % TWO_8 else if k == 1 then x / TWO_8 % TWO_8
    else if k == 2 then x / TWO_16 % TWO_8 else x / TWO_24
  }

  function Bytes(words: seq<Word>): (r: seq<Byte>)
    ensures |r| == 4 * |words|
  {
    seq(4 * |words|, a requires 0 <= a < 4 * |words| => ByteOf(words[a / 4], a % 4))
  }

  /** A byte map after a store. */
  function StoreBytes(bytes: seq<Byte>, a: nat, data: Word, w: Width): (r: seq<Byte>)
    requires a + w <= |bytes|
    ensures |r| == |bytes|
  {
    seq(|bytes|, b requires 0 <= b < |bytes| => StoredByte(bytes, a, data, w, b))
  }

  function StoredByte(bytes: seq<Byte>, a: nat, data: Word, w: Width, b: nat): Byte
    requires b < |bytes|
  {
    if a <= b < a + w then ByteOf(data, b - a) else bytes[b]
  }

  /** The value at an address, least significant byte first. */
  function Value(bytes: seq<Byte>, a: nat, w: Width): nat
    requires a + w <= |bytes|
  {
    bytes[a] + (if w > 1 then TWO_8 * bytes[a + 1] else 0)
    + if w > 2 then TWO_16 * bytes[a + 2] + TWO_24 * bytes[a + 3] else 0
  }

  /** A narrow value in a register, sign- or zero-extended. */
  function Extended(x: nat, w: Width, signed: bool): Word
    requires x < if w == 1 then TWO_8 else if w == 2 then TWO_16 else TWO_32
  {
    if w == 1 && signed && x >= 0x80 then x + 0xFFFF_FF00
    else if w == 2 && signed && x >= 0x8000 then x + 0xFFFF_0000
    else x
  }

  function LoadBytes(bytes: seq<Byte>, a: nat, w: Width, signed: bool): Word
    requires a + w <= |bytes|
  {
    Extended(Value(bytes, a, w), w, signed)
  }

  /** A load puts its bytes together least significant first; a signed one of a narrow value with its
      top bit set fills the rest with ones. */
  lemma LoadMeans(bytes: seq<Byte>, a: nat, w: Width, signed: bool)
    requires a + w <= |bytes|
    ensures var x: int, b: int := LoadBytes(bytes, a, w, signed), bytes[a];
            && (w == 1 ==> x == if signed && b >= 128 then 0xFFFF_FF00 + b else b)
            && (w == 2 ==> x == if signed && bytes[a + 1] >= 128 then 0xFFFF_0000 + 256 * bytes[a + 1] + b
                                else 256 * bytes[a + 1] + b)
            && (w == 4 ==> x == 0x100_0000 * bytes[a + 3] + 65536 * bytes[a + 2] + 256 * bytes[a + 1] + b)
  {
  }

  /** A store puts the low bytes of its data at the address and after it, and changes nothing else. */
  lemma StoreMeans(bytes: seq<Byte>, a: nat, data: Word, w: Width)
    requires a + w <= |bytes|
    ensures var s := StoreBytes(bytes, a, data, w);
            && s[a] == data % 256 && (w >= 2 ==> s[a + 1] == data / 256 % 256)
            && (w == 4 ==> s[a + 2] == data / 65536 % 256 && s[a + 3] == data / 0x100_0000)
            && forall b :: 0 <= b < |bytes| && !(a <= b < a + w) ==> s[b] == bytes[b]
  {
  }

  // ----- The word array -----

  /** What a load reads of the word it falls in. */
  function Lanes(x: Word, a: nat, w: Width): (r: Word)
    requires a % w == 0
  {
    if w == 4 then x
    else if w == 2 then if a % 4 >= 2 then x / TWO_16 % TWO_16 else x % TWO_16
    else if a % 4 == 3 then x / TWO_24 % TWO_8
    else if a % 4 == 2 then x / TWO_16 % TWO_8
    else if a % 4 == 1 then x / TWO_8 % TWO_8
    else x % TWO_8
  }

  /** The word after a store into it. */
  function Merged(x: Word, a: nat, data: Word, w: Width): (r: Word)
    requires a % w == 0
  {
    if w == 4 then data
    else if w == 2 then
      if a % 4 >= 2 then x % TWO_16 + data % TWO_16 * TWO_16 else x - x % TWO_16 + data % TWO_16
    else if a % 4 == 3 then x % TWO_24 + data % TWO_8 * TWO_24
    else if a % 4 == 2 then x - x % TWO_24 + data % TWO_8 * TWO_16 + x % TWO_16
    else if a % 4 == 1 then x - x % TWO_16 + data % TWO_8 * TWO_8 + x % TWO_8
    else x - x % TWO_8 + data % TWO_8
  }

  /** Four bytes make one word, and its lanes are those bytes. */
  lemma Pack(b0: Byte, b1: Byte, b2: Byte, b3: Byte)
    ensures var x := b0 + TWO_8 * b1 + TWO_16 * b2 + TWO_24 * b3;
            && 0 <= x < TWO_32 && ByteOf(x, 0) == b0 && ByteOf(x, 1) == b1 && ByteOf(x, 2) == b2 && ByteOf(x, 3) == b3
  {
    var x, y, z := b0 + TWO_8 * b1 + TWO_16 * b2 + TWO_24 * b3, b1 + TWO_8 * b2 + TWO_16 * b3, b2 + TWO_8 * b3;
    ModUnique(x, TWO_8, y, b0);
    ModUnique(y, TWO_8, z, b1);
    ModUnique(x, TWO_16, z, b0 + TWO_8 * b1);
    ModUnique(z, TWO_8, b3, b2);
    ModUnique(x, TWO_24, b3, b0 + TWO_8 * b1 + TWO_16 * b2);
  }

  lemma Unpack(x: Word)
    ensures x == ByteOf(x, 0) + TWO_8 * ByteOf(x, 1) + TWO_16 * ByteOf(x, 2) + TWO_24 * ByteOf(x, 3)
  {
    var q1, q2 := x / TWO_8, x / TWO_16;
    assert q1 / TWO_8 == q2 && q2 / TWO_8 == x / TWO_24;
  }

  /** The two- and three-byte parts of a word. */
  lemma Parts(x: Word)
    ensures x % TWO_16 == ByteOf(x, 0) + TWO_8 * ByteOf(x, 1)
    ensures x / TWO_16 % TWO_16 == ByteOf(x, 2) + TWO_8 * ByteOf(x, 3)
    ensures x % TWO_24 == ByteOf(x, 0) + TWO_8 * ByteOf(x, 1) + TWO_16 * ByteOf(x, 2)
  {
    Unpack(x);
    var low, high := ByteOf(x, 0) + TWO_8 * ByteOf(x, 1), ByteOf(x, 2) + TWO_8 * ByteOf(x, 3);
    ModUnique(x, TWO_16, high, low);
    ModUnique(high, TWO_16, 0, high);
    ModUnique(x, TWO_24, ByteOf(x, 3), low + TWO_16 * ByteOf(x, 2));
  }

  /** The word after a store, byte by byte. */
  function Mixed(x: Word, lane: nat, data: Word, w: Width, k: int): Byte
    requires 0 <= k < 4
  {
    if lane <= k < lane + w then ByteOf(data, k - lane) else ByteOf(x, k)
  }

  lemma MergedSum(x: Word, a: nat, data: Word, w: Width)
    requires a % w == 0
    ensures Merged(x, a, data, w) == Mixed(x, a % 4, data, w, 0) + TWO_8 * Mixed(x, a % 4, data, w, 1)
                                     + TWO_16 * Mixed(x, a % 4, data, w, 2) + TWO_24 * Mixed(x, a % 4, data, w, 3)
  {
    Unpack(x);
    Unpack(data);
    Parts(x);
    Parts(data);
    assert w == 2 ==> a % 4 == 0 || a % 4 == 2;
  }

  lemma MergedBytes(x: Word, a: nat, data: Word, w: Width, k: int)
    requires a % w == 0 && 0 <= k < 4
    ensures ByteOf(Merged(x, a, data, w), k) == Mixed(x, a % 4, data, w, k)
  {
    MergedSum(x, a, data, w);
    Pack(Mixed(x, a % 4, data, w, 0), Mixed(x, a % 4, data, w, 1),
         Mixed(x, a % 4, data, w, 2), Mixed(x, a % 4, data, w, 3));
  }

  lemma LanesBytes(x: Word, a: nat, w: Width)
    requires a % w == 0
    ensures var lane := a % 4;
            lane + w <= 4 && Lanes(x, a, w) == ByteOf(x, lane) + (if w > 1 then TWO_8 * ByteOf(x, lane + 1) else 0)
            + if w > 2 then TWO_16 * ByteOf(x, lane + 2) + TWO_24 * ByteOf(x, lane + 3) else 0
  {
    Unpack(x);
    Parts(x);
  }

  /** Rewriting the word a store falls in changes the bytes stored and no neighbour. */
  lemma StoreRefines(words: seq<Word>, a: nat, data: Word, w: Width)
    requires a % w == 0 && a / 4 < |words|
    ensures a + w <= 4 * |words|
    ensures Bytes(words[a / 4 := Merged(words[a / 4], a, data, w)]) == StoreBytes(Bytes(words), a, data, w)
  {
    var x, words' := words[a / 4], words[a / 4 := Merged(words[a / 4], a, data, w)];
    LanesBytes(x, a, w);
    forall b | 0 <= b < 4 * |words| ensures Bytes(words')[b] == StoredByte(Bytes(words), a, data, w, b) {
      if b / 4 == a / 4 {
        MergedBytes(x, a, data, w, b % 4);
      }
    }
  }

  lemma LoadRefines(words: seq<Word>, a: nat, w: Width)
    requires a % w == 0 && a / 4 < |words|
    ensures a + w <= 4 * |words| && Lanes(words[a / 4], a, w) == Value(Bytes(words), a, w)
  {
    LanesBytes(words[a / 4], a, w);
  }

  /** A byte map with its first `n` bytes cleared. */
  function ClearedBytes(bytes: seq<Byte>, n: nat): (r: seq<Byte>)
    ensures |r| == |bytes|
  {
    seq(|bytes|, b requires 0 <= b < |bytes| => if b < n then 0 else bytes[b])
  }

  /** A word with its first `n` bytes cleared. */
  function Trimmed(x: Word, n: nat): Word
    requires n < 4
  {
    x - (if n == 0 then 0 else if n == 1 then x % TWO_8 else if n == 2 then x % TWO_16 else x % TWO_24)
  }

  lemma TrimmedBytes(x: Word, n: nat, k: int)
    requires n < 4 && 0 <= k < 4
    ensures ByteOf(Trimmed(x, n), k) == if k < n then 0 else ByteOf(x, k)
  {
    Unpack(x);
    Parts(x);
    Pack(if n > 0 then 0 else ByteOf(x, 0), if n > 1 then 0 else ByteOf(x, 1),
         if n > 2 then 0 else ByteOf(x, 2), ByteOf(x, 3));
  }

  /** Whole words of zeros, then the word the size ends in, then the rest as it was. */
  lemma ClearRefines(words: seq<Word>, words': seq<Word>, n: nat)
    requires |words'| == |words| && n <= 4 * |words|
    requires forall i :: 0 <= i < n / 4 ==> words'[i] == 0
    requires n % 4 != 0 ==> words'[n / 4] == Trimmed(words[n / 4], n % 4)
    requires forall i :: (n + 3) / 4 <= i < |words| ==> words'[i] == words[i]
    ensures Bytes(words') == ClearedBytes(Bytes(words), n)
  {
    forall b | 0 <= b < 4 * |words| ensures Bytes(words')[b] == ClearedBytes(Bytes(words), n)[b] {
      if b / 4 == n / 4 && n % 4 != 0 {
        TrimmedBytes(words[n / 4], n % 4, b % 4);
      }
    }
  }

  // ----- The object -----

  class SimpleMemory {
    const Mem: array<Word>
    const Size: nat

    ghost predicate Valid()
      reads this
    {
      Mem.Length == (Size + 3) / 4
    }

    ghost function Contents(): (r: seq<Byte>)
      reads this, Mem
      ensures |r| == 4 * Mem.Length
    {
      Bytes(Mem[..])
    }

    constructor (size: nat)
      ensures Valid() && fresh(Mem) && Size == size
    {
      Mem := new Word[(size + 3) / 4];
      Size := size;
    }

    /** Clears the first `Size` bytes, which may end inside the last word. */
    method Reset()
      requires Valid()
      modifies Mem
      ensures Contents() == ClearedBytes(old(Contents()), Size)
    {
      for i := 0 to Size / 4
        invariant (forall j :: 0 <= j < i ==> Mem[j] == 0) && Mem[i..] == old(Mem[i..])
      {
        Mem[i] := 0;
      }
      if Size % 4 != 0 {
        Mem[Size / 4] := Trimmed(Mem[Size / 4], Size % 4);
      }
      ClearRefines(old(Mem[..]), Mem[..], Size);
    }

    /** A misaligned access fails the assertion and ends the simulation. */
    method Load(address: nat, width: Width, signedLoad: bool) returns (ok: bool, data: Word)
      requires address / 4 < Mem.Length
      ensures ok == (address % width == 0)
      ensures ok ==> address + width <= |Contents()| && data == LoadBytes(Contents(), address, width, signedLoad)
    {
      ok, data := address % width == 0, 0;
      if ok {
        data := Lanes(Mem[address / 4], address, width);
        LoadRefines(Mem[..], address, width);
        if signedLoad && width == 2 && data >= 0x8000 {
          data := data + 0xFFFF_0000;
        } else if signedLoad && width == 1 && data >= 0x80 {
          data := data + 0xFFFF_FF00;
        }
      }
    }

    method Store(address: nat, data: Word, width: Width) returns (ok: bool)
      requires address / 4 < Mem.Length
      modifies Mem
      ensures ok == (address % width == 0)
      ensures ok ==> address + width <= |Contents()| && Contents() == StoreBytes(old(Contents()), address, data, width)
      ensures !ok ==> Contents() == old(Contents())
    {
      ok := address % width == 0;
      if ok {
        StoreRefines(Mem[..], address, data, width);
        Mem[address / 4] := Merged(Mem[address / 4], address, data, width);
      }
    }
  }
}

/** The simulator's physical address map: the first region that contains an address serves it. */
module PhysicalMemory {
  import opened Bits
  import opened SimpleMemories

  datatype Region = Region(base: Word, size: Word, words: seq<Word>)

  /** The end of a region is a 32-bit sum. */
  predicate Contains(r: Region, a: Word) {
    r.base <= a < (r.base + r.size) % TWO_32
  }

  /** Regions start on a word, hold whole words, and have the storage for them. */
  predicate Whole(r: Region) {
    r.base % 4 == 0 && r.size % 4 == 0 && |r.words| == r.size / 4
  }

  predicate Aligned(rs: seq<Region>) {
    forall j :: 0 <= j < |rs| ==> Whole(rs[j])
  }

  function Find(rs: seq<Region>, a: Word, from: nat): (j: nat)
    requires from <= |rs|
    ensures from <= j <= |rs|
    ensures forall k :: from <= k < j ==> !Contains(rs[k], a)
    ensures j < |rs| ==> Contains(rs[j], a)
    decreases |rs| - from
  {
    if from == |rs| || Contains(rs[from], a) then from else Find(rs, a, from + 1)
  }

  /** The scan finds the first region that reaches over the address, whose end is a 32-bit sum. */
  lemma FirstRegion(rs: seq<Region>, a: Word)
    ensures var j := Find(rs, a, 0);
            && (forall k :: 0 <= k < j ==> !(rs[k].base <= a < (rs[k].base + rs[k].size) % 0x1_0000_0000))
            && (j < |rs| ==> rs[j].base <= a < (rs[j].base + rs[j].size) % 0x1_0000_0000)
  {
  }

  /** The byte at a physical address, if any region has it. */
  datatype Maybe = Nothing | Just(byte: Byte)

  lemma InRegion(r: Region, a: Word)
    requires Contains(r, a) && r.base % 4 == 0 && r.size % 4 == 0
    ensures a - r.base < r.size && (a - r.base) / 4 < r.size / 4 && (a - r.base) % 4 == a % 4
  {
  }

  function RegionByte(r: Region, a: Word): Byte
    requires Whole(r) && Contains(r, a)
  {
    InRegion(r, a);
    Bytes(r.words)[a - r.base]
  }

  function ByteAt(rs: seq<Region>, a: Word): Maybe
    requires Aligned(rs)
  {
    var j := Find(rs, a, 0);
    if j == |rs| then Nothing else Just(RegionByte(rs[j], a))
  }

  /** Nothing if no region has the address or the access is misaligned: the simulator stops. */
  datatype Outcome<T> = Halt | Done(value: T)

  /** A region after a store into it. */
  function Put(r: Region, a: Word, data: Word, w: Width): (r': Region)
    requires Whole(r) && Contains(r, a) && a % w == 0
    ensures Whole(r') && r'.base == r.base && r'.size == r.size
  {
    InRegion(r, a);
    Same(a, r.base, w);
    var at := a - r.base;
    r.(words := r.words[at / 4 := Merged(r.words[at / 4], at, data, w)])
  }

  lemma Same(a: Word, base: Word, w: Width)
    requires base % 4 == 0 && base <= a
    ensures (a - base) % w == a % w
  {
  }

  function Store(rs: seq<Region>, a: Word, data: Word, w: Width): (o: Outcome<seq<Region>>)
    requires Aligned(rs)
    ensures o.Done? ==> Aligned(o.value)
  {
    var j := Find(rs, a, 0);
    if j == |rs| || a % w != 0 then Halt else Done(rs[j := Put(rs[j], a, data, w)])
  }

  lemma LoadIs(r: Region, a: Word, w: Width)
    requires Whole(r) && Contains(r, a) && a % w == 0
    ensures var at := a - r.base;
            at + w <= |Bytes(r.words)| && at % w == 0 && Lanes(r.words[at / 4], at, w) == Value(Bytes(r.words), at, w)
  {
    InRegion(r, a);
    Same(a, r.base, w);
    LoadRefines(r.words, a - r.base, w);
  }

  /** What a load from a region returns. */
  function Get(r: Region, a: Word, w: Width, signed: bool): Word
    requires Whole(r) && Contains(r, a) && a % w == 0
  {
    LoadIs(r, a, w);
    var at := a - r.base;
    Extended(Lanes(r.words[at / 4], at, w), w, signed)
  }

  function Load(rs: seq<Region>, a: Word, w: Width, signed: bool): Outcome<Word>
    requires Aligned(rs)
  {
    var j := Find(rs, a, 0);
    if j == |rs| || a % w != 0 then Halt else Done(Get(rs[j], a, w, signed))
  }

  // ----- A plain byte map -----

  /** An address below the first address of a word. */
  lemma SameWordIn(r: Region, a: Word, b: Word)
    requires r.base % 4 == 0 && r.size % 4 == 0 && a / 4 == b / 4
    ensures Contains(r, a) <==> Contains(r, b)
  {
  }

  lemma {:induction false} SameWordFind(rs: seq<Region>, a: Word, b: Word, from: nat)
    requires Aligned(rs) && a / 4 == b / 4 && from <= |rs|
    ensures Find(rs, a, from) == Find(rs, b, from)
    decreases |rs| - from
  {
    if from < |rs| {
      SameWordIn(rs[from], a, b);
      SameWordFind(rs, a, b, from + 1);
    }
  }

  lemma {:induction false} FindAfterPut(rs: seq<Region>, rs': seq<Region>, b: Word, from: nat)
    requires |rs'| == |rs| && from <= |rs|
    requires forall j :: 0 <= j < |rs| ==> rs'[j].base == rs[j].base && rs'[j].size == rs[j].size
    ensures Find(rs', b, from) == Find(rs, b, from)
    decreases |rs| - from
  {
    if from < |rs| {
      assert Contains(rs'[from], b) <==> Contains(rs[from], b);
      FindAfterPut(rs, rs', b, from + 1);
    }
  }

  lemma Covered(a: Word, k: nat, w: Width)
    requires a % w == 0 && k < w
    ensures (a + k) / 4 == a / 4 && a + k < TWO_32
  {
    var q, r := a / 4, a % 4;
    if w == 2 {
      assert r == 0 || r == 2;
    }
    assert a + k == 4 * q + (r + k) && r + k < 4;
  }

  /** The byte `k` past an aligned address is in the same region. */
  lemma NextByte(rs: seq<Region>, a: Word, w: Width, k: nat)
    requires Aligned(rs) && a % w == 0 && k < w
    ensures a + k < TWO_32 && Find(rs, a + k, 0) == Find(rs, a, 0)
  {
    Covered(a, k, w);
    SameWordFind(rs, a, a + k, 0);
  }

  lemma PutBytes(r: Region, a: Word, data: Word, w: Width)
    requires Whole(r) && Contains(r, a) && a % w == 0
    ensures a - r.base + w <= |Bytes(r.words)|
    ensures Bytes(Put(r, a, data, w).words) == StoreBytes(Bytes(r.words), a - r.base, data, w)
  {
    InRegion(r, a);
    Same(a, r.base, w);
    StoreRefines(r.words, a - r.base, data, w);
  }

  /** A byte of the region stored into. */
  lemma StoreHere(r: Region, a: Word, data: Word, w: Width, b: Word)
    requires Whole(r) && Contains(r, a) && a % w == 0 && Contains(r, b)
    ensures RegionByte(Put(r, a, data, w), b) == if a <= b < a + w then ByteOf(data, b - a) else RegionByte(r, b)
  {
    PutBytes(r, a, data, w);
    InRegion(r, b);
    assert StoreBytes(Bytes(r.words), a - r.base, data, w)[b - r.base]
        == StoredByte(Bytes(r.words), a - r.base, data, w, b - r.base);
  }

  /** A store changes the bytes it covers and no others, wherever the regions lie. */
  lemma StoreByte(rs: seq<Region>, a: Word, data: Word, w: Width, b: Word)
    requires Aligned(rs) && Store(rs, a, data, w).Done?
    ensures ByteAt(Store(rs, a, data, w).value, b)
         == if a <= b < a + w then Just(ByteOf(data, b - a)) else ByteAt(rs, b)
  {
    var j := Find(rs, a, 0);
    FindAfterPut(rs, rs[j := Put(rs[j], a, data, w)], b, 0);
    if a <= b < a + w {
      NextByte(rs, a, w, b - a);
    }
    if Find(rs, b, 0) == j {
      StoreHere(rs[j], a, data, w, b);
    }
  }

  /** The bytes a store does not reach because its region does not have them do not exist. */
  lemma HaltsIff(rs: seq<Region>, a: Word, data: Word, w: Width, signed: bool)
    requires Aligned(rs)
    ensures Store(rs, a, data, w).Halt? <==> ByteAt(rs, a).Nothing? || a % w != 0
    ensures Load(rs, a, w, signed).Halt? <==> ByteAt(rs, a).Nothing? || a % w != 0
  {
  }

  /** The map holds these bytes from an address on. */
  predicate Holds(rs: seq<Region>, a: Word, bytes: seq<Byte>)
    requires Aligned(rs)
  {
    forall b: Word :: a <= b < a + |bytes| ==> ByteAt(rs, b) == Just(bytes[b - a])
  }

  lemma HeldByte(rs: seq<Region>, a: Word, w: Width, bytes: seq<Byte>, k: nat)
    requires Aligned(rs) && Holds(rs, a, bytes) && |bytes| == w && k < w && a % w == 0 && Find(rs, a, 0) < |rs|
    ensures var r := rs[Find(rs, a, 0)];
            a - r.base + k < |Bytes(r.words)| && Bytes(r.words)[a - r.base + k] == bytes[k]
  {
    NextByte(rs, a, w, k);
    var b: Word := a + k;
    assert ByteAt(rs, b) == Just(bytes[b - a]);
    InRegion(rs[Find(rs, a, 0)], b);
  }

  lemma LoadBytesAt(rs: seq<Region>, a: Word, w: Width, signed: bool, bytes: seq<Byte>)
    requires Aligned(rs) && Load(rs, a, w, signed).Done? && |bytes| == w && Holds(rs, a, bytes)
    ensures Load(rs, a, w, signed).value == LoadBytes(bytes, 0, w, signed)
  {
    var r := rs[Find(rs, a, 0)];
    LoadIs(r, a, w);
    var all, at := Bytes(r.words), a - r.base;
    forall k: nat | k < w ensures at + k < |all| && all[at + k] == bytes[k] {
      HeldByte(rs, a, w, bytes, k);
    }
    SameValue(all, at, bytes, w);
  }

  lemma SameValue(all: seq<Byte>, at: nat, bytes: seq<Byte>, w: Width)
    requires |bytes| == w && at + w <= |all| && forall k: nat :: k < w ==> all[at + k] == bytes[k]
    ensures Value(all, at, w) == Value(bytes, 0, w)
  {
    assert all[at + 0] == bytes[0];
    if w > 1 {
      assert all[at + 1] == bytes[1];
    }
    if w > 2 {
      assert all[at + 2] == bytes[2] && all[at + 3] == bytes[3];
    }
  }

  /** An access meets the byte of the first region's storage at the offset from its base. */
  lemma ByteAtIs(rs: seq<Region>, a: Word)
    requires Aligned(rs)
    ensures var j := Find(rs, a, 0);
            if j == |rs| then ByteAt(rs, a).Nothing?
            else (a - rs[j].base) / 4 < |rs[j].words|
                 && ByteAt(rs, a) == Just(ByteOf(rs[j].words[(a - rs[j].base) / 4], (a - rs[j].base) % 4))
  {
    var j := Find(rs, a, 0);
    if j < |rs| {
      InRegion(rs[j], a);
    }
  }

  // ----- Sequences of stores -----

  datatype StoreOp = StoreOp(a: Word, data: Word, w: Width)

  /** The map after some stores, unless one of them stops the simulator. */
  function AfterStores(rs: seq<Region>, ops: seq<StoreOp>): (o: Outcome<seq<Region>>)
    requires Aligned(rs)
    ensures o.Done? ==> Aligned(o.value)
  {
    if ops == [] then Done(rs) else
    var before := AfterStores(rs, ops[..|ops| - 1]);
    var op := ops[|ops| - 1];
    if before.Halt? then Halt else Store(before.value, op.a, op.data, op.w)
  }

  /** What the last store that covers a byte put there. */
  function LastStored(rs: seq<Region>, ops: seq<StoreOp>, b: Word): Maybe
    requires Aligned(rs)
  {
    if ops == [] then ByteAt(rs, b) else
    var op := ops[|ops| - 1];
    if op.a <= b < op.a + op.w then Just(ByteOf(op.data, b - op.a)) else LastStored(rs, ops[..|ops| - 1], b)
  }

  lemma {:induction false} StoresAreByteMap(rs: seq<Region>, ops: seq<StoreOp>, b: Word)
    requires Aligned(rs) && AfterStores(rs, ops).Done?
    ensures ByteAt(AfterStores(rs, ops).value, b) == LastStored(rs, ops, b)
  {
    if ops != [] {
      var op := ops[|ops| - 1];
      StoresAreByteMap(rs, ops[..|ops| - 1], b);
      StoreByte(AfterStores(rs, ops[..|ops| - 1]).value, op.a, op.data, op.w, b);
    }
  }

  /** After any sequence of stores, a load returns the last bytes stored, extended. */
  lemma LoadReturnsLastStored(rs: seq<Region>, ops: seq<StoreOp>, a: Word, w: Width, signed: bool, bytes: seq<Byte>)
    requires Aligned(rs) && AfterStores(rs, ops).Done? && Load(AfterStores(rs, ops).value, a, w, signed).Done?
    requires |bytes| == w && forall b: Word :: a <= b < a + w ==> LastStored(rs, ops, b) == Just(bytes[b - a])
    ensures Load(AfterStores(rs, ops).value, a, w, signed).value == LoadBytes(bytes, 0, w, signed)
  {
    var rs' := AfterStores(rs, ops).value;
    forall b: Word | a <= b < a + w ensures ByteAt(rs', b) == Just(bytes[b - a]) {
      StoresAreByteMap(rs, ops, b);
    }
    LoadBytesAt(rs', a, w, signed, bytes);
  }
}
