/** The ring-buffer FIFO of the bus fabric (`dport_axi_fifo` and `tcm_mem_pmem_fifo2`, which
    differ only in their default parameters), and the bounded queue it refines. */
module Fifos {

  import opened Arith

  // ----- The bounded queue -----

  /** One clock of a queue of at most `depth` elements. A pop of the empty queue and a push
      into the full one are ignored; both are judged on the contents before the clock. */
  function QueueNext<T>(q: seq<T>, depth: nat, push: bool, x: T, pop: bool): (q': seq<T>)
    ensures |q| <= depth ==> |q'| <= depth
  {
    (if pop && q != [] then q[1..] else q) + (if push && |q| != depth then [x] else [])
  }

  datatype FifoIn<T> = FifoIn(push: bool, x: T, pop: bool)

  /** What a run leaves in the queue, what it took in and what it gave out. */
  datatype FifoRun<T> = FifoRun(queue: seq<T>, taken: seq<T>, given: seq<T>)

  function RunFifo<T>(depth: nat, ins: seq<FifoIn<T>>): FifoRun<T> {
    if ins == [] then FifoRun([], [], []) else
    var r := RunFifo(depth, ins[..|ins| - 1]);
    var i := ins[|ins| - 1];
    FifoRun(QueueNext(r.queue, depth, i.push, i.x, i.pop),
            r.taken + (if i.push && |r.queue| != depth then [i.x] else []),
            r.given + (if i.pop && r.queue != [] then [r.queue[0]] else []))
  }

  /** Under any interleaving of pushes, pops and both at once, nothing is lost, duplicated or
      reordered, and the queue never holds more than its depth. */
  lemma {:induction false} FifoConserves<T>(depth: nat, ins: seq<FifoIn<T>>)
    ensures var r := RunFifo(depth, ins);
            r.taken == r.given + r.queue && |r.queue| <= depth
  {
    if ins != [] {
      FifoConserves(depth, ins[..|ins| - 1]);
    }
  }

  // ----- The registers -----

  /** A pointer of a `n`-entry memory after one increment. */
  function Inc(p: nat, n: nat): (r: nat)
    requires p < n
    ensures r == if p + 1 < n then p + 1 else 0
  {
    (p + 1) % n
  }

  /** The slot `n` steps on from slot `rd` in a memory of `size` entries. */
  function Slot(size: nat, rd: nat, n: nat): (w: nat)
    requires rd < size && n <= size
    ensures w < size
  {
    if rd + n < size then rd + n else rd + n - size
  }

  class Fifo<T> {
    ghost var queue: seq<T>  // the contents, oldest first
    const depth: nat
    const ram: array<T>
    var rdPtr: nat
    var wrPtr: nat
    var count: nat

    ghost predicate Valid()
      reads this, ram
    {
      && ram.Length == depth && rdPtr < depth && count == |queue| <= depth
      && wrPtr == Slot(depth, rdPtr, count)
      && (forall k :: 0 <= k < count ==> queue[k] == ram[Slot(depth, rdPtr, k)])
    }

    /** A memory of 2^addrW entries. Reset clears the pointers and the count; the memory keeps
        whatever it holds. */
    constructor (addrW: nat, initial: T)
      ensures Valid() && fresh(ram) && depth == Pow2(addrW)
      ensures queue == []
    {
      depth := Pow2(addrW);
      ram := new T[Pow2(addrW)](_ => initial);
      rdPtr, wrPtr, count := 0, 0, 0;
      queue := [];
    }

    function AcceptO(): (accept: bool)
      requires Valid()
      reads this, ram
      ensures accept <==> |queue| != depth
    {
      count != depth
    }

    function ValidO(): (valid: bool)
      requires Valid()
      reads this, ram
      ensures valid <==> queue != []
    {
      count != 0
    }

    /** The element at the read pointer, which is the head whenever there is one. */
    function DataOutO(): (x: T)
      requires Valid()
      reads this, ram
      ensures queue != [] ==> x == queue[0]
    {
      ram[rdPtr]
    }

    /** The clock edge. Pointers are ADDR_W bits wide and the count has one bit more, so each
        increment is taken modulo the register's range. */
    method Tick(push: bool, x: T, pop: bool)
      requires Valid()
      modifies this, ram
      ensures Valid()
      ensures queue == QueueNext(old(queue), depth, push, x, pop)
    {
      var pushed := push && count != depth;
      var popped := pop && count != 0;
      if pushed {
        ram[wrPtr] := x;
        wrPtr := Inc(wrPtr, depth);
      }
      if popped {
        rdPtr := Inc(rdPtr, depth);
      }
      if pushed && !popped {
        count := Inc(count, 2 * depth);
      } else if !pushed && popped {
        count := count - 1;
      }
      queue := QueueNext(queue, depth, push, x, pop);
    }
  }
}
