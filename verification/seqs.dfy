/** Sequences of pairs, and queues between two logs. */
module Seqs {
  function Firsts<A, B>(xs: seq<(A, B)>): (r: seq<A>)
    ensures |r| == |xs|
  {
    seq(|xs|, k requires 0 <= k < |xs| => xs[k].0)
  }

  function Seconds<A, B>(xs: seq<(A, B)>): (r: seq<B>)
    ensures |r| == |xs|
  {
    seq(|xs|, k requires 0 <= k < |xs| => xs[k].1)
  }

  /** What has left a queue, followed by what is in it, only grows by what enters. */
  lemma QueueMoves<T>(gone: seq<T>, q: seq<T>, pop: bool, more: seq<T>)
    requires pop ==> q != []
    ensures (gone + if pop then [q[0]] else []) + ((if pop then q[1..] else q) + more) == (gone + q) + more
  {
  }
}
