/** Facts about concatenation, stated once so that proofs about larger terms need not rediscover them. */
module Seqs {
  /** Dropping a front of `a` from `a + b`. */
  lemma ConcatAfter<T>(a: seq<T>, b: seq<T>, k: nat)
    requires k <= |a|
    ensures (a + b)[k..] == a[k..] + b && (a + b)[..k] == a[..k]
    ensures k < |a| ==> (a + b)[0] == a[0]
  {
  }

  /** Concatenation is associative. */
  lemma Regroup<T>(x: seq<T>, y: seq<T>, z: seq<T>)
    ensures x + (y + z) == (x + y) + z
  {
  }

  /** The empty sequence is a right unit. */
  lemma AppendEmpty<T>(x: seq<T>)
    ensures x + [] == x
  {
  }
}
