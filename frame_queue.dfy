/**
 * The bounded FIFO queue (`queue.Queue(maxsize=...)`) that connects the
 * pipeline stages, and the drop-oldest push every producer stage uses on it:
 * when the queue is full, take one item off the front, count it as dropped,
 * then put the new item at the back.
 */
module FrameQueue {
  import opened Wrappers

  /** What travels through a queue: a payload, or the `None` a finished producer puts. */
  datatype Queued<T> = Payload(value: T) | Sentinel

  /** Queue contents after one drop-oldest push of `x` onto `q`. */
  function Pushed<T>(q: seq<T>, capacity: nat, x: T): (r: seq<T>)
    requires 0 < capacity
    ensures |r| == if |q| >= capacity then |q| else |q| + 1
    ensures r == (q + [x])[|q| + 1 - |r|..]
    ensures |q| <= capacity ==> |r| <= capacity && r == Newest(q + [x], capacity)
  {
    if |q| >= capacity then q[1..] + [x] else q + [x]
  }

  /** True when a drop-oldest push onto `q` discards its oldest item. */
  predicate Drops<T>(q: seq<T>, capacity: nat)
  {
    |q| >= capacity
  }

  /** Contents after pushing every element of `xs`, in order, with the drop-oldest rule. */
  function PushAll<T>(q: seq<T>, capacity: nat, xs: seq<T>): seq<T>
    requires 0 < capacity
    decreases |xs|
  {
    if xs == [] then q else PushAll(Pushed(q, capacity, xs[0]), capacity, xs[1..])
  }

  /** Number of items discarded while pushing every element of `xs`. */
  function DropCount<T>(q: seq<T>, capacity: nat, xs: seq<T>): nat
    requires 0 < capacity
    decreases |xs|
  {
    if xs == [] then 0
    else (if Drops(q, capacity) then 1 else 0) + DropCount(Pushed(q, capacity, xs[0]), capacity, xs[1..])
  }

  /** The last `capacity` elements of `s` (all of `s` when it is shorter). */
  function Newest<T>(s: seq<T>, capacity: nat): seq<T>
  {
    if |s| <= capacity then s else s[|s| - capacity..]
  }

  /** Pushing one more element extends a run of pushes by one drop-oldest step. */
  lemma {:induction false} PushAllSnoc<T>(q: seq<T>, capacity: nat, xs: seq<T>, x: T)
    requires 0 < capacity
    ensures PushAll(q, capacity, xs + [x]) == Pushed(PushAll(q, capacity, xs), capacity, x)
    ensures DropCount(q, capacity, xs + [x])
         == DropCount(q, capacity, xs) + (if Drops(PushAll(q, capacity, xs), capacity) then 1 else 0)
    decreases |xs|
  {
    if xs == [] {
      assert xs + [x] == [x];
      assert [x][1..] == [];
    } else {
      assert (xs + [x])[0] == xs[0];
      assert (xs + [x])[1..] == xs[1..] + [x];
      PushAllSnoc(Pushed(q, capacity, xs[0]), capacity, xs[1..], x);
    }
  }

  /**
   * The queue never holds more than its capacity, it holds exactly the most
   * recent pushes in order, and every push beyond the capacity dropped one
   * item: the drop count is everything pushed minus what survives.
   */
  lemma {:induction false} PushAllKeepsNewest<T>(q: seq<T>, capacity: nat, xs: seq<T>)
    requires 0 < capacity && |q| <= capacity
    ensures PushAll(q, capacity, xs) == Newest(q + xs, capacity)
    ensures |PushAll(q, capacity, xs)| <= capacity
    ensures DropCount(q, capacity, xs) == |q| + |xs| - |PushAll(q, capacity, xs)|
    decreases |xs|
  {
    if xs == [] {
      assert q + xs == q;
    } else {
      var p := Pushed(q, capacity, xs[0]);
      PushAllKeepsNewest(p, capacity, xs[1..]);
      NewestAfterPush(q, capacity, xs);
    }
  }

  /** The newest items after the first push and the rest are the newest of everything. */
  lemma NewestAfterPush<T>(q: seq<T>, capacity: nat, xs: seq<T>)
    requires 0 < capacity && |q| <= capacity && xs != []
    ensures Newest(Pushed(q, capacity, xs[0]) + xs[1..], capacity) == Newest(q + xs, capacity)
  {
    NewestAppend(q + [xs[0]], xs[1..], capacity);
    assert q + [xs[0]] + xs[1..] == q + xs;
  }

  /** Cutting to the newest elements before appending changes nothing once cut again. */
  lemma NewestAppend<T>(s: seq<T>, t: seq<T>, capacity: nat)
    ensures Newest(Newest(s, capacity) + t, capacity) == Newest(s + t, capacity)
  {
    if |s| > capacity {
      var k := |s| - capacity;
      assert Newest(s, capacity) + t == (s + t)[k..];
      NewestOfSuffix(s + t, k, capacity);
    }
  }

  /** Dropping a prefix no longer than the overflow does not change the newest elements. */
  lemma NewestOfSuffix<T>(s: seq<T>, k: nat, capacity: nat)
    requires k <= |s| && (k > 0 ==> |s| - k >= capacity)
    ensures Newest(s[k..], capacity) == Newest(s, capacity)
  {
    if k > 0 {
      assert s[k..][|s| - k - capacity..] == s[|s| - capacity..];
    }
  }

  /** The worked example: capacity 3, push A..E, and [C, D, E] remain with two drops. */
  lemma CapacityThreeExample<T>(a: T, b: T, c: T, d: T, e: T)
    ensures PushAll([], 3, [a, b, c, d, e]) == [c, d, e]
    ensures DropCount([], 3, [a, b, c, d, e]) == 2
  {
    var xs := [a, b, c, d, e];
    PushAllKeepsNewest([], 3, xs);
    assert [] + xs == xs;
    assert Newest(xs, 3) == xs[2..] == [c, d, e];
  }

  /** Number of sentinels in a run of queue items. */
  function Sentinels<T>(s: seq<Queued<T>>): nat
  {
    if s == [] then 0 else (if s[0] == Sentinel then 1 else 0) + Sentinels(s[1..])
  }

  lemma {:induction false} SentinelsSnoc<T>(s: seq<Queued<T>>, x: Queued<T>)
    ensures Sentinels(s + [x]) == Sentinels(s) + if x == Sentinel then 1 else 0
  {
    if s == [] {
      assert [x][1..] == [];
    } else {
      assert (s + [x])[1..] == s[1..] + [x];
      SentinelsSnoc(s[1..], x);
    }
  }

  /** The payloads of a run of queue items, in order, sentinels skipped. */
  function Payloads<T>(s: seq<Queued<T>>): (r: seq<T>)
    ensures |r| <= |s|
  {
    if s == [] then []
    else Payloads(s[..|s| - 1]) + (if s[|s| - 1].Payload? then [s[|s| - 1].value] else [])
  }

  lemma PayloadsSnoc<T>(s: seq<Queued<T>>, x: Queued<T>)
    ensures Payloads(s + [x]) == Payloads(s) + (if x.Payload? then [x.value] else [])
  {
    assert (s + [x])[..|s|] == s;
  }

  /**
   * How many items a sink that stops after `n` sentinels takes from `trace`:
   * everything up to and including the `n`-th sentinel, or the whole trace
   * (the sink is then still waiting in `get()`) when there are fewer.
   */
  function StopAfter<T>(trace: seq<Queued<T>>, n: nat): (r: nat)
    ensures r <= |trace|
    ensures Sentinels(trace[..r]) <= n
    ensures r < |trace| ==> Sentinels(trace[..r]) == n
    ensures 0 < r && Sentinels(trace[..r]) == n ==> trace[r - 1] == Sentinel
    ensures r == |trace| && Sentinels(trace) >= n ==> Sentinels(trace[..r]) == n
    ensures forall i :: 0 <= i < r ==> Sentinels(trace[..i]) < n
    decreases |trace|
  {
    if n == 0 || trace == [] then 0
    else
      var rest := StopAfter(trace[1..], if trace[0] == Sentinel then n - 1 else n);
      assert trace[..1 + rest] == [trace[0]] + trace[1..][..rest];
      assert ([trace[0]] + trace[1..][..rest])[1..] == trace[1..][..rest];
      assert trace[1..] == trace[1..][..|trace| - 1];
      assert forall i :: 1 <= i < 1 + rest ==> trace[..i][1..] == trace[1..][..i - 1];
      1 + rest
  }

  /** The front item a consumer takes from a full queue so that a blocking put can proceed. */
  function HandOff<T>(q: seq<T>, capacity: nat): (r: Option<T>)
    ensures r.Some? <==> |q| >= capacity && q != []
    ensures r.Some? ==> r.value == q[0]
  {
    if |q| >= capacity && q != [] then Some(q[0]) else None
  }

  /**
   * A blocking put loses nothing: the item handed to the consumer, followed
   * by the queue afterwards, is the queue before with `x` at the back.
   */
  lemma PutLosesNothing<T>(q: seq<T>, capacity: nat, x: T)
    requires 0 < capacity && |q| <= capacity
    ensures (match HandOff(q, capacity) case Some(y) => [y] case None => []) + Pushed(q, capacity, x) == q + [x]
  {
    if |q| >= capacity {
      assert [q[0]] + (q[1..] + [x]) == q + [x];
    }
  }

  /**
   * A `queue.Queue` with a positive `maxsize`. `Put` is the blocking put of
   * the source: it only waits when the queue is full, until a consumer has
   * taken the front item; the model lets that consumer take it at once and
   * returns it as `handedOff` (delivered, not dropped).
   */
  class BoundedQueue<T> {
    const capacity: nat
    var items: seq<T>

    ghost predicate Valid()
      reads this
    {
      0 < capacity && |items| <= capacity
    }

    constructor (maxsize: nat)
      requires 0 < maxsize
      ensures Valid() && capacity == maxsize && items == []
    {
      capacity := maxsize;
      items := [];
    }

    /** `full()`: the queue holds `maxsize` items. */
    predicate Full()
      reads this
    {
      |items| >= capacity
    }

    /** `get_nowait()`: the front item, or `None` where the source raises `queue.Empty`. */
    method GetNowait() returns (r: Option<T>)
      requires Valid()
      modifies this
      ensures Valid()
      ensures old(items) == [] ==> r == None && items == []
      ensures old(items) != [] ==> r == Some(old(items)[0]) && items == old(items)[1..]
    {
      if items == [] {
        r := None;
      } else {
        r := Some(items[0]);
        items := items[1..];
      }
    }

    /** `put(x)`: appends `x`; on a full queue a consumer first takes the front item. */
    method Put(x: T) returns (handedOff: Option<T>)
      requires Valid()
      modifies this
      ensures Valid()
      ensures handedOff == HandOff(old(items), capacity)
      ensures items == Pushed(old(items), capacity, x)
    {
      if |items| >= capacity {
        handedOff := Some(items[0]);
        items := items[1..];
      } else {
        handedOff := None;
      }
      items := items + [x];
    }
  }

  /**
   * The drop-oldest pattern of every producer stage:
   * `if q.full(): dfa.update(); q.get_nowait()` followed by `q.put(x)`.
   * `drops` is the stage's drop counter.
   */
  method PushDropOldest<T>(q: BoundedQueue<T>, x: T, drops: nat) returns (drops': nat)
    requires q.Valid()
    modifies q
    ensures q.Valid()
    ensures q.items == Pushed(old(q.items), q.capacity, x)
    ensures drops' == drops + if Drops(old(q.items), q.capacity) then 1 else 0
  {
    drops' := drops;
    if q.Full() {
      drops' := drops' + 1;
      var _ := q.GetNowait();
    }
    var _ := q.Put(x);
  }
}
