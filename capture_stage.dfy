/**
 * `capture_thread`: pull a capture from the device on every pass until the
 * stop flag is seen, optionally run the tracker on it, push it onto the
 * device's capture queue with the drop-oldest rule, and finally put one
 * sentinel with a plain `put`.
 */
module CaptureStage {
  import opened Wrappers
  import opened FrameQueue
  import opened PipelineTypes

  /** The item enqueued for one capture: `(capture, frame)` when a tracker is given. */
  function ItemFor(c: Capture, tracker: Option<Tracker>): Queued<CaptureItem>
  {
    match tracker
    case Some(t) => Payload(Tracked(c, t.update(c)))
    case None => Payload(Untracked(c))
  }

  /** The items the stage pushes, one per loop pass, in pass order. */
  function ItemsFor(captures: seq<Capture>, tracker: Option<Tracker>): (r: seq<Queued<CaptureItem>>)
    ensures |r| == |captures|
    ensures forall i :: 0 <= i < |captures| ==> r[i] == ItemFor(captures[i], tracker)
  {
    seq(|captures|, i requires 0 <= i < |captures| => ItemFor(captures[i], tracker))
  }

  /**
   * The stage over the passes made before the stop flag was seen set:
   * `captures[k]` is what `device.update()` returned on pass k. `drops`
   * counts the calls of `dfa.update()`; `handedOff` is the item a consumer
   * took from a full queue so that the final sentinel could be put.
   */
  method Run(captures: seq<Capture>, tracker: Option<Tracker>, q: BoundedQueue<Queued<CaptureItem>>)
    returns (drops: nat, handedOff: Option<Queued<CaptureItem>>)
    requires q.Valid()
    modifies q
    ensures q.Valid()
    ensures drops == DropCount(old(q.items), q.capacity, ItemsFor(captures, tracker))
    ensures q.items == Pushed(PushAll(old(q.items), q.capacity, ItemsFor(captures, tracker)), q.capacity, Sentinel)
    ensures handedOff == HandOff(PushAll(old(q.items), q.capacity, ItemsFor(captures, tracker)), q.capacity)
  {
    ghost var start := q.items;
    ghost var pushed: seq<Queued<CaptureItem>> := [];
    drops := 0;
    var i := 0;
    while i < |captures|
      invariant 0 <= i <= |captures|
      invariant q.Valid()
      invariant pushed == ItemsFor(captures[..i], tracker)
      invariant q.items == PushAll(start, q.capacity, pushed)
      invariant drops == DropCount(start, q.capacity, pushed)
    {
      var item := ItemFor(captures[i], tracker);
      ItemsForSnoc(captures, tracker, i);
      PushAllSnoc(start, q.capacity, pushed, item);
      drops := PushDropOldest(q, item, drops);
      pushed := pushed + [item];
      i := i + 1;
    }
    assert captures[..i] == captures;
    handedOff := q.Put(Sentinel);
  }

  lemma ItemsForSnoc(captures: seq<Capture>, tracker: Option<Tracker>, i: nat)
    requires i < |captures|
    ensures ItemsFor(captures[..i + 1], tracker) == ItemsFor(captures[..i], tracker) + [ItemFor(captures[i], tracker)]
  {
    assert ItemsFor(captures[..i + 1], tracker) == ItemsFor(captures[..i], tracker) + [ItemFor(captures[i], tracker)];
  }

  /**
   * Starting from an empty queue, what is left before the sentinel is the
   * newest `capacity` items in pass order, and every pass beyond the
   * capacity dropped exactly one item.
   */
  lemma FromEmptyQueue(captures: seq<Capture>, tracker: Option<Tracker>, capacity: nat)
    requires 0 < capacity
    ensures PushAll([], capacity, ItemsFor(captures, tracker)) == Newest(ItemsFor(captures, tracker), capacity)
    ensures DropCount([], capacity, ItemsFor(captures, tracker))
         == if |captures| > capacity then |captures| - capacity else 0
  {
    var xs := ItemsFor(captures, tracker);
    PushAllKeepsNewest([], capacity, xs);
    assert [] + xs == xs;
  }
}
