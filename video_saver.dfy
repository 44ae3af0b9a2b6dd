/**
 * `video_saver_thread`: one sink for the annotated colour images of every
 * device. Each frame goes to the encoder and container of its device; after
 * `n_devices` sentinels every encoder is drained and every container closed,
 * including those of devices that sent no frame.
 */
module VideoSaver {
  import opened FrameQueue
  import opened PipelineTypes
  import opened Sinks

  /** The device a video item comes from: the key of `streams` and `containers`. */
  function ItemDevice(item: VideoItem): nat
  {
    item.deviceId
  }

  /** The frames, in order, that the items route to device d. */
  function DeviceFrames(items: seq<VideoItem>, d: nat): (r: seq<Annotated>)
    ensures |r| <= |items|
  {
    if items == [] then []
    else
      var last := items[|items| - 1];
      DeviceFrames(items[..|items| - 1], d) + (if last.deviceId == d then [last.image] else [])
  }

  lemma DeviceFramesSnoc(items: seq<VideoItem>, x: VideoItem, d: nat)
    ensures DeviceFrames(items + [x], d) == DeviceFrames(items, d) + (if x.deviceId == d then [x.image] else [])
  {
    assert (items + [x])[..|items|] == items;
  }

  /** Frames routed to devices 0 .. n - 1 together. */
  function RoutedCount(items: seq<VideoItem>, n: nat): nat
  {
    if n == 0 then 0 else RoutedCount(items, n - 1) + |DeviceFrames(items, n - 1)|
  }

  lemma {:induction false} RoutedCountSnoc(items: seq<VideoItem>, x: VideoItem, n: nat)
    ensures RoutedCount(items + [x], n) == RoutedCount(items, n) + (if x.deviceId < n then 1 else 0)
  {
    if n > 0 {
      RoutedCountSnoc(items, x, n - 1);
      DeviceFramesSnoc(items, x, n - 1);
    }
  }

  /**
   * Routing loses and duplicates nothing: when every item comes from one of
   * the n devices, the containers together hold exactly one frame per item.
   */
  lemma {:induction false} RoutingPartitions(items: seq<VideoItem>, n: nat)
    requires forall i :: 0 <= i < |items| ==> items[i].deviceId < n
    ensures RoutedCount(items, n) == |items|
  {
    if items == [] {
      RoutedCountEmpty(n);
    } else {
      var init := items[..|items| - 1];
      RoutingPartitions(init, n);
      assert init + [items[|items| - 1]] == items;
      RoutedCountSnoc(init, items[|items| - 1], n);
    }
  }

  lemma {:induction false} RoutedCountEmpty(n: nat)
    ensures RoutedCount([], n) == 0
  {
    if n > 0 {
      RoutedCountEmpty(n - 1);
    }
  }

  class Saver {
    const nDevices: nat
    /** The frames encoded into each `device_i.mkv` container, in order. */
    var encoded: seq<seq<Annotated>>
    /** Whether the encoder of each stream was drained by `encode()` with no frame. */
    var drained: seq<bool>
    /** Whether each container was closed. */
    var closed: seq<bool>

    ghost predicate Valid()
      reads this
    {
      |encoded| == nDevices && |drained| == nDevices && |closed| == nDevices
    }

    /** One container and stream per device; nothing encoded or closed yet. */
    constructor (nDevices: nat)
      ensures Valid() && this.nDevices == nDevices
      ensures forall d :: 0 <= d < nDevices ==> encoded[d] == [] && !drained[d] && !closed[d]
    {
      this.nDevices := nDevices;
      encoded := seq(nDevices, d => []);
      drained := seq(nDevices, d => false);
      closed := seq(nDevices, d => false);
    }

    /** `stream.encode(frame)` on the stream of the item's device, muxed into its container. */
    method Encode(item: VideoItem)
      requires Valid() && item.deviceId < nDevices
      modifies this
      ensures Valid()
      ensures encoded == old(encoded)[item.deviceId := old(encoded[item.deviceId]) + [item.image]]
      ensures drained == old(drained) && closed == old(closed)
    {
      encoded := encoded[item.deviceId := encoded[item.deviceId] + [item.image]];
    }

    /** The final loop: drain every encoder and close every container, in device order. */
    method Finalize()
      requires Valid()
      modifies this
      ensures Valid() && encoded == old(encoded)
      ensures forall d :: 0 <= d < nDevices ==> drained[d] && closed[d]
    {
      for i := 0 to nDevices
        invariant Valid() && encoded == old(encoded)
        invariant forall d :: 0 <= d < i ==> drained[d] && closed[d]
      {
        drained := drained[i := true];
        closed := closed[i := true];
      }
    }

    /** Every container holds exactly the frames that `items` route to it. */
    ghost predicate Mirrors(items: seq<VideoItem>)
      requires Valid()
      reads this
    {
      forall d :: 0 <= d < nDevices ==> encoded[d] == DeviceFrames(items, d)
    }

    /** Encoding a frame of a known device extends its container by that frame. */
    method Accept(item: VideoItem, ghost items: seq<VideoItem>)
      requires Valid() && Mirrors(items) && item.deviceId < nDevices
      modifies this
      ensures Valid() && Mirrors(items + [item])
      ensures drained == old(drained) && closed == old(closed)
    {
      forall d | 0 <= d < nDevices
        ensures DeviceFrames(items + [item], d) == DeviceFrames(items, d) + (if item.deviceId == d then [item.image] else [])
      {
        DeviceFramesSnoc(items, item, d);
      }
      Encode(item);
    }

    /** The loop state after the first `i` items of the trace, `finished` being `finished_workers`. */
    ghost predicate Progress(trace: seq<Queued<VideoItem>>, i: nat, finished: nat)
      reads this
    {
      && i <= |trace| && i <= StopAfter(trace, nDevices)
      && finished == Sentinels(trace[..i]) && finished <= nDevices
      && (forall j :: 0 <= j < i ==> !Unknown(trace[j], nDevices, ItemDevice))
      && Valid() && Mirrors(Payloads(trace[..i]))
    }

    /** One pass of the main loop on a sentinel or a frame of a known device. */
    method Step(trace: seq<Queued<VideoItem>>, i: nat, finished: nat) returns (finished': nat)
      requires Progress(trace, i, finished) && i < |trace| && finished < nDevices && !Unknown(trace[i], nDevices, ItemDevice)
      modifies this
      ensures Progress(trace, i + 1, finished')
      ensures drained == old(drained) && closed == old(closed)
    {
      var item := trace[i];
      assert trace[..i + 1] == trace[..i] + [item];
      SentinelsSnoc(trace[..i], item);
      PayloadsSnoc(trace[..i], item);
      if item == Sentinel {
        finished' := finished + 1;
        assert Payloads(trace[..i + 1]) == Payloads(trace[..i]);
      } else {
        finished' := finished;
        Accept(item.value, Payloads(trace[..i]));
      }
    }

    /** A frame of an unknown device raises: nothing is encoded, and the loop ends there. */
    lemma RejectUnknown(trace: seq<Queued<VideoItem>>, i: nat, finished: nat)
      requires Progress(trace, i, finished) && i < |trace| && finished < nDevices && Unknown(trace[i], nDevices, ItemDevice)
      ensures Mirrors(Payloads(trace[..i + 1]))
      ensures SinkOutcome(trace, nDevices, ItemDevice) == Crashed && SinkConsumed(trace, nDevices, ItemDevice) == i + 1
    {
      assert trace[..i + 1] == trace[..i] + [trace[i]];
      PayloadsSnoc(trace[..i], trace[i]);
      forall d | 0 <= d < nDevices
        ensures DeviceFrames(Payloads(trace[..i + 1]), d) == DeviceFrames(Payloads(trace[..i]), d)
      {
        DeviceFramesSnoc(Payloads(trace[..i]), trace[i].value, d);
      }
      CrashesAt(trace, nDevices, ItemDevice, i);
    }

    /** The main loop: route frames until `n_devices` sentinels were counted. */
    method Run(trace: seq<Queued<VideoItem>>) returns (outcome: Outcome, consumed: nat)
      requires Valid() && Mirrors([])
      modifies this
      ensures consumed <= |trace|
      ensures Valid() && Mirrors(Payloads(trace[..consumed]))
      ensures outcome == SinkOutcome(trace, nDevices, ItemDevice) && consumed == SinkConsumed(trace, nDevices, ItemDevice)
      ensures drained == old(drained) && closed == old(closed)
    {
      var i: nat := 0;
      var finished: nat := 0;
      outcome := Waiting;
      assert trace[..0] == [];
      while i < |trace| && finished < nDevices
        invariant Progress(trace, i, finished) && outcome == Waiting
        invariant drained == old(drained) && closed == old(closed)
      {
        if Unknown(trace[i], nDevices, ItemDevice) {
          RejectUnknown(trace, i, finished);
          i := i + 1;
          outcome := Crashed;
          break;
        }
        finished := Step(trace, i, finished);
        i := i + 1;
      }
      consumed := i;
      if outcome == Waiting {
        EndsAt(trace, nDevices, ItemDevice, i);
        if finished == nDevices {
          outcome := Finished;
        }
      }
    }
  }

  /**
   * `video_saver_thread` on one trace of the video queue: each container
   * holds exactly the frames of its device among the items taken, in order;
   * once the sink has its `n_devices` sentinels every container is drained
   * and closed, and otherwise none is.
   */
  method SaveVideo(nDevices: nat, trace: seq<Queued<VideoItem>>)
    returns (outcome: Outcome, consumed: nat, frames: seq<seq<Annotated>>, drained: seq<bool>, closed: seq<bool>)
    ensures outcome == SinkOutcome(trace, nDevices, ItemDevice) && consumed == SinkConsumed(trace, nDevices, ItemDevice)
    ensures |frames| == nDevices && |drained| == nDevices && |closed| == nDevices
    ensures forall d :: 0 <= d < nDevices ==> frames[d] == DeviceFrames(Payloads(trace[..consumed]), d)
    ensures forall d :: 0 <= d < nDevices ==> (drained[d] <==> outcome == Finished) && (closed[d] <==> outcome == Finished)
  {
    var saver := new Saver(nDevices);
    outcome, consumed := saver.Run(trace);
    if outcome == Finished {
      saver.Finalize();
    }
    frames, drained, closed := saver.encoded, saver.drained, saver.closed;
  }
}
