/**
 * `computation_thread`: take items off a device's capture queue until the
 * sentinel, number the frames, apply the optional external transform to the
 * joints (after they were drawn), and fan each frame out to the joints, the
 * video and the visualisation queue with the drop-oldest rule; all three
 * pushes share the stage's one drop counter. On the sentinel it puts one
 * sentinel into each of the three queues and stops.
 */
module ComputationStage {
  import opened Wrappers
  import opened FrameQueue
  import opened PipelineTypes

  // An untracked capture makes the stage crash: unpacking it raises TypeError.

  /** An item the stage processes as a frame: a `(capture, frame)` pair. */
  predicate IsFrame(x: Queued<CaptureItem>)
  {
    x.Payload? && x.value.Tracked?
  }

  /** Number of leading frames of the trace: the items handled before the loop ends. */
  function Leading(trace: seq<Queued<CaptureItem>>): (r: nat)
    ensures r <= |trace|
    ensures forall i :: 0 <= i < r ==> IsFrame(trace[i])
    ensures r < |trace| ==> !IsFrame(trace[r])
  {
    if trace == [] || !IsFrame(trace[0]) then 0 else 1 + Leading(trace[1..])
  }

  /** The joint positions of a body, mapped into the reference frame when a transform is given. */
  function Transformed(b: Body, ext: Option<Rigid>): (r: Body)
    ensures r.id == b.id && r.confidences == b.confidences && |r.positions| == |b.positions|
    ensures ext == None ==> r == b
    ensures ext.Some? ==> forall j :: 0 <= j < |b.positions| ==> r.positions[j] == ToReference(ext.value, b.positions[j])
  {
    match ext
    case None => b
    case Some(t) =>
      b.(positions := seq(|b.positions|, j requires 0 <= j < |b.positions| => ToReference(t, b.positions[j])))
  }

  function TransformedAll(bodies: seq<Body>, ext: Option<Rigid>): (r: seq<Body>)
    ensures |r| == |bodies|
    ensures forall k :: 0 <= k < |bodies| ==> r[k] == Transformed(bodies[k], ext)
  {
    seq(|bodies|, k requires 0 <= k < |bodies| => Transformed(bodies[k], ext))
  }

  /** The joint record emitted for the frame numbered `frameIdx`. */
  function RecordOf(deviceId: nat, ext: Option<Rigid>, frameIdx: nat, item: CaptureItem): JointRecord
    requires item.Tracked?
  {
    JointRecord(frameIdx, item.capture.color.deviceTs, item.capture.color.systemTs, deviceId,
                TransformedAll(item.frame.bodies, ext))
  }

  /** The video/visualisation frame: the colour image annotated with the untransformed bodies. */
  function PictureOf(deviceId: nat, item: CaptureItem): VideoItem
    requires item.Tracked?
  {
    VideoItem(Annotated(item.capture.color, item.frame.bodies), deviceId)
  }

  /** The joint records pushed for the first `n` items of the trace, numbered 0, 1, 2, … */
  function Records(deviceId: nat, ext: Option<Rigid>, trace: seq<Queued<CaptureItem>>, n: nat): (r: seq<Queued<JointRecord>>)
    requires n <= |trace| && forall i :: 0 <= i < n ==> IsFrame(trace[i])
    ensures |r| == n
  {
    seq(n, i requires 0 <= i < n => assert IsFrame(trace[i]); Payload(RecordOf(deviceId, ext, i, trace[i].value)))
  }

  /** The frames pushed to the video and to the visualisation queue for the first `n` items. */
  function Pictures(deviceId: nat, trace: seq<Queued<CaptureItem>>, n: nat): (r: seq<Queued<VideoItem>>)
    requires n <= |trace| && forall i :: 0 <= i < n ==> IsFrame(trace[i])
    ensures |r| == n
  {
    seq(n, i requires 0 <= i < n => assert IsFrame(trace[i]); Payload(PictureOf(deviceId, trace[i].value)))
  }

  /** The outcome the loop reaches on `trace`. */
  function OutcomeOf(trace: seq<Queued<CaptureItem>>): Outcome
  {
    var n := Leading(trace);
    if n == |trace| then Waiting else if trace[n] == Sentinel then Finished else Crashed
  }

  /** A queue's contents once the stage has put its sentinel, if it finished. */
  function Closed<T>(q: seq<Queued<T>>, capacity: nat, finished: bool): seq<Queued<T>>
    requires 0 < capacity
  {
    if finished then Pushed(q, capacity, Sentinel) else q
  }

  /**
   * Every joint record is numbered by its position among the frames the stage
   * consumed, carries the colour image's timestamps and the device id, and
   * holds the transformed bodies; the matching frame keeps the raw bodies.
   */
  lemma {:induction false} RecordsNumbered(deviceId: nat, ext: Option<Rigid>, trace: seq<Queued<CaptureItem>>)
    ensures var n := Leading(trace);
      forall i :: 0 <= i < n ==>
        && Records(deviceId, ext, trace, n)[i].value.frameIdx == i
        && Records(deviceId, ext, trace, n)[i].value.deviceId == deviceId
        && Records(deviceId, ext, trace, n)[i].value.ts == trace[i].value.capture.color.deviceTs
        && Records(deviceId, ext, trace, n)[i].value.bodies == TransformedAll(trace[i].value.frame.bodies, ext)
        && Pictures(deviceId, trace, n)[i].value.image.drawn == trace[i].value.frame.bodies
  {
    var n := Leading(trace);
    forall i | 0 <= i < n
      ensures Records(deviceId, ext, trace, n)[i].value.frameIdx == i
    {
    }
  }

  /** The reference device (no transform) persists exactly what its tracker reported. */
  lemma ReferenceDeviceUntouched(bodies: seq<Body>)
    ensures TransformedAll(bodies, None) == bodies
  {
  }

  lemma RecordsSnoc(deviceId: nat, ext: Option<Rigid>, trace: seq<Queued<CaptureItem>>, n: nat)
    requires n < |trace| && forall i :: 0 <= i <= n ==> IsFrame(trace[i])
    ensures Records(deviceId, ext, trace, n + 1)
         == Records(deviceId, ext, trace, n) + [Payload(RecordOf(deviceId, ext, n, trace[n].value))]
    ensures Pictures(deviceId, trace, n + 1) == Pictures(deviceId, trace, n) + [Payload(PictureOf(deviceId, trace[n].value))]
  {
    assert Records(deviceId, ext, trace, n + 1)
        == Records(deviceId, ext, trace, n) + [Payload(RecordOf(deviceId, ext, n, trace[n].value))];
    assert Pictures(deviceId, trace, n + 1) == Pictures(deviceId, trace, n) + [Payload(PictureOf(deviceId, trace[n].value))];
  }

  /** The three drop-oldest pushes of one frame, sharing the drop counter. */
  method FanOut(record: Queued<JointRecord>, picture: Queued<VideoItem>,
                joints: BoundedQueue<Queued<JointRecord>>,
                video: BoundedQueue<Queued<VideoItem>>,
                vis: BoundedQueue<Queued<VideoItem>>, drops: nat)
    returns (drops': nat)
    requires joints.Valid() && video.Valid() && vis.Valid() && video != vis
    modifies joints, video, vis
    ensures joints.Valid() && video.Valid() && vis.Valid()
    ensures joints.items == Pushed(old(joints.items), joints.capacity, record)
    ensures video.items == Pushed(old(video.items), video.capacity, picture)
    ensures vis.items == Pushed(old(vis.items), vis.capacity, picture)
    ensures drops' == drops + (if Drops(old(joints.items), joints.capacity) then 1 else 0)
                            + (if Drops(old(video.items), video.capacity) then 1 else 0)
                            + (if Drops(old(vis.items), vis.capacity) then 1 else 0)
  {
    drops' := PushDropOldest(joints, record, drops);
    drops' := PushDropOldest(video, picture, drops');
    drops' := PushDropOldest(vis, picture, drops');
  }

  /**
   * `joints_queue.put(None)`, `video_queue.put(None)`, `visualization_queue.put(None)`.
   * Each `handedOff…` is the front item a consumer took from that queue when
   * it was full: delivered to the sink, not dropped.
   */
  method ForwardSentinels(joints: BoundedQueue<Queued<JointRecord>>,
                          video: BoundedQueue<Queued<VideoItem>>,
                          vis: BoundedQueue<Queued<VideoItem>>)
    returns (handedOffJoints: Option<Queued<JointRecord>>, handedOffVideo: Option<Queued<VideoItem>>,
             handedOffVis: Option<Queued<VideoItem>>)
    requires joints.Valid() && video.Valid() && vis.Valid() && video != vis
    modifies joints, video, vis
    ensures joints.Valid() && video.Valid() && vis.Valid()
    ensures joints.items == Pushed(old(joints.items), joints.capacity, Sentinel)
    ensures video.items == Pushed(old(video.items), video.capacity, Sentinel)
    ensures vis.items == Pushed(old(vis.items), vis.capacity, Sentinel)
    ensures handedOffJoints == HandOff(old(joints.items), joints.capacity)
    ensures handedOffVideo == HandOff(old(video.items), video.capacity)
    ensures handedOffVis == HandOff(old(vis.items), vis.capacity)
  {
    handedOffJoints := joints.Put(Sentinel);
    handedOffVideo := video.Put(Sentinel);
    handedOffVis := vis.Put(Sentinel);
  }

  /** The state of the three output queues after the first `n` frames of the trace. */
  ghost predicate FannedOut(deviceId: nat, ext: Option<Rigid>, trace: seq<Queued<CaptureItem>>, n: nat,
                            j0: seq<Queued<JointRecord>>, v0: seq<Queued<VideoItem>>, s0: seq<Queued<VideoItem>>,
                            joints: BoundedQueue<Queued<JointRecord>>,
                            video: BoundedQueue<Queued<VideoItem>>,
                            vis: BoundedQueue<Queued<VideoItem>>, drops: nat)
    requires n <= |trace| && forall i :: 0 <= i < n ==> IsFrame(trace[i])
    reads joints, video, vis
  {
    && joints.Valid() && video.Valid() && vis.Valid()
    && joints.items == PushAll(j0, joints.capacity, Records(deviceId, ext, trace, n))
    && video.items == PushAll(v0, video.capacity, Pictures(deviceId, trace, n))
    && vis.items == PushAll(s0, vis.capacity, Pictures(deviceId, trace, n))
    && drops == DropCount(j0, joints.capacity, Records(deviceId, ext, trace, n))
              + DropCount(v0, video.capacity, Pictures(deviceId, trace, n))
              + DropCount(s0, vis.capacity, Pictures(deviceId, trace, n))
  }

  /** One pass of the loop: frame `n` gets index `n`, is transformed and fanned out. */
  method ProcessFrame(deviceId: nat, ext: Option<Rigid>, trace: seq<Queued<CaptureItem>>, n: nat,
                      ghost j0: seq<Queued<JointRecord>>, ghost v0: seq<Queued<VideoItem>>,
                      ghost s0: seq<Queued<VideoItem>>,
                      joints: BoundedQueue<Queued<JointRecord>>,
                      video: BoundedQueue<Queued<VideoItem>>,
                      vis: BoundedQueue<Queued<VideoItem>>, drops: nat)
    returns (drops': nat)
    requires n < |trace| && forall i :: 0 <= i <= n ==> IsFrame(trace[i])
    requires video != vis && FannedOut(deviceId, ext, trace, n, j0, v0, s0, joints, video, vis, drops)
    modifies joints, video, vis
    ensures FannedOut(deviceId, ext, trace, n + 1, j0, v0, s0, joints, video, vis, drops')
  {
    var item := trace[n].value;
    var record := Payload(RecordOf(deviceId, ext, n, item));
    var picture := Payload(PictureOf(deviceId, item));
    RecordsSnoc(deviceId, ext, trace, n);
    PushAllSnoc(j0, joints.capacity, Records(deviceId, ext, trace, n), record);
    PushAllSnoc(v0, video.capacity, Pictures(deviceId, trace, n), picture);
    PushAllSnoc(s0, vis.capacity, Pictures(deviceId, trace, n), picture);
    drops' := FanOut(record, picture, joints, video, vis, drops);
  }

  /** The loop of the stage: every leading frame is numbered, transformed and fanned out. */
  method ProcessFrames(deviceId: nat, ext: Option<Rigid>, trace: seq<Queued<CaptureItem>>,
                       joints: BoundedQueue<Queued<JointRecord>>,
                       video: BoundedQueue<Queued<VideoItem>>,
                       vis: BoundedQueue<Queued<VideoItem>>)
    returns (processed: nat, drops: nat)
    requires joints.Valid() && video.Valid() && vis.Valid() && video != vis
    modifies joints, video, vis
    ensures processed == Leading(trace)
    ensures FannedOut(deviceId, ext, trace, processed, old(joints.items), old(video.items), old(vis.items),
                      joints, video, vis, drops)
  {
    ghost var j0, v0, s0 := joints.items, video.items, vis.items;
    drops := 0;
    var frameIdx := 0;
    while frameIdx < |trace| && IsFrame(trace[frameIdx])
      invariant 0 <= frameIdx <= |trace|
      invariant forall i :: 0 <= i < frameIdx ==> IsFrame(trace[i])
      invariant FannedOut(deviceId, ext, trace, frameIdx, j0, v0, s0, joints, video, vis, drops)
    {
      drops := ProcessFrame(deviceId, ext, trace, frameIdx, j0, v0, s0, joints, video, vis, drops);
      frameIdx := frameIdx + 1;
    }
    processed := frameIdx;
  }

  method Run(deviceId: nat, ext: Option<Rigid>, trace: seq<Queued<CaptureItem>>,
             joints: BoundedQueue<Queued<JointRecord>>,
             video: BoundedQueue<Queued<VideoItem>>,
             vis: BoundedQueue<Queued<VideoItem>>)
    returns (outcome: Outcome, processed: nat, drops: nat, handedOffJoints: Option<Queued<JointRecord>>,
             handedOffVideo: Option<Queued<VideoItem>>, handedOffVis: Option<Queued<VideoItem>>)
    requires joints.Valid() && video.Valid() && vis.Valid() && video != vis
    modifies joints, video, vis
    ensures joints.Valid() && video.Valid() && vis.Valid()
    ensures processed == Leading(trace) && outcome == OutcomeOf(trace)
    ensures joints.items
         == Closed(PushAll(old(joints.items), joints.capacity, Records(deviceId, ext, trace, processed)),
                   joints.capacity, outcome == Finished)
    ensures video.items
         == Closed(PushAll(old(video.items), video.capacity, Pictures(deviceId, trace, processed)),
                   video.capacity, outcome == Finished)
    ensures vis.items
         == Closed(PushAll(old(vis.items), vis.capacity, Pictures(deviceId, trace, processed)),
                   vis.capacity, outcome == Finished)
    ensures drops == DropCount(old(joints.items), joints.capacity, Records(deviceId, ext, trace, processed))
                   + DropCount(old(video.items), video.capacity, Pictures(deviceId, trace, processed))
                   + DropCount(old(vis.items), vis.capacity, Pictures(deviceId, trace, processed))
    ensures handedOffJoints
         == if outcome == Finished
            then HandOff(PushAll(old(joints.items), joints.capacity, Records(deviceId, ext, trace, processed)),
                         joints.capacity)
            else None
    ensures handedOffVideo
         == if outcome == Finished
            then HandOff(PushAll(old(video.items), video.capacity, Pictures(deviceId, trace, processed)), video.capacity)
            else None
    ensures handedOffVis
         == if outcome == Finished
            then HandOff(PushAll(old(vis.items), vis.capacity, Pictures(deviceId, trace, processed)), vis.capacity)
            else None
  {
    processed, drops := ProcessFrames(deviceId, ext, trace, joints, video, vis);
    outcome := if processed == |trace| then Waiting else if trace[processed] == Sentinel then Finished else Crashed;
    handedOffJoints, handedOffVideo, handedOffVis := None, None, None;
    if outcome == Finished {
      handedOffJoints, handedOffVideo, handedOffVis := ForwardSentinels(joints, video, vis);
    }
  }
}
