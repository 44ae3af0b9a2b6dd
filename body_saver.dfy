/**
 * `body_saver_thread`: one sink for the joint records of every device. It
 * keeps a preallocated row buffer with a fill index per (device, body slot)
 * and a timestamp buffer per device, appends full buffers to datasets that
 * only grow, couples flushes within a record, counts sentinels, and flushes
 * every non-empty buffer before closing the file.
 */
module BodySaver {
  import opened FrameQueue
  import opened PipelineTypes
  import opened Sinks

  /** One buffered or stored joint row: `frame_idx`, `positions`, `confidences`. */
  datatype JointRow = JointRow(frameIdx: int, positions: seq<Vec3>, confidences: seq<int>)

  /** One buffered or stored timestamp row: `ts`, `system_ts`. */
  datatype TsRow = TsRow(ts: int, systemTs: int)

  /**
   * Which body slots of one record are flushed: slot j is flushed when the
   * timestamp buffer was flushed for this record or when some slot i <= j
   * reached the flush size (`reached[i]`), since a flush sets the `flush`
   * flag that every later slot of the record then obeys.
   */
  function CoupledFlushes(tsFlushed: bool, reached: seq<bool>): (r: seq<bool>)
    ensures |r| == |reached|
    ensures forall j :: 0 <= j < |r| ==> (r[j] <==> tsFlushed || exists i :: 0 <= i <= j && reached[i])
    decreases |reached|
  {
    if reached == [] then []
    else
      var first := tsFlushed || reached[0];
      var rest := CoupledFlushes(first, reached[1..]);
      assert forall j :: 1 <= j < |reached| ==> reached[1..][j - 1] == reached[j];
      [first] + rest
  }

  /**
   * A flush of one slot never reaches back: the slots before the first one
   * that reached the flush size are flushed only if the timestamps were.
   */
  lemma FlushesOnlyForward(tsFlushed: bool, reached: seq<bool>, j: nat, i: nat)
    requires i < j < |reached| && reached[j] && !tsFlushed && forall k :: 0 <= k <= i ==> !reached[k]
    ensures !CoupledFlushes(tsFlushed, reached)[i]
    ensures forall k :: j <= k < |reached| ==> CoupledFlushes(tsFlushed, reached)[k]
  {
  }


  /** The flag after slot j is the flag before it, or slot j reaching the flush size. */
  lemma CoupledFlushesSnoc(tsFlushed: bool, reached: seq<bool>, x: bool)
    ensures CoupledFlushes(tsFlushed, reached + [x])
         == CoupledFlushes(tsFlushed, reached)
            + [(if reached == [] then tsFlushed else CoupledFlushes(tsFlushed, reached)[|reached| - 1]) || x]
  {
    var r, r' := CoupledFlushes(tsFlushed, reached), CoupledFlushes(tsFlushed, reached + [x]);
    forall j | 0 <= j < |reached|
      ensures r'[j] == r[j]
    {
      assert (exists i :: 0 <= i <= j && (reached + [x])[i]) <==> (exists i :: 0 <= i <= j && reached[i]) by {
        assert forall i :: 0 <= i <= j ==> (reached + [x])[i] == reached[i];
      }
    }
    var k := |reached|;
    var prev := if k == 0 then tsFlushed else r[k - 1];
    if prev || x {
      if !tsFlushed {
        if x {
          assert (reached + [x])[k];
        } else {
          var i :| 0 <= i <= k - 1 && reached[i];
          assert (reached + [x])[i];
        }
      }
    }
  }

  /**
   * The `flush` flag after the loop over the bodies (the last slot's flag,
   * or the timestamp flush when there are no bodies) is set exactly when
   * anything of the record was flushed.
   */
  lemma LastCoupled(tsFlushed: bool, reached: seq<bool>)
    ensures var r := CoupledFlushes(tsFlushed, reached);
      (if r == [] then tsFlushed else r[|r| - 1]) <==> tsFlushed || true in r
  {
    var r := CoupledFlushes(tsFlushed, reached);
    if true in r && !tsFlushed {
      var k :| 0 <= k < |r| && r[k];
      var i :| 0 <= i <= k && reached[i];
      assert r[|r| - 1];
    }
  }

  function Min(a: nat, b: nat): nat { if a <= b then a else b }

  /** The joint row that body `b` of a record with index `frameIdx` contributes. */
  function RowOf(frameIdx: int, b: Body): JointRow
  {
    JointRow(frameIdx, b.positions, b.confidences)
  }

  /** The rows a record adds to slot (d, s): one when it comes from device d and has a body at position s. */
  function NewRows(rec: JointRecord, d: nat, s: nat): (r: seq<JointRow>)
    ensures |r| <= 1
  {
    if rec.deviceId == d && s < |rec.bodies| then [RowOf(rec.frameIdx, rec.bodies[s])] else []
  }

  /** Every joint row of slot (d, s), in order, that the records contribute. */
  function SlotRows(records: seq<JointRecord>, d: nat, s: nat): (r: seq<JointRow>)
    ensures |r| <= |records|
  {
    if records == [] then []
    else SlotRows(records[..|records| - 1], d, s) + NewRows(records[|records| - 1], d, s)
  }

  /** Every timestamp row of device d, in order. */
  function DeviceTs(records: seq<JointRecord>, d: nat): (r: seq<TsRow>)
    ensures |r| <= |records|
  {
    if records == [] then []
    else
      var last := records[|records| - 1];
      DeviceTs(records[..|records| - 1], d) + (if last.deviceId == d then [TsRow(last.ts, last.systemTs)] else [])
  }

  lemma SlotRowsSnoc(records: seq<JointRecord>, rec: JointRecord, d: nat, s: nat)
    ensures SlotRows(records + [rec], d, s) == SlotRows(records, d, s) + NewRows(rec, d, s)
    ensures DeviceTs(records + [rec], d) == DeviceTs(records, d) + (if rec.deviceId == d then [TsRow(rec.ts, rec.systemTs)] else [])
  {
    assert (records + [rec])[..|records|] == records;
  }

  /**
   * Bodies are stored by their position in the record, so a later slot never
   * holds more rows than an earlier one, and no slot more rows than the
   * device has timestamps.
   */
  lemma {:induction false} SlotsShrink(records: seq<JointRecord>, d: nat, s: nat)
    ensures |SlotRows(records, d, s + 1)| <= |SlotRows(records, d, s)| <= |DeviceTs(records, d)|
  {
    if records != [] {
      SlotsShrink(records[..|records| - 1], d, s);
    }
  }

  /** Every stored frame index of a slot is the frame index of one of the device's records. */
  lemma {:induction false} SlotRowsFromDevice(records: seq<JointRecord>, d: nat, s: nat, i: nat)
    requires i < |SlotRows(records, d, s)|
    ensures exists k :: 0 <= k < |records| && records[k].deviceId == d && s < |records[k].bodies|
                        && SlotRows(records, d, s)[i] == RowOf(records[k].frameIdx, records[k].bodies[s])
  {
    var init := records[..|records| - 1];
    var last := records[|records| - 1];
    if i < |SlotRows(init, d, s)| {
      SlotRowsFromDevice(init, d, s, i);
      var k :| 0 <= k < |init| && init[k].deviceId == d && s < |init[k].bodies|
               && SlotRows(init, d, s)[i] == RowOf(init[k].frameIdx, init[k].bodies[s]);
      assert records[k] == init[k];
    } else {
      assert SlotRows(records, d, s)[i] == NewRows(last, d, s)[0];
    }
  }

  class Saver {
    const nDevices: nat
    const nBodies: nat
    const flushSize: nat

    /** `joint_buffers[(d, s)]`: `flush_size` preallocated rows per slot. */
    const jointRows: array3<JointRow>
    /** `joint_buffers[(d, s)]["idx"]`. */
    const jointFill: array2<nat>
    /** `ts_buffers[d]`: `flush_size` preallocated rows per device. */
    const tsRows: array2<TsRow>
    /** `ts_buffers[d]["idx"]`. */
    const tsFill: array<nat>

    /** The resizable datasets of the body file: `jointsStored[d][s]`, `tsStored[d]`. */
    var jointsStored: seq<seq<seq<JointRow>>>
    var tsStored: seq<seq<TsRow>>
    /** Calls of the file's `flush()`. */
    var storageFlushes: nat
    var closed: bool

    /** Every row handed to each buffer so far. */
    ghost var jointsReceived: seq<seq<seq<JointRow>>>
    ghost var tsReceived: seq<seq<TsRow>>

    ghost predicate Shape()
      reads this
    {
      && 0 < flushSize
      && jointRows.Length0 == nDevices && jointRows.Length1 == nBodies && jointRows.Length2 == flushSize
      && jointFill.Length0 == nDevices && jointFill.Length1 == nBodies
      && tsRows.Length0 == nDevices && tsRows.Length1 == flushSize
      && tsFill.Length == nDevices
      && |jointsStored| == nDevices && |jointsReceived| == nDevices
      && (forall d :: 0 <= d < nDevices ==> |jointsStored[d]| == nBodies)
      && (forall d :: 0 <= d < nDevices ==> |jointsReceived[d]| == nBodies)
      && |tsStored| == nDevices && |tsReceived| == nDevices
    }

    /**
     * Slot (d, s): its fill index is at most `flush_size`, the stored rows are
     * the oldest rows received, and the first `idx` buffered rows are the rest.
     */
    ghost predicate SlotConsistent(d: nat, s: nat)
      requires Shape() && d < nDevices && s < nBodies
      reads this, jointRows, jointFill
    {
      var stored, received := jointsStored[d][s], jointsReceived[d][s];
      && jointFill[d, s] <= flushSize
      && |stored| + jointFill[d, s] == |received|
      && stored == received[..|stored|]
      && forall i :: 0 <= i < jointFill[d, s] ==> jointRows[d, s, i] == received[|stored| + i]
    }

    /** The same for device d's timestamp buffer and datasets. */
    ghost predicate DeviceConsistent(d: nat)
      requires Shape() && d < nDevices
      reads this, tsRows, tsFill
    {
      var stored, received := tsStored[d], tsReceived[d];
      && tsFill[d] <= flushSize
      && |stored| + tsFill[d] == |received|
      && stored == received[..|stored|]
      && forall i :: 0 <= i < tsFill[d] ==> tsRows[d, i] == received[|stored| + i]
    }

    ghost predicate Valid()
      reads this, jointRows, jointFill, tsRows, tsFill
    {
      && Shape()
      && (forall d: nat, s: nat :: d < nDevices && s < nBodies ==> SlotConsistent(d, s))
      && (forall d: nat :: d < nDevices ==> DeviceConsistent(d))
    }

    /** Between records every fill index lies in [0, flush_size). */
    ghost predicate Settled()
      requires Shape()
      reads this, jointFill, tsFill
    {
      && (forall d: nat, s: nat :: d < nDevices && s < nBodies ==> jointFill[d, s] < flushSize)
      && (forall d: nat :: d < nDevices ==> tsFill[d] < flushSize)
    }

    /** Every buffer is empty. */
    ghost predicate Drained()
      requires Shape()
      reads this, jointFill, tsFill
    {
      && (forall d: nat, s: nat :: d < nDevices && s < nBodies ==> jointFill[d, s] == 0)
      && (forall d: nat :: d < nDevices ==> tsFill[d] == 0)
    }

    /** The datasets and the file are created empty, every `idx` is 0. */
    constructor (nDevices: nat, nBodies: nat, flushSize: nat)
      requires 0 < flushSize
      ensures Valid() && Drained() && !closed && storageFlushes == 0
      ensures this.nDevices == nDevices && this.nBodies == nBodies && this.flushSize == flushSize
      ensures forall d: nat, s: nat :: d < nDevices && s < nBodies ==> jointsReceived[d][s] == []
      ensures forall d: nat :: d < nDevices ==> tsReceived[d] == []
      ensures fresh(jointRows) && fresh(jointFill) && fresh(tsRows) && fresh(tsFill)
    {
      this.nDevices := nDevices;
      this.nBodies := nBodies;
      this.flushSize := flushSize;
      jointRows := new JointRow[nDevices, nBodies, flushSize];
      jointFill := new nat[nDevices, nBodies]((d, s) => 0);
      tsRows := new TsRow[nDevices, flushSize];
      tsFill := new nat[nDevices](d => 0);
      jointsStored := seq(nDevices, d => seq(nBodies, s => []));
      jointsReceived := seq(nDevices, d => seq(nBodies, s => []));
      tsStored := seq(nDevices, d => []);
      tsReceived := seq(nDevices, d => []);
      storageFlushes := 0;
      closed := false;
      new;
      assert Shape();
      forall d: nat, s: nat | d < nDevices && s < nBodies
        ensures jointFill[d, s] == 0 && SlotConsistent(d, s)
      {
        assert jointsStored[d][s] == [] && jointsReceived[d][s] == [];
      }
      forall d: nat | d < nDevices
        ensures tsFill[d] == 0 && DeviceConsistent(d)
      {
        assert tsStored[d] == [] && tsReceived[d] == [];
      }
    }

    /**
     * `flush_joint_buffer(d, s)`: grow the slot's datasets by `idx` rows,
     * copy the first `idx` buffered rows there, and reset `idx` to 0.
     */
    method FlushJointBuffer(d: nat, s: nat)
      requires Valid() && d < nDevices && s < nBodies
      modifies this, jointFill
      ensures Valid()
      ensures jointFill[d, s] == 0
      ensures forall d': nat, s': nat :: d' < nDevices && s' < nBodies && (d', s') != (d, s) ==>
                jointFill[d', s'] == old(jointFill[d', s'])
      ensures jointsStored == old(jointsStored)[d := old(jointsStored[d])[s := jointsReceived[d][s]]]
      ensures |jointsStored[d][s]| == |old(jointsStored[d][s])| + old(jointFill[d, s])
      ensures tsStored == old(tsStored) && jointsReceived == old(jointsReceived) && tsReceived == old(tsReceived)
      ensures storageFlushes == old(storageFlushes) && closed == old(closed)
    {
      assert SlotConsistent(d, s);
      var idx := jointFill[d, s];
      var rows := seq(idx, i requires 0 <= i < idx reads jointRows => jointRows[d, s, i]);
      var stored := jointsStored[d][s];
      assert stored + rows == jointsReceived[d][s];
      jointsStored := jointsStored[d := jointsStored[d][s := stored + rows]];
      jointFill[d, s] := 0;
      forall d': nat, s': nat | d' < nDevices && s' < nBodies
        ensures SlotConsistent(d', s')
      {
        assert old(SlotConsistent(d', s'));
      }
      forall d': nat | d' < nDevices
        ensures DeviceConsistent(d')
      {
        assert old(DeviceConsistent(d'));
      }
    }

    /** `flush_ts_buffer(d)`: the same for device d's two timestamp datasets. */
    method FlushTsBuffer(d: nat)
      requires Valid() && d < nDevices
      modifies this, tsFill
      ensures Valid()
      ensures tsFill[d] == 0
      ensures forall d': nat :: d' < nDevices && d' != d ==> tsFill[d'] == old(tsFill[d'])
      ensures tsStored == old(tsStored)[d := tsReceived[d]]
      ensures |tsStored[d]| == |old(tsStored[d])| + old(tsFill[d])
      ensures jointsStored == old(jointsStored) && jointsReceived == old(jointsReceived) && tsReceived == old(tsReceived)
      ensures storageFlushes == old(storageFlushes) && closed == old(closed)
    {
      assert DeviceConsistent(d);
      var idx := tsFill[d];
      var rows := seq(idx, i requires 0 <= i < idx reads tsRows => tsRows[d, i]);
      var stored := tsStored[d];
      assert stored + rows == tsReceived[d];
      tsStored := tsStored[d := stored + rows];
      tsFill[d] := 0;
      forall d': nat, s': nat | d' < nDevices && s' < nBodies
        ensures SlotConsistent(d', s')
      {
        assert old(SlotConsistent(d', s'));
      }
      forall d': nat | d' < nDevices
        ensures DeviceConsistent(d')
      {
        assert old(DeviceConsistent(d'));
      }
    }

    /**
     * Lines `buffer["ts"][idx] = ts` … `flush = True`: write the record's
     * timestamps at `idx`, and flush the device's buffer once it is full.
     */
    method BufferTs(d: nat, row: TsRow) returns (flushed: bool)
      requires Valid() && d < nDevices && tsFill[d] < flushSize
      modifies this, tsRows, tsFill
      ensures Valid()
      ensures flushed <==> old(tsFill[d]) + 1 == flushSize
      ensures tsFill[d] == if flushed then 0 else old(tsFill[d]) + 1
      ensures forall d': nat :: d' < nDevices && d' != d ==> tsFill[d'] == old(tsFill[d'])
      ensures tsReceived == old(tsReceived)[d := old(tsReceived[d]) + [row]]
      ensures jointsReceived == old(jointsReceived) && jointsStored == old(jointsStored)
      ensures storageFlushes == old(storageFlushes) && closed == old(closed)
    {
      assert DeviceConsistent(d);
      var idx := tsFill[d];
      tsRows[d, idx] := row;
      tsFill[d] := idx + 1;
      tsReceived := tsReceived[d := tsReceived[d] + [row]];
      forall d': nat, s': nat | d' < nDevices && s' < nBodies
        ensures SlotConsistent(d', s')
      {
        assert old(SlotConsistent(d', s'));
      }
      forall d': nat | d' < nDevices
        ensures DeviceConsistent(d')
      {
        assert old(DeviceConsistent(d'));
        if d' == d {
          assert tsStored[d] == old(tsStored[d]);
          assert tsReceived[d][..|tsStored[d]|] == old(tsReceived[d])[..|tsStored[d]|];
        }
      }
      flushed := idx + 1 >= flushSize;
      if flushed {
        FlushTsBuffer(d);
      }
    }

    /**
     * Lines `buffer["frame_idx"][idx] = frame_idx` … `flush = True`: write one
     * row into slot (d, s) and flush the slot when it is full or when an
     * earlier flush of this record set the `flush` flag (`force`).
     */
    method BufferJoint(d: nat, s: nat, row: JointRow, force: bool) returns (flushed: bool)
      requires Valid() && d < nDevices && s < nBodies && jointFill[d, s] < flushSize
      modifies this, jointRows, jointFill
      ensures Valid()
      ensures flushed <==> force || old(jointFill[d, s]) + 1 == flushSize
      ensures jointFill[d, s] == if flushed then 0 else old(jointFill[d, s]) + 1
      ensures forall d': nat, s': nat :: d' < nDevices && s' < nBodies && (d', s') != (d, s) ==>
                jointFill[d', s'] == old(jointFill[d', s'])
      ensures jointsReceived == old(jointsReceived)[d := old(jointsReceived[d])[s := old(jointsReceived[d][s]) + [row]]]
      ensures tsReceived == old(tsReceived) && tsStored == old(tsStored)
      ensures storageFlushes == old(storageFlushes) && closed == old(closed)
    {
      assert SlotConsistent(d, s);
      var idx := jointFill[d, s];
      jointRows[d, s, idx] := row;
      jointFill[d, s] := idx + 1;
      jointsReceived := jointsReceived[d := jointsReceived[d][s := jointsReceived[d][s] + [row]]];
      forall d': nat, s': nat | d' < nDevices && s' < nBodies
        ensures SlotConsistent(d', s')
      {
        assert old(SlotConsistent(d', s'));
        if (d', s') == (d, s) {
          assert jointsStored[d][s] == old(jointsStored[d][s]);
          assert jointsReceived[d][s][..|jointsStored[d][s]|] == old(jointsReceived[d][s])[..|jointsStored[d][s]|];
        }
      }
      forall d': nat | d' < nDevices
        ensures DeviceConsistent(d')
      {
        assert old(DeviceConsistent(d'));
      }
      flushed := idx + 1 >= flushSize || force;
      if flushed {
        FlushJointBuffer(d, s);
      }
    }

    /** Whether each of the first n slots of device d reaches the flush size with one more row. */
    ghost function Reached(d: nat, n: nat): (r: seq<bool>)
      requires d < jointFill.Length0 && n <= jointFill.Length1
      reads jointFill
      ensures |r| == n && forall j :: 0 <= j < n ==> (r[j] <==> jointFill[d, j] + 1 == flushSize)
    {
      seq(n, j requires 0 <= j < n reads jointFill => jointFill[d, j] + 1 == flushSize)
    }

    /**
     * The loop over the bodies of one record of device d: the first `n_bodies`
     * bodies in list order, slot = position, with the `flush` flag coupling
     * each slot to the flushes before it in the record.
     */
    method BufferBodies(rec: JointRecord, force: bool) returns (flushed: seq<bool>)
      requires Valid() && rec.deviceId < nDevices
      requires forall s: nat :: s < nBodies ==> jointFill[rec.deviceId, s] < flushSize
      modifies this, jointRows, jointFill
      ensures Valid()
      ensures flushed == CoupledFlushes(force, old(Reached(rec.deviceId, Min(|rec.bodies|, nBodies))))
      ensures forall s: nat :: s < nBodies ==> jointFill[rec.deviceId, s] < flushSize
      ensures forall d': nat, s': nat :: d' < nDevices && s' < nBodies && d' != rec.deviceId ==>
                jointFill[d', s'] == old(jointFill[d', s'])
      ensures forall d': nat, s': nat :: d' < nDevices && s' < nBodies ==>
                jointsReceived[d'][s'] == old(jointsReceived[d'][s']) + NewRows(rec, d', s')
      ensures tsReceived == old(tsReceived) && tsStored == old(tsStored)
      ensures storageFlushes == old(storageFlushes) && closed == old(closed)
    {
      var n := Min(|rec.bodies|, nBodies);
      ghost var reached := Reached(rec.deviceId, n);
      ghost var received0 := jointsReceived;
      ghost var fill0 := Fills();
      flushed := BufferLoop(rec, force, reached, received0, fill0);
    }

    /** The loop of `BufferBodies`, stated over snapshots of the fill indices and the received rows. */
    method BufferLoop(rec: JointRecord, force: bool, ghost reached: seq<bool>,
                      ghost received0: seq<seq<seq<JointRow>>>, ghost fill0: seq<seq<nat>>)
      returns (flushed: seq<bool>)
      requires Valid() && rec.deviceId < nDevices
      requires FilledUpTo(rec.deviceId, fill0, 0) && BufferedUpTo(rec, received0, 0)
      requires |reached| == Min(|rec.bodies|, nBodies)
      requires forall j :: 0 <= j < |reached| ==> (reached[j] <==> fill0[rec.deviceId][j] + 1 == flushSize)
      modifies this, jointRows, jointFill
      ensures Valid()
      ensures FilledUpTo(rec.deviceId, fill0, |reached|) && BufferedUpTo(rec, received0, |reached|)
      ensures flushed == CoupledFlushes(force, reached)
      ensures tsReceived == old(tsReceived) && tsStored == old(tsStored)
      ensures storageFlushes == old(storageFlushes) && closed == old(closed)
    {
      flushed := [];
      assert reached[..0] == [];
      for j := 0 to Min(|rec.bodies|, nBodies)
        invariant Looping(rec, force, reached, received0, fill0, j, flushed)
        invariant tsReceived == old(tsReceived) && tsStored == old(tsStored)
        invariant storageFlushes == old(storageFlushes) && closed == old(closed)
      {
        flushed := Advance(rec, force, reached, received0, fill0, j, flushed);
      }
      assert reached[..|reached|] == reached;
    }

    /** The state of the loop over the bodies after the first j of them. */
    ghost predicate Looping(rec: JointRecord, force: bool, reached: seq<bool>,
                            received0: seq<seq<seq<JointRow>>>, fill0: seq<seq<nat>>, j: nat, flushed: seq<bool>)
      reads this, jointRows, jointFill, tsRows, tsFill
    {
      && Valid() && rec.deviceId < nDevices
      && |reached| == Min(|rec.bodies|, nBodies) && j <= |reached|
      && FilledUpTo(rec.deviceId, fill0, j) && BufferedUpTo(rec, received0, j)
      && (forall k :: 0 <= k < |reached| ==> (reached[k] <==> fill0[rec.deviceId][k] + 1 == flushSize))
      && flushed == CoupledFlushes(force, reached[..j])
    }

    /**
     * One pass of the loop over the bodies, with the `flush` flag the
     * previous slot left (the timestamp flush before the first slot).
     */
    method Advance(rec: JointRecord, force: bool, ghost reached: seq<bool>,
                   ghost received0: seq<seq<seq<JointRow>>>, ghost fill0: seq<seq<nat>>, j: nat, flushed: seq<bool>)
      returns (flushed': seq<bool>)
      requires Looping(rec, force, reached, received0, fill0, j, flushed) && j < |reached|
      modifies this, jointRows, jointFill
      ensures Looping(rec, force, reached, received0, fill0, j + 1, flushed')
      ensures tsReceived == old(tsReceived) && tsStored == old(tsStored)
      ensures storageFlushes == old(storageFlushes) && closed == old(closed)
    {
      var flush := if j == 0 then force else flushed[j - 1];
      var next := BufferNext(rec, j, flush, received0, fill0);
      CoupledFlushesSnoc(force, reached[..j], reached[j]);
      assert reached[..j + 1] == reached[..j] + [reached[j]];
      flushed' := flushed + [next];
    }

    /** The fill indices as a value. */
    ghost function Fills(): (r: seq<seq<nat>>)
      requires Shape()
      reads this, jointFill
      ensures |r| == nDevices && forall d: nat :: d < nDevices ==> |r[d]| == nBodies
      ensures forall d: nat, s: nat :: d < nDevices && s < nBodies ==> r[d][s] == jointFill[d, s]
    {
      seq(nDevices, d requires 0 <= d < nDevices reads jointFill =>
        seq(nBodies, s requires 0 <= s < nBodies reads jointFill => jointFill[d, s]))
    }

    /**
     * Only slots of device d before j have changed their fill index since
     * `fill0`, and every slot of device d is below the flush size.
     */
    ghost predicate FilledUpTo(d: nat, fill0: seq<seq<nat>>, j: nat)
      requires Shape() && d < nDevices
      reads this, jointFill
    {
      && |fill0| == nDevices
      && (forall d': nat :: d' < nDevices ==> |fill0[d']| == nBodies)
      && (forall s: nat :: s < nBodies ==> jointFill[d, s] < flushSize)
      && forall d': nat, s': nat :: d' < nDevices && s' < nBodies && (d' != d || j <= s') ==>
           jointFill[d', s'] == fill0[d'][s']
    }

    /** The slots before j have received this record's row; the others nothing yet. */
    ghost predicate BufferedUpTo(rec: JointRecord, received0: seq<seq<seq<JointRow>>>, j: nat)
      requires Shape()
      reads this
    {
      && |received0| == nDevices
      && (forall d': nat :: d' < nDevices ==> |received0[d']| == nBodies)
      && forall d': nat, s': nat :: d' < nDevices && s' < nBodies ==>
           jointsReceived[d'][s'] == received0[d'][s'] + (if s' < j then NewRows(rec, d', s') else [])
    }

    /** One pass of the loop over the bodies: buffer body j into slot j. */
    method BufferNext(rec: JointRecord, j: nat, flush: bool, ghost received0: seq<seq<seq<JointRow>>>,
                      ghost fill0: seq<seq<nat>>)
      returns (flush': bool)
      requires Valid() && rec.deviceId < nDevices && j < nBodies && j < |rec.bodies|
      requires FilledUpTo(rec.deviceId, fill0, j) && BufferedUpTo(rec, received0, j)
      modifies this, jointRows, jointFill
      ensures Valid() && FilledUpTo(rec.deviceId, fill0, j + 1) && BufferedUpTo(rec, received0, j + 1)
      ensures flush' <==> flush || fill0[rec.deviceId][j] + 1 == flushSize
      ensures tsReceived == old(tsReceived) && tsStored == old(tsStored)
      ensures storageFlushes == old(storageFlushes) && closed == old(closed)
    {
      var d := rec.deviceId;
      flush' := BufferJoint(d, j, RowOf(rec.frameIdx, rec.bodies[j]), flush);
      forall d': nat, s': nat | d' < nDevices && s' < nBodies
        ensures jointsReceived[d'][s'] == received0[d'][s'] + (if s' < j + 1 then NewRows(rec, d', s') else [])
      {
        assert old(jointsReceived[d'][s']) == received0[d'][s'] + (if s' < j then NewRows(rec, d', s') else []);
      }
    }

    /**
     * The body of the main loop for one joint record: buffer its timestamps,
     * then its bodies, and flush the file when anything was flushed.
     */
    method Record(rec: JointRecord) returns (tsFlushed: bool, flushed: seq<bool>)
      requires Valid() && Settled() && rec.deviceId < nDevices
      modifies this, jointRows, jointFill, tsRows, tsFill
      ensures Valid() && Settled()
      ensures tsReceived == old(tsReceived)[rec.deviceId := old(tsReceived[rec.deviceId]) + [TsRow(rec.ts, rec.systemTs)]]
      ensures forall d: nat, s: nat :: d < nDevices && s < nBodies ==>
                jointsReceived[d][s] == old(jointsReceived[d][s]) + NewRows(rec, d, s)
      ensures tsFlushed <==> old(tsFill[rec.deviceId]) + 1 == flushSize
      ensures flushed == CoupledFlushes(tsFlushed, old(Reached(rec.deviceId, Min(|rec.bodies|, nBodies))))
      ensures storageFlushes == old(storageFlushes) + (if tsFlushed || true in flushed then 1 else 0)
      ensures closed == old(closed)
    {
      var d := rec.deviceId;
      tsFlushed := BufferTs(d, TsRow(rec.ts, rec.systemTs));
      flushed := BufferBodies(rec, tsFlushed);
      var flush := if flushed == [] then tsFlushed else flushed[|flushed| - 1];
      LastCoupled(tsFlushed, old(Reached(rec.deviceId, Min(|rec.bodies|, nBodies))));
      if flush {
        FlushFile();
      }
    }

    /** `file.flush()`: the datasets reach the disk; the model only counts the calls. */
    method FlushFile()
      requires Valid()
      modifies this
      ensures Valid()
      ensures storageFlushes == old(storageFlushes) + 1
      ensures jointsStored == old(jointsStored) && tsStored == old(tsStored)
      ensures jointsReceived == old(jointsReceived) && tsReceived == old(tsReceived)
      ensures closed == old(closed)
    {
      storageFlushes := storageFlushes + 1;
      forall d': nat, s': nat | d' < nDevices && s' < nBodies
        ensures SlotConsistent(d', s')
      {
        assert old(SlotConsistent(d', s'));
      }
      forall d': nat | d' < nDevices
        ensures DeviceConsistent(d')
      {
        assert old(DeviceConsistent(d'));
      }
    }

    /** Device d has a non-empty timestamp or joint buffer. */
    ghost predicate Pending(d: nat)
      requires Shape() && d < nDevices
      reads this, jointFill, tsFill
    {
      tsFill[d] > 0 || exists s: nat :: s < nBodies && jointFill[d, s] > 0
    }

    /** `flush_joint_buffer`/`flush_ts_buffer` for every non-empty buffer of device d. */
    method FlushDevice(d: nat) returns (any: bool)
      requires Valid() && d < nDevices
      modifies this, jointFill, tsFill
      ensures Valid()
      ensures tsFill[d] == 0 && forall s: nat :: s < nBodies ==> jointFill[d, s] == 0
      ensures forall d': nat :: d' < nDevices && d' != d ==> tsFill[d'] == old(tsFill[d'])
      ensures forall d': nat, s': nat :: d' < nDevices && s' < nBodies && d' != d ==>
                jointFill[d', s'] == old(jointFill[d', s'])
      ensures any <==> old(Pending(d))
      ensures jointsReceived == old(jointsReceived) && tsReceived == old(tsReceived)
      ensures storageFlushes == old(storageFlushes) && closed == old(closed)
    {
      any := false;
      if tsFill[d] > 0 {
        FlushTsBuffer(d);
        any := true;
      }
      for s := 0 to nBodies
        invariant Valid()
        invariant tsFill[d] == 0
        invariant forall d': nat :: d' < nDevices && d' != d ==> tsFill[d'] == old(tsFill[d'])
        invariant forall s': nat :: s' < s ==> jointFill[d, s'] == 0
        invariant forall d': nat, s': nat :: d' < nDevices && s' < nBodies && (d' != d || s <= s') ==>
                    jointFill[d', s'] == old(jointFill[d', s'])
        invariant any <==> old(tsFill[d]) > 0 || exists s': nat :: s' < s && old(jointFill[d, s']) > 0
        invariant jointsReceived == old(jointsReceived) && tsReceived == old(tsReceived)
        invariant storageFlushes == old(storageFlushes) && closed == old(closed)
      {
        if jointFill[d, s] > 0 {
          FlushJointBuffer(d, s);
          any := true;
        }
      }
    }

    /**
     * After the last sentinel: flush every non-empty buffer, flush the file
     * if anything was written, and close it. Nothing received is lost.
     */
    method FinalFlush() returns (any: bool)
      requires Valid()
      modifies this, jointFill, tsFill
      ensures Valid() && Drained() && closed
      ensures jointsStored == jointsReceived && tsStored == tsReceived
      ensures any <==> exists d: nat :: d < nDevices && old(Pending(d))
      ensures storageFlushes == old(storageFlushes) + (if any then 1 else 0)
      ensures jointsReceived == old(jointsReceived) && tsReceived == old(tsReceived)
    {
      any := false;
      for d := 0 to nDevices
        invariant Valid()
        invariant forall d': nat :: d' < d ==> tsFill[d'] == 0
        invariant forall d': nat, s': nat :: d' < d && s' < nBodies ==> jointFill[d', s'] == 0
        invariant forall d': nat :: d <= d' < nDevices ==> tsFill[d'] == old(tsFill[d'])
        invariant forall d': nat, s': nat :: d <= d' < nDevices && s' < nBodies ==> jointFill[d', s'] == old(jointFill[d', s'])
        invariant any <==> exists d': nat :: d' < d && old(Pending(d'))
        invariant jointsReceived == old(jointsReceived) && tsReceived == old(tsReceived)
        invariant storageFlushes == old(storageFlushes)
      {
        assert Pending(d) == old(Pending(d));
        var flushed := FlushDevice(d);
        any := any || flushed;
      }
      label drained:
      if any {
        storageFlushes := storageFlushes + 1;
      }
      closed := true;
      forall d: nat, s: nat | d < nDevices && s < nBodies
        ensures SlotConsistent(d, s) && jointsStored[d][s] == jointsReceived[d][s]
      {
        assert old@drained(SlotConsistent(d, s));
      }
      forall d: nat | d < nDevices
        ensures DeviceConsistent(d) && tsStored[d] == tsReceived[d]
      {
        assert old@drained(DeviceConsistent(d));
      }
      forall d: nat | d < nDevices
        ensures jointsStored[d] == jointsReceived[d]
      {
        assert forall s: nat :: s < nBodies ==> jointsStored[d][s] == jointsReceived[d][s];
      }
    }

    /** The rows received so far are exactly those that `records` contribute. */
    ghost predicate Mirrors(records: seq<JointRecord>)
      requires Shape()
      reads this
    {
      && (forall d: nat, s: nat :: d < nDevices && s < nBodies ==> jointsReceived[d][s] == SlotRows(records, d, s))
      && (forall d: nat :: d < nDevices ==> tsReceived[d] == DeviceTs(records, d))
    }

    /** One record of a known device, taken after `records`. */
    method Accept(rec: JointRecord, ghost records: seq<JointRecord>)
      requires Valid() && Settled() && Mirrors(records) && rec.deviceId < nDevices
      modifies this, jointRows, jointFill, tsRows, tsFill
      ensures Valid() && Settled() && Mirrors(records + [rec])
      ensures storageFlushes <= old(storageFlushes) + 1 && closed == old(closed)
    {
      var _, _ := Record(rec);
      forall d: nat, s: nat | d < nDevices && s < nBodies
        ensures jointsReceived[d][s] == SlotRows(records + [rec], d, s)
      {
        SlotRowsSnoc(records, rec, d, s);
      }
      forall d: nat | d < nDevices
        ensures tsReceived[d] == DeviceTs(records + [rec], d)
      {
        SlotRowsSnoc(records, rec, d, 0);
      }
    }

    /** A record of an unknown device raises: it contributes no row, and the loop ends there. */
    lemma RejectUnknown(trace: seq<Queued<JointRecord>>, i: nat, finished: nat)
      requires Progress(trace, i, finished) && i < |trace| && finished < nDevices && Unknown(trace[i], nDevices, RecordDevice)
      ensures Mirrors(Payloads(trace[..i + 1]))
      ensures SinkOutcome(trace, nDevices, RecordDevice) == Crashed && SinkConsumed(trace, nDevices, RecordDevice) == i + 1
    {
      assert trace[..i + 1] == trace[..i] + [trace[i]];
      PayloadsSnoc(trace[..i], trace[i]);
      ghost var records := Payloads(trace[..i]);
      forall d: nat, s: nat | d < nDevices && s < nBodies
        ensures jointsReceived[d][s] == SlotRows(records + [trace[i].value], d, s)
      {
        SlotRowsSnoc(records, trace[i].value, d, s);
      }
      forall d: nat | d < nDevices
        ensures tsReceived[d] == DeviceTs(records + [trace[i].value], d)
      {
        SlotRowsSnoc(records, trace[i].value, d, 0);
      }
      CrashesAt(trace, nDevices, RecordDevice, i);
    }

    /** The loop state after the first i items of the trace, `finished` being `finished_workers`. */
    ghost predicate Progress(trace: seq<Queued<JointRecord>>, i: nat, finished: nat)
      reads this, jointRows, jointFill, tsRows, tsFill
    {
      && i <= |trace| && i <= StopAfter(trace, nDevices)
      && finished == Sentinels(trace[..i]) && finished <= nDevices
      && (forall j :: 0 <= j < i ==> !Unknown(trace[j], nDevices, RecordDevice))
      && Valid() && Settled() && Mirrors(Payloads(trace[..i]))
    }

    /** One pass of the main loop on an item that is a sentinel or a record of a known device. */
    method Step(trace: seq<Queued<JointRecord>>, i: nat, finished: nat) returns (finished': nat)
      requires Progress(trace, i, finished) && i < |trace| && finished < nDevices && !Unknown(trace[i], nDevices, RecordDevice)
      modifies this, jointRows, jointFill, tsRows, tsFill
      ensures Progress(trace, i + 1, finished')
      ensures storageFlushes <= old(storageFlushes) + 1 && closed == old(closed)
    {
      var item := trace[i];
      assert trace[..i + 1] == trace[..i] + [item];
      SentinelsSnoc(trace[..i], item);
      PayloadsSnoc(trace[..i], item);
      if item == Sentinel {
        finished' := finished + 1;
        assert Payloads(trace[..i + 1]) == Payloads(trace[..i]);
      } else {
        finished' := finished;
        Accept(item.value, Payloads(trace[..i]));
      }
    }

    /** One pass of the main loop: a record of an unknown device raises, anything else is taken. */
    method Take(trace: seq<Queued<JointRecord>>, i: nat, finished: nat) returns (finished': nat, crashed: bool)
      requires Progress(trace, i, finished) && i < |trace| && finished < nDevices
      modifies this, jointRows, jointFill, tsRows, tsFill
      ensures crashed == Unknown(trace[i], nDevices, RecordDevice)
      ensures crashed ==> && Valid() && Settled() && Mirrors(Payloads(trace[..i + 1]))
                          && SinkOutcome(trace, nDevices, RecordDevice) == Crashed
                          && SinkConsumed(trace, nDevices, RecordDevice) == i + 1
      ensures !crashed ==> Progress(trace, i + 1, finished')
      ensures storageFlushes <= old(storageFlushes) + 1 && closed == old(closed)
    {
      crashed := Unknown(trace[i], nDevices, RecordDevice);
      if crashed {
        finished' := finished;
        RejectUnknown(trace, i, finished);
      } else {
        finished' := Step(trace, i, finished);
      }
    }

    /**
     * The main loop: take items until `n_devices` sentinels were counted,
     * raising KeyError on a record from an unknown device.
     */
    method Run(trace: seq<Queued<JointRecord>>) returns (outcome: Outcome, consumed: nat)
      requires Valid() && Settled() && Mirrors([])
      modifies this, jointRows, jointFill, tsRows, tsFill
      ensures consumed <= |trace|
      ensures Valid() && Settled() && Mirrors(Payloads(trace[..consumed]))
      ensures outcome == SinkOutcome(trace, nDevices, RecordDevice) && consumed == SinkConsumed(trace, nDevices, RecordDevice)
      ensures storageFlushes <= old(storageFlushes) + consumed && closed == old(closed)
    {
      var i: nat := 0;
      var finished: nat := 0;
      outcome := Waiting;
      assert trace[..0] == [];
      while i < |trace| && finished < nDevices
        invariant Progress(trace, i, finished) && outcome == Waiting
        invariant storageFlushes <= old(storageFlushes) + i && closed == old(closed)
      {
        var crashed;
        finished, crashed := Take(trace, i, finished);
        i := i + 1;
        if crashed {
          outcome := Crashed;
          break;
        }
      }
      consumed := i;
      if outcome == Waiting {
        EndsAt(trace, nDevices, RecordDevice, i);
        if finished == nDevices {
          outcome := Finished;
        }
      }
    }
  }

  /** The device a joint record comes from: the key of `ts_buffers`. */
  function RecordDevice(rec: JointRecord): nat
  {
    rec.deviceId
  }

  /**
   * `body_saver_thread` on one trace of the joints queue: the datasets it has
   * written when its loop ends. Every dataset is a prefix of the rows the
   * consumed records contribute, and once the saver took its `n_devices`
   * sentinels and did the final flush it is exactly those rows; the file is
   * flushed at most once per record plus once at the end.
   */
  method SaveBodies(nDevices: nat, nBodies: nat, flushSize: nat, trace: seq<Queued<JointRecord>>)
    returns (outcome: Outcome, consumed: nat, joints: seq<seq<seq<JointRow>>>, ts: seq<seq<TsRow>>, fileFlushes: nat)
    requires 0 < flushSize
    ensures outcome == SinkOutcome(trace, nDevices, RecordDevice) && consumed == SinkConsumed(trace, nDevices, RecordDevice)
    ensures |joints| == nDevices && |ts| == nDevices
    ensures forall d :: 0 <= d < nDevices ==> |joints[d]| == nBodies
    ensures forall d, s :: 0 <= d < nDevices && 0 <= s < nBodies ==>
              joints[d][s] <= SlotRows(Payloads(trace[..consumed]), d, s)
    ensures forall d :: 0 <= d < nDevices ==> ts[d] <= DeviceTs(Payloads(trace[..consumed]), d)
    ensures outcome == Finished ==> forall d, s :: 0 <= d < nDevices && 0 <= s < nBodies ==>
              joints[d][s] == SlotRows(Payloads(trace[..consumed]), d, s)
    ensures outcome == Finished ==> forall d :: 0 <= d < nDevices ==> ts[d] == DeviceTs(Payloads(trace[..consumed]), d)
    ensures fileFlushes <= consumed + 1
  {
    var saver := new Saver(nDevices, nBodies, flushSize);
    outcome, consumed := saver.Run(trace);
    if outcome == Finished {
      var _ := saver.FinalFlush();
    }
    joints, ts, fileFlushes := saver.jointsStored, saver.tsStored, saver.storageFlushes;
    ghost var records := Payloads(trace[..consumed]);
    forall d: nat, s: nat | d < nDevices && s < nBodies
      ensures joints[d][s] <= SlotRows(records, d, s)
    {
      assert saver.SlotConsistent(d, s);
    }
    forall d: nat | d < nDevices
      ensures ts[d] <= DeviceTs(records, d)
    {
      assert saver.DeviceConsistent(d);
    }
  }
}
