/**
 * `IMUVisualizer`: two sliding windows of `max_samples` three-axis rows
 * (accelerometer and gyroscope) that each `update` shifts left by the
 * number of new samples and fills from the right, plus the once-a-second
 * frame-rate counter. Drawing the lines and the text is not modelled;
 * the clock is the `now` argument.
 */
module ImuVisualizer {
  import opened Wrappers
  import opened PipelineTypes

  const DefaultMaxSamples: nat := 400

  /** The two vectors of an IMU sample that the plots use. */
  datatype ImuSample = ImuSample(acc: Vec3, gyro: Vec3)

  function Accs(samples: seq<ImuSample>): (r: seq<Vec3>)
    ensures |r| == |samples| && forall i :: 0 <= i < |samples| ==> r[i] == samples[i].acc
  {
    seq(|samples|, i requires 0 <= i < |samples| => samples[i].acc)
  }

  function Gyros(samples: seq<ImuSample>): (r: seq<Vec3>)
    ensures |r| == |samples| && forall i :: 0 <= i < |samples| ==> r[i] == samples[i].gyro
  {
    seq(|samples|, i requires 0 <= i < |samples| => samples[i].gyro)
  }

  /**
   * A window after a batch arrives: the oldest `|batch|` rows fall off the
   * front, the survivors keep their order, and the batch fills the back.
   */
  function Slid<T>(buf: seq<T>, batch: seq<T>): (r: seq<T>)
    requires |batch| <= |buf|
    ensures |r| == |buf|
    ensures forall i :: 0 <= i < |buf| - |batch| ==> r[i] == buf[i + |batch|]
    ensures forall j :: 0 <= j < |batch| ==> r[|buf| - |batch| + j] == batch[j]
  {
    (buf + batch)[|batch|..]
  }

  /** Two updates slide the window as one update with both batches, in order. */
  lemma SlidCompose<T>(buf: seq<T>, s1: seq<T>, s2: seq<T>)
    requires |s1| + |s2| <= |buf|
    ensures Slid(Slid(buf, s1), s2) == Slid(buf, s1 + s2)
  {
    var a := Slid(Slid(buf, s1), s2);
    var b := Slid(buf, s1 + s2);
    forall i | 0 <= i < |buf|
      ensures a[i] == b[i]
    {
      if i < |buf| - |s1| - |s2| {
      } else if i < |buf| - |s2| {
        assert a[i] == Slid(buf, s1)[i + |s2|];
        assert b[i] == (s1 + s2)[i - (|buf| - |s1| - |s2|)];
      } else {
        assert a[i] == s2[i - (|buf| - |s2|)];
        assert b[i] == (s1 + s2)[i - (|buf| - |s1| - |s2|)];
      }
    }
  }

  /** A full window of new samples replaces the whole buffer. */
  lemma SlidFull<T>(buf: seq<T>, batch: seq<T>)
    requires |batch| == |buf|
    ensures Slid(buf, batch) == batch
  {
  }

  /** `np.roll(buf, -k, axis=0)`: row `i` takes the row `k` places further on, wrapping around. */
  function Rolled<T>(buf: seq<T>, k: nat): (r: seq<T>)
    ensures |r| == |buf|
    ensures forall i :: 0 <= i < |buf| ==> r[i] == buf[(i + k) % |buf|]
  {
    if |buf| == 0 then buf
    else seq(|buf|, i requires 0 <= i < |buf| => buf[(i + k) % |buf|])
  }

  method RollArray(a: array<Vec3>, k: nat) returns (b: array<Vec3>)
    ensures fresh(b)
    ensures b[..] == Rolled(a[..], k)
  {
    var n := a.Length;
    b := new Vec3[n](i reads a requires 0 <= i < n => a[(i + k) % n]);
  }

  /** Rolling by the batch length and overwriting the last rows with the batch is the slide. */
  lemma RollThenWrite<T>(buf: seq<T>, batch: seq<T>)
    requires |batch| <= |buf|
    ensures Rolled(buf, |batch|)[..|buf| - |batch|] + batch == Slid(buf, batch)
  {
    var r := Rolled(buf, |batch|)[..|buf| - |batch|] + batch;
    forall i | 0 <= i < |buf| - |batch|
      ensures r[i] == Slid(buf, batch)[i]
    {
      assert (i + |batch|) % |buf| == i + |batch|;
    }
  }

  /**
   * The loop of `update` over the batch: row `i` of the batch goes to row
   * `-len(batch) + i` of both buffers; the rows before are untouched.
   */
  method WriteTail(accel: array<Vec3>, gyro: array<Vec3>, samples: seq<ImuSample>)
    requires accel != gyro && accel.Length == gyro.Length && |samples| <= accel.Length
    modifies accel, gyro
    ensures accel[..] == old(accel[..])[..accel.Length - |samples|] + Accs(samples)
    ensures gyro[..] == old(gyro[..])[..gyro.Length - |samples|] + Gyros(samples)
  {
    var n := accel.Length;
    var k := |samples|;
    var i := 0;
    while i < k
      invariant 0 <= i <= k
      invariant forall j :: 0 <= j < n - k ==> accel[j] == old(accel[j]) && gyro[j] == old(gyro[j])
      invariant forall j :: 0 <= j < i ==> accel[n - k + j] == samples[j].acc && gyro[n - k + j] == samples[j].gyro
    {
      accel[n - k + i] := samples[i].acc;
      gyro[n - k + i] := samples[i].gyro;
      i := i + 1;
    }
    assert accel[..] == old(accel[..])[..n - k] + Accs(samples);
    assert gyro[..] == old(gyro[..])[..n - k] + Gyros(samples);
  }

  class Visualizer {
    const maxSamples: nat
    const xAxis: seq<int>
    var accelBuffer: array<Vec3>
    var gyroBuffer: array<Vec3>
    var frames: nat
    var lastTime: real

    ghost predicate Valid()
      reads this
    {
      && accelBuffer.Length == maxSamples && gyroBuffer.Length == maxSamples
      && accelBuffer != gyroBuffer && |xAxis| == maxSamples
    }

    /** `__init__`: zeroed buffers, `x_axis` = 0 .. max_samples - 1, the frame counter started at `now`. */
    constructor (maxSamples: nat, now: real)
      ensures Valid() && this.maxSamples == maxSamples
      ensures forall i :: 0 <= i < maxSamples ==> xAxis[i] == i
      ensures forall i :: 0 <= i < maxSamples ==> accelBuffer[i] == Vec3(0.0, 0.0, 0.0)
      ensures forall i :: 0 <= i < maxSamples ==> gyroBuffer[i] == Vec3(0.0, 0.0, 0.0)
      ensures frames == 0 && lastTime == now
      ensures fresh(accelBuffer) && fresh(gyroBuffer)
    {
      this.maxSamples := maxSamples;
      xAxis := seq(maxSamples, i => i);
      accelBuffer := new Vec3[maxSamples](_ => Vec3(0.0, 0.0, 0.0));
      gyroBuffer := new Vec3[maxSamples](_ => Vec3(0.0, 0.0, 0.0));
      frames := 0;
      lastTime := now;
    }

    /**
     * `_update_fps`: one more frame; once a second or more has passed it
     * reports frames per second and restarts the count at `now`.
     */
    method UpdateFps(now: real) returns (fps: Option<real>)
      requires Valid()
      modifies this
      ensures Valid()
      ensures accelBuffer == old(accelBuffer) && gyroBuffer == old(gyroBuffer)
      ensures now - old(lastTime) >= 1.0 ==>
        fps == Some((old(frames) + 1) as real / (now - old(lastTime))) && frames == 0 && lastTime == now
      ensures now - old(lastTime) < 1.0 ==>
        fps == None && frames == old(frames) + 1 && lastTime == old(lastTime)
    {
      frames := frames + 1;
      var dt := now - lastTime;
      if dt >= 1.0 {
        fps := Some(frames as real / dt);
        frames := 0;
        lastTime := now;
      } else {
        fps := None;
      }
    }

    /**
     * `update`: counts the frame, then, for a non-empty batch, rolls both
     * buffers and writes the batch into their last rows. A batch longer
     * than the window rolls and then fails on its first row (IndexError).
     */
    method Update(samples: seq<ImuSample>, now: real) returns (fps: Option<real>, indexError: bool)
      requires Valid()
      modifies this
      ensures Valid()
      ensures now - old(lastTime) >= 1.0 ==>
        fps == Some((old(frames) + 1) as real / (now - old(lastTime))) && frames == 0 && lastTime == now
      ensures now - old(lastTime) < 1.0 ==>
        fps == None && frames == old(frames) + 1 && lastTime == old(lastTime)
      ensures indexError <==> |samples| > maxSamples
      ensures samples == [] ==>
        accelBuffer == old(accelBuffer) && gyroBuffer == old(gyroBuffer)
        && accelBuffer[..] == old(accelBuffer[..]) && gyroBuffer[..] == old(gyroBuffer[..])
      ensures 0 < |samples| <= maxSamples ==>
        accelBuffer[..] == Slid(old(accelBuffer[..]), Accs(samples))
        && gyroBuffer[..] == Slid(old(gyroBuffer[..]), Gyros(samples))
      ensures |samples| > maxSamples ==>
        accelBuffer[..] == Rolled(old(accelBuffer[..]), |samples|)
        && gyroBuffer[..] == Rolled(old(gyroBuffer[..]), |samples|)
    {
      fps := UpdateFps(now);
      indexError := false;
      if samples != [] {
        indexError := Shift(samples);
      }
    }

    /** The buffer part of `update` for a non-empty batch: roll both buffers, then write the tail rows. */
    method Shift(samples: seq<ImuSample>) returns (indexError: bool)
      requires Valid() && samples != []
      modifies this
      ensures Valid() && frames == old(frames) && lastTime == old(lastTime)
      ensures indexError <==> |samples| > maxSamples
      ensures |samples| <= maxSamples ==>
        accelBuffer[..] == Slid(old(accelBuffer[..]), Accs(samples))
        && gyroBuffer[..] == Slid(old(gyroBuffer[..]), Gyros(samples))
      ensures |samples| > maxSamples ==>
        accelBuffer[..] == Rolled(old(accelBuffer[..]), |samples|)
        && gyroBuffer[..] == Rolled(old(gyroBuffer[..]), |samples|)
    {
      var k := |samples|;
      ghost var a0 := accelBuffer[..];
      ghost var g0 := gyroBuffer[..];
      var a := RollArray(accelBuffer, k);
      var g := RollArray(gyroBuffer, k);
      accelBuffer, gyroBuffer := a, g;
      if k > maxSamples {
        return true;
      }
      WriteTail(a, g, samples);
      RollThenWrite(a0, Accs(samples));
      RollThenWrite(g0, Gyros(samples));
      return false;
    }
  }
}
