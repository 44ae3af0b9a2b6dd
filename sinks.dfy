/**
 * The loop shared by the two sinks fed by every device, `body_saver_thread`
 * and `video_saver_thread`: take items until `n_devices` sentinels have been
 * counted; a payload from a device id outside `0 .. n_devices - 1` raises
 * KeyError at the per-device lookup.
 */
module Sinks {
  import opened FrameQueue
  import opened PipelineTypes

  /** A payload whose device has no buffer, stream or container. */
  predicate Unknown<T>(x: Queued<T>, nDevices: nat, device: T -> nat)
  {
    x.Payload? && device(x.value) >= nDevices
  }

  /** Number of leading items of the trace that are not from an unknown device. */
  function KnownPrefix<T>(trace: seq<Queued<T>>, nDevices: nat, device: T -> nat): (r: nat)
    ensures r <= |trace|
    ensures forall i :: 0 <= i < r ==> !Unknown(trace[i], nDevices, device)
    ensures r < |trace| ==> Unknown(trace[r], nDevices, device)
  {
    if trace == [] || Unknown(trace[0], nDevices, device) then 0
    else 1 + KnownPrefix(trace[1..], nDevices, device)
  }

  /** How the loop ends: KeyError, `n_devices` sentinels, or a trace that runs out. */
  function SinkOutcome<T>(trace: seq<Queued<T>>, nDevices: nat, device: T -> nat): Outcome
  {
    var k := StopAfter(trace, nDevices);
    if KnownPrefix(trace, nDevices, device) < k then Crashed
    else if Sentinels(trace[..k]) == nDevices then Finished
    else Waiting
  }

  /** How many items the loop takes off its queue, the one that raises included. */
  function SinkConsumed<T>(trace: seq<Queued<T>>, nDevices: nat, device: T -> nat): (r: nat)
    ensures r <= |trace|
  {
    var k := StopAfter(trace, nDevices);
    var g := KnownPrefix(trace, nDevices, device);
    if g < k then g + 1 else k
  }

  /**
   * With only known devices and at least `n_devices` sentinels the sink
   * finishes, right after its `n_devices`-th sentinel.
   */
  lemma FinishesOnEnoughSentinels<T>(trace: seq<Queued<T>>, nDevices: nat, device: T -> nat)
    requires forall i :: 0 <= i < |trace| ==> !Unknown(trace[i], nDevices, device)
    requires Sentinels(trace) >= nDevices
    ensures SinkOutcome(trace, nDevices, device) == Finished
    ensures var r := SinkConsumed(trace, nDevices, device);
            Sentinels(trace[..r]) == nDevices && (r > 0 ==> trace[r - 1] == Sentinel)
  {
    var k := StopAfter(trace, nDevices);
    assert trace[..|trace|] == trace;
    assert KnownPrefix(trace, nDevices, device) == |trace|;
  }

  /**
   * A loop that took the first i items without reaching `n_devices`
   * sentinels and meets an unknown device at item i raises there, having
   * taken i + 1 items.
   */
  lemma {:induction false} CrashesAt<T>(trace: seq<Queued<T>>, nDevices: nat, device: T -> nat, i: nat)
    requires i < |trace| && i <= StopAfter(trace, nDevices) && Sentinels(trace[..i]) < nDevices
    requires forall j :: 0 <= j < i ==> !Unknown(trace[j], nDevices, device)
    requires Unknown(trace[i], nDevices, device)
    ensures SinkOutcome(trace, nDevices, device) == Crashed
    ensures SinkConsumed(trace, nDevices, device) == i + 1
  {
    KnownPrefixAt(trace, nDevices, device, i);
  }

  /** The leading known items end exactly at the first unknown one. */
  lemma {:induction false} KnownPrefixAt<T>(trace: seq<Queued<T>>, nDevices: nat, device: T -> nat, i: nat)
    requires i <= |trace| && forall j :: 0 <= j < i ==> !Unknown(trace[j], nDevices, device)
    requires i < |trace| ==> Unknown(trace[i], nDevices, device)
    ensures KnownPrefix(trace, nDevices, device) == i
    decreases i
  {
    if i > 0 {
      assert forall j :: 0 <= j < i - 1 ==> trace[1..][j] == trace[j + 1];
      KnownPrefixAt(trace[1..], nDevices, device, i - 1);
    }
  }

  /**
   * A loop that stopped after i known items, because the trace ran out or
   * `n_devices` sentinels were counted, took exactly those i items, and
   * finished exactly when it counted `n_devices` sentinels.
   */
  lemma EndsAt<T>(trace: seq<Queued<T>>, nDevices: nat, device: T -> nat, i: nat)
    requires i <= |trace| && i <= StopAfter(trace, nDevices)
    requires forall j :: 0 <= j < i ==> !Unknown(trace[j], nDevices, device)
    requires i == |trace| || Sentinels(trace[..i]) >= nDevices
    ensures SinkConsumed(trace, nDevices, device) == i
    ensures SinkOutcome(trace, nDevices, device) == if Sentinels(trace[..i]) == nDevices then Finished else Waiting
  {
    var k := StopAfter(trace, nDevices);
    assert k == i;
    assert KnownPrefix(trace, nDevices, device) >= i;
  }
}
