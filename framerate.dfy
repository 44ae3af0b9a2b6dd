/**
 * `FrameRateCalculator`: counts frames and reports the rate once every
 * 600 frames, restarting its window at each report. The clock
 * (`time.perf_counter()`) is an argument: `now` for the reading a call
 * makes first, `restart` for the second reading a report makes after
 * printing.
 */
module FrameRate {
  import opened Wrappers

  const FrameWindow: nat := 600

  datatype RateError =
    | NotStarted    // `end_time - None`: `start()` was never called (TypeError)
    | ZeroElapsed   // no time passed since the window started (ZeroDivisionError)

  /** One more frame counted from `n`, in the window arithmetic. */
  lemma DivModStep(n: nat)
    ensures n % FrameWindow + 1 < FrameWindow ==> (n + 1) % FrameWindow == n % FrameWindow + 1 && (n + 1) / FrameWindow == n / FrameWindow
    ensures n % FrameWindow + 1 == FrameWindow ==> (n + 1) % FrameWindow == 0 && (n + 1) / FrameWindow == n / FrameWindow + 1
  {
  }

  class FrameRateCalculator {
    const frameWindow: nat
    var frameCount: nat
    var startTime: Option<real>
    /** Every `update` so far, the reports made, and the frames those reports covered. */
    ghost var updates: nat
    ghost var reports: nat
    ghost var reportedFrames: nat

    ghost predicate Valid()
      reads this
    {
      frameWindow == FrameWindow && updates == reportedFrames + frameCount
    }

    /** The count is inside its window; it only leaves it when a report fails. */
    predicate Settled()
      reads this
    {
      frameCount < frameWindow
    }

    constructor ()
      ensures Valid() && Settled()
      ensures frameWindow == 600 && frameCount == 0 && startTime == None
      ensures updates == 0 && reports == 0 && reportedFrames == 0
    {
      frameWindow := FrameWindow;
      frameCount := 0;
      startTime := None;
      updates := 0;
      reports := 0;
      reportedFrames := 0;
    }

    /** `start()`: the window starts now. */
    method Start(now: real)
      requires Valid()
      modifies this
      ensures Valid()
      ensures startTime == Some(now)
      ensures frameCount == old(frameCount) && updates == old(updates)
      ensures reports == old(reports) && reportedFrames == old(reportedFrames)
    {
      startTime := Some(now);
    }

    /**
     * `update()`: one more frame. On reaching the window it reads the clock
     * (`now`), reports `frame_count / elapsed`, and starts a new window at a
     * second reading (`restart`); without a start time, or with no time
     * elapsed, it raises after counting.
     */
    method Update(now: real, restart: real) returns (r: Result<Option<real>, RateError>)
      requires Valid()
      modifies this
      ensures Valid()
      ensures updates == old(updates) + 1
      ensures old(frameCount) + 1 < frameWindow ==>
        r == Ok(None) && frameCount == old(frameCount) + 1
        && startTime == old(startTime) && reports == old(reports)
      ensures old(frameCount) + 1 >= frameWindow && old(startTime) == None ==>
        r == Err(NotStarted) && frameCount == old(frameCount) + 1
        && startTime == old(startTime) && reports == old(reports)
      ensures old(frameCount) + 1 >= frameWindow && old(startTime) == Some(now) ==>
        r == Err(ZeroElapsed) && frameCount == old(frameCount) + 1
        && startTime == old(startTime) && reports == old(reports)
      ensures old(frameCount) + 1 >= frameWindow && old(startTime).Some? && old(startTime) != Some(now) ==>
        r == Ok(Some((old(frameCount) + 1) as real / (now - old(startTime).value)))
        && frameCount == 0 && startTime == Some(restart) && reports == old(reports) + 1
        && reportedFrames == old(reportedFrames) + old(frameCount) + 1
      ensures r.Err? || r.value.None? ==> reportedFrames == old(reportedFrames)
    {
      frameCount := frameCount + 1;
      updates := updates + 1;
      if frameCount >= frameWindow {
        if startTime == None {
          return Err(NotStarted);
        }
        var elapsed := now - startTime.value;
        if elapsed == 0.0 {
          return Err(ZeroElapsed);
        }
        r := Ok(Some(frameCount as real / elapsed));
        startTime := Some(restart);
        reports := reports + 1;
        reportedFrames := reportedFrames + frameCount;
        frameCount := 0;
      } else {
        r := Ok(None);
      }
    }
  }

  /**
   * The clock advances: update i reads `times[i]` and then, if it reports,
   * `restarts[i]`, no earlier; the start and every update come strictly
   * before the update after them.
   */
  predicate Advancing(start: real, times: seq<real>, restarts: seq<real>)
  {
    && |restarts| == |times|
    && (|times| > 0 ==> start < times[0])
    && (forall i :: 0 <= i < |times| ==> times[i] <= restarts[i])
    && forall i :: 0 <= i < |times| - 1 ==> restarts[i] < times[i + 1]
  }

  /**
   * A calculator started at `start` and updated once per reading in
   * `times` (with `restarts` as the second readings): it reports `n div 600` times, each a positive rate, and is
   * left with `n mod 600` frames in its window.
   */
  method CountFrames(start: real, times: seq<real>, restarts: seq<real>) returns (rates: seq<real>, frameCount: nat)
    requires Advancing(start, times, restarts)
    ensures |rates| == |times| / FrameWindow
    ensures frameCount == |times| % FrameWindow
    ensures forall j :: 0 <= j < |rates| ==> rates[j] > 0.0
  {
    var c := new FrameRateCalculator();
    c.Start(start);
    rates := [];
    var i := 0;
    while i < |times|
      invariant 0 <= i <= |times|
      invariant c.Valid() && c.Settled()
      invariant c.frameCount == i % FrameWindow && |rates| == i / FrameWindow
      invariant c.startTime.Some? && (i < |times| ==> c.startTime.value < times[i])
      invariant forall j :: 0 <= j < |rates| ==> rates[j] > 0.0
    {
      DivModStep(i);
      var r := c.Update(times[i], restarts[i]);
      if r.Ok? && r.value.Some? {
        rates := rates + [r.value.value];
      }
      i := i + 1;
    }
    frameCount := c.frameCount;
  }
}
