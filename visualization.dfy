/**
 * `visualization_main_tread`: one window per device stacked along the right
 * edge of the screen, then a loop that shows each annotated image in its
 * device's window until the first sentinel. The quit key only sets the stop
 * event for the capture stages; the loop goes on until its sentinel.
 */
module Visualization {
  import opened Wrappers
  import opened FrameQueue
  import opened PipelineTypes

  const WindowBarHeight: int := 20
  const TaskbarHeight: int := 30
  const FromBorder: int := 5
  /** `ord("q")`. */
  const QuitKey: int := 113

  datatype LayoutError = ZeroDivision

  /** One `cv2.resizeWindow`/`cv2.moveWindow` placement. */
  datatype Window = Window(width: int, height: int, x: int, y: int)

  /** Python's `int()` of a quotient: truncation toward zero. */
  function TruncDiv(a: int, b: int): (r: int)
    requires b != 0
    ensures b > 0 && a >= 0 ==> r * b <= a < (r + 1) * b
    ensures b > 0 && a < 0 ==> (r - 1) * b < a <= r * b
  {
    var m := if a >= 0 then a else -a;
    if b > 0 then
      DivBounds(m, b);
      if a >= 0 then m / b else -(m / b)
    else
      if a >= 0 then -(m / -b) else m / -b
  }

  lemma DivBounds(a: nat, b: int)
    requires b > 0
    ensures (a / b) * b <= a < (a / b + 1) * b
  {
  }

  /**
   * The window layout for `n` devices on a `screenW`×`screenH` screen for
   * `width`×`height` images: `(screen_h - 30) // n - 20` high, as wide as the
   * aspect ratio allows (truncated), flush with the right border minus 5, and
   * window i at height offset `i * window_h`. Zero devices or a zero image
   * height raise ZeroDivisionError. The aspect ratio is taken exactly, not as
   * a float.
   */
  function Layout(n: int, screenW: int, screenH: int, width: int, height: int): (r: Result<seq<Window>, LayoutError>)
    ensures r.Err? <==> n == 0 || height == 0
  {
    if height == 0 || n == 0 then Err(ZeroDivision)
    else if n < 0 then Ok([])
    else
      var h := FloorDiv(screenH - TaskbarHeight, n) - WindowBarHeight;
      var w := TruncDiv(h * width, height);
      Ok(seq(n, i => Window(w, h, screenW - w - FromBorder, i * h)))
  }

  /** Python's `//`: floor division. */
  function FloorDiv(a: int, b: int): (r: int)
    requires b != 0
    ensures b > 0 ==> r * b <= a < (r + 1) * b
  {
    if b > 0 then a / b else -(a / (-b)) - (if a % (-b) == 0 then 0 else 1)
  }

  /**
   * The layout's promises: one window per device, all of the same size,
   * stacked without gaps from the top, right edges `from_border` from the
   * screen edge, the stack no taller than the screen minus the task bar once
   * each window's title bar is counted, and the width the largest whole
   * number within the image aspect ratio.
   */
  lemma LayoutFits(n: nat, screenW: int, screenH: int, width: nat, height: nat)
    requires n > 0 && height > 0
    ensures var r := Layout(n, screenW, screenH, width, height);
      && r.Ok? && |r.value| == n
      && (forall i :: 0 <= i < n ==> r.value[i].width == r.value[0].width && r.value[i].height == r.value[0].height)
      && (forall i :: 0 <= i < n ==> r.value[i].x + r.value[i].width == screenW - FromBorder)
      && (forall i :: 0 <= i < n ==> r.value[i].y == i * r.value[0].height)
      && n * (r.value[0].height + WindowBarHeight) <= screenH - TaskbarHeight
      && (r.value[0].height >= 0 ==>
            r.value[0].width * height <= r.value[0].height * width < (r.value[0].width + 1) * height)
  {
    var r := Layout(n, screenW, screenH, width, height);
    var h := FloorDiv(screenH - TaskbarHeight, n) - WindowBarHeight;
    assert r.value[0].height == h;
    assert (h + WindowBarHeight) * n <= screenH - TaskbarHeight;
  }

  /**
   * The display loop on one trace of the visualisation queue, `keys[i]` being
   * what `cv2.waitKey(1)` returns after image i: the images shown are every
   * payload up to the first sentinel whatever keys were pressed, the stop
   * event is set exactly when one of those keys was `q`, and the windows are
   * destroyed when the sentinel arrived.
   */
  method Visualize(trace: seq<Queued<VideoItem>>, keys: seq<int>)
    returns (shown: seq<VideoItem>, stopSet: bool, destroyed: bool)
    requires |keys| == |trace|
    ensures var k := StopAfter(trace, 1);
      && shown == Payloads(trace[..k])
      && (stopSet <==> exists i :: 0 <= i < k && trace[i].Payload? && keys[i] == QuitKey)
      && (destroyed <==> Sentinels(trace[..k]) == 1)
  {
    var i := 0;
    shown, stopSet, destroyed := [], false, false;
    assert trace[..0] == [];
    while i < |trace|
      invariant i <= |trace| && i <= StopAfter(trace, 1)
      invariant Sentinels(trace[..i]) == 0
      invariant shown == Payloads(trace[..i])
      invariant stopSet <==> exists j :: 0 <= j < i && trace[j].Payload? && keys[j] == QuitKey
    {
      assert trace[..i + 1] == trace[..i] + [trace[i]];
      SentinelsSnoc(trace[..i], trace[i]);
      PayloadsSnoc(trace[..i], trace[i]);
      if trace[i] == Sentinel {
        destroyed := true;
        i := i + 1;
        break;
      }
      shown := shown + [trace[i].value];
      if keys[i] == QuitKey {
        stopSet := true;
      }
      i := i + 1;
    }
    assert i == StopAfter(trace, 1);
  }
}
