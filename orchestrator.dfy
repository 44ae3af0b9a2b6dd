/**
 * `default_pipeline` and `_default_device_initialization`: how many devices
 * there are, the order they are initialised in, each device's wired-sync
 * mode and configuration, which computation stage gets an external
 * transform, and the order the threads are started and joined in.
 */
module Orchestrator {
  import opened Wrappers
  import opened PipelineTypes
  import opened FrameQueue

  /** The capacity of every queue the pipeline creates. */
  const QueueSize: nat := 10

  datatype WiredSyncMode = Standalone | Master | Subordinate
  datatype ColorFormat = ColorBGRA32
  datatype ColorResolution = Resolution1080P
  datatype DepthMode = WideFov2x2Binned

  /** The fields `_default_device_initialization` sets on the configuration. */
  datatype Configuration = Configuration(
    colorFormat: ColorFormat, colorResolution: ColorResolution, depthMode: DepthMode,
    synchronizedImagesOnly: bool, wiredSyncMode: WiredSyncMode)

  datatype SetupError = KeyError

  /** A calibration matrix of `trans_matrices`: 4×4, row-major. */
  type Homogeneous = m: seq<seq<real>> | |m| == 4 && forall i :: 0 <= i < 4 ==> |m[i]| == 4
    witness [[1.0, 0.0, 0.0, 0.0], [0.0, 1.0, 0.0, 0.0], [0.0, 0.0, 1.0, 0.0], [0.0, 0.0, 0.0, 1.0]]

  /** `n_devices`: the reference device plus one per calibration matrix. */
  function DeviceCount(transMatrices: Option<map<int, Homogeneous>>): (r: nat)
    ensures r >= 1
    ensures transMatrices.None? ==> r == 1
    ensures transMatrices.Some? ==> r == |transMatrices.value| + 1
  {
    match transMatrices
    case None => 1
    case Some(table) => |table| + 1
  }

  /** `range(n_devices - 1, -1, -1)`: the secondaries first, device 0 last. */
  function InitOrder(n: nat): (r: seq<nat>)
    ensures |r| == n
    ensures forall k :: 0 <= k < n ==> r[k] == n - 1 - k
  {
    if n == 0 then [] else [n - 1] + InitOrder(n - 1)
  }

  /** Every device is initialised exactly once, and device 0 last. */
  lemma InitOrderCovers(n: nat)
    ensures forall i :: 0 <= i < n ==> i in InitOrder(n) && multiset(InitOrder(n))[i] == 1
    ensures n > 0 ==> InitOrder(n)[n - 1] == 0
  {
    var r := InitOrder(n);
    forall i | 0 <= i < n
      ensures i in r && multiset(r)[i] == 1
    {
      assert r[n - 1 - i] == i;
      MultisetOfDistinct(r, i);
    }
  }

  lemma {:induction false} MultisetOfDistinct(r: seq<nat>, i: nat)
    requires forall a, b :: 0 <= a < b < |r| ==> r[a] != r[b]
    requires i in r
    ensures multiset(r)[i] == 1
  {
    if r[0] == i {
      assert i !in r[1..];
      assert r == [r[0]] + r[1..];
    } else {
      assert r == [r[0]] + r[1..];
      MultisetOfDistinct(r[1..], i);
    }
  }

  /** The `device_mode` name the loop chooses for device i. */
  function ModeName(i: nat, n: nat, sync: bool): (r: string)
    ensures r == "main" <==> sync && n != 1 && i == 0
    ensures r == "secondary" <==> sync && n != 1 && i != 0
    ensures r == "standalone" <==> !(sync && n != 1)
  {
    if sync && n != 1 then (if i == 0 then "main" else "secondary") else "standalone"
  }

  /** The `modes` table of `_default_device_initialization`; another name raises KeyError. */
  function ModeOf(name: string): (r: Result<WiredSyncMode, SetupError>)
    ensures r.Ok? <==> name in {"standalone", "main", "secondary"}
  {
    if name == "standalone" then Ok(Standalone)
    else if name == "main" then Ok(Master)
    else if name == "secondary" then Ok(Subordinate)
    else Err(KeyError)
  }

  /**
   * The configuration every device is started with: BGRA32 colour at 1080p,
   * wide-field 2×2-binned depth, synchronised images only, and the mode of
   * the chosen name.
   */
  function DeviceConfig(name: string): (r: Result<Configuration, SetupError>)
    ensures r.Ok? <==> ModeOf(name).Ok?
    ensures r.Ok? ==> r.value.wiredSyncMode == ModeOf(name).value && r.value.synchronizedImagesOnly
  {
    match ModeOf(name)
    case Err(e) => Err(e)
    case Ok(mode) => Ok(Configuration(ColorBGRA32, Resolution1080P, WideFov2x2Binned, true, mode))
  }

  /**
   * The names the pipeline chooses are always in the table: with sync and
   * a device count other than one, device 0 is the master and all others subordinate;
   * otherwise every device is standalone.
   */
  lemma ModesResolve(i: nat, n: nat, sync: bool)
    ensures DeviceConfig(ModeName(i, n, sync)).Ok?
    ensures ModeOf(ModeName(i, n, sync)).value
         == if sync && n != 1 then (if i == 0 then Master else Subordinate) else Standalone
  {
  }

  /** The rigid part of a homogeneous matrix: `m[:3, :3]` and `m[:3, 3]`. */
  function RigidOf(m: Homogeneous): (r: Rigid)
    ensures r.rot.r0 == Vec3(m[0][0], m[0][1], m[0][2]) && r.trans.x == m[0][3]
    ensures r.rot.r1 == Vec3(m[1][0], m[1][1], m[1][2]) && r.trans.y == m[1][3]
    ensures r.rot.r2 == Vec3(m[2][0], m[2][1], m[2][2]) && r.trans.z == m[2][3]
  {
    Rigid(Mat3(Vec3(m[0][0], m[0][1], m[0][2]), Vec3(m[1][0], m[1][1], m[1][2]), Vec3(m[2][0], m[2][1], m[2][2])),
          Vec3(m[0][3], m[1][3], m[2][3]))
  }

  /**
   * The external transform handed to device i's computation stage: none for
   * the reference device 0; otherwise the rigid part of `trans_matrices[i]`,
   * and KeyError when there is no table or no matrix for i.
   */
  function TransformFor(i: nat, transMatrices: Option<map<int, Homogeneous>>): (r: Result<Option<Rigid>, SetupError>)
    ensures i == 0 ==> r == Ok(None)
    ensures i != 0 ==> (r.Ok? <==> transMatrices.Some? && i in transMatrices.value)
    ensures r.Ok? && i != 0 ==> r.value == Some(RigidOf(transMatrices.value[i]))
  {
    if i == 0 then Ok(None)
    else match transMatrices
      case None => Err(KeyError)
      case Some(table) => if i in table then Ok(Some(RigidOf(table[i]))) else Err(KeyError)
  }

  /** What the initialisation loop sets up for one device. */
  datatype DeviceSetup = DeviceSetup(device: nat, config: Configuration, transform: Option<Rigid>)

  /**
   * The initialisation loop of `default_pipeline`, devices in `InitOrder`;
   * it stops with KeyError at the first device without a matrix.
   */
  function Setups(order: seq<nat>, n: nat, sync: bool, transMatrices: Option<map<int, Homogeneous>>)
    : (r: Result<seq<DeviceSetup>, SetupError>)
    ensures r.Ok? <==> forall k :: 0 <= k < |order| ==> TransformFor(order[k], transMatrices).Ok?
    ensures r.Ok? ==> |r.value| == |order| && forall k :: 0 <= k < |order| ==>
              r.value[k].device == order[k] && r.value[k].transform == TransformFor(order[k], transMatrices).value
  {
    if order == [] then Ok([])
    else
      ModesResolve(order[0], n, sync);
      var i := order[0];
      match TransformFor(i, transMatrices)
      case Err(e) => Err(e)
      case Ok(t) =>
        match Setups(order[1..], n, sync, transMatrices)
        case Err(e) => Err(e)
        case Ok(rest) =>
          Ok([DeviceSetup(i, DeviceConfig(ModeName(i, n, sync)).value, t)] + rest)
  }

  /**
   * The pipeline sets up every device exactly when the calibration table has
   * a matrix for each of the devices 1 .. n_devices - 1; device 0 keeps its
   * own frame.
   */
  lemma {:induction false} SetupSucceedsIff(sync: bool, transMatrices: Option<map<int, Homogeneous>>)
    ensures var n := DeviceCount(transMatrices);
      Setups(InitOrder(n), n, sync, transMatrices).Ok?
      <==> (transMatrices.None? || forall i :: 1 <= i < n ==> i in transMatrices.value)
  {
    var n := DeviceCount(transMatrices);
    var order := InitOrder(n);
    if transMatrices.Some? && forall i :: 1 <= i < n ==> i in transMatrices.value {
      forall k | 0 <= k < n
        ensures TransformFor(order[k], transMatrices).Ok?
      {
      }
    } else if transMatrices.Some? {
      var i :| 1 <= i < n && i !in transMatrices.value;
      assert order[n - 1 - i] == i;
    }
  }

  /** The threads of the pipeline. */
  datatype Thread = VideoSaverThread | BodySaverThread | ComputationThread(device: nat) | CaptureThread(device: nat)

  /** `.start()` calls: the sinks, then every computation stage, then every capture stage, devices in `InitOrder`. */
  function StartOrder(n: nat): (r: seq<Thread>)
    ensures |r| == 2 + 2 * n
  {
    [VideoSaverThread, BodySaverThread] + Computations(InitOrder(n)) + Captures(InitOrder(n))
  }

  /** `.join()` calls: the sinks, then the capture stages, then the computation stages. */
  function JoinOrder(n: nat): (r: seq<Thread>)
    ensures |r| == 2 + 2 * n
  {
    [VideoSaverThread, BodySaverThread] + Captures(InitOrder(n)) + Computations(InitOrder(n))
  }

  function Computations(order: seq<nat>): (r: seq<Thread>)
    ensures |r| == |order| && forall k :: 0 <= k < |order| ==> r[k] == ComputationThread(order[k])
  {
    seq(|order|, k requires 0 <= k < |order| => ComputationThread(order[k]))
  }

  function Captures(order: seq<nat>): (r: seq<Thread>)
    ensures |r| == |order| && forall k :: 0 <= k < |order| ==> r[k] == CaptureThread(order[k])
  {
    seq(|order|, k requires 0 <= k < |order| => CaptureThread(order[k]))
  }

  /**
   * Every thread started is joined, and no other; every consumer is started
   * before any producer feeding it: the sinks before every computation
   * stage, and each computation stage before every capture stage.
   */
  lemma ThreadOrders(n: nat)
    ensures multiset(StartOrder(n)) == multiset(JoinOrder(n))
    ensures forall a, b ::
              (0 <= a < |StartOrder(n)| && 0 <= b < |StartOrder(n)| &&
               StartOrder(n)[a].CaptureThread? && !StartOrder(n)[b].CaptureThread?) ==> b < a
  {
    var c, p := Computations(InitOrder(n)), Captures(InitOrder(n));
    calc {
      multiset(StartOrder(n));
      multiset([VideoSaverThread, BodySaverThread]) + multiset(c) + multiset(p);
      multiset(JoinOrder(n));
    }
    CapturesLast(n);
  }

  /** In the start order, exactly the positions from `2 + n` on hold capture stages. */
  lemma CapturesLast(n: nat)
    ensures forall i :: 0 <= i < |StartOrder(n)| ==> (StartOrder(n)[i].CaptureThread? <==> 2 + n <= i)
  {
    var s := StartOrder(n);
    var c, p := Computations(InitOrder(n)), Captures(InitOrder(n));
    assert s == [VideoSaverThread, BodySaverThread] + c + p;
    forall i | 0 <= i < |s|
      ensures s[i].CaptureThread? <==> 2 + n <= i
    {
      if i < 2 {
        assert s[i] in [VideoSaverThread, BodySaverThread];
      } else if i < 2 + n {
        assert s[i] == c[i - 2];
      } else {
        assert s[i] == p[i - 2 - n];
      }
    }
  }

  /**
   * The queues `default_pipeline` creates: the shared joints, video and
   * visualisation queues, then one capture queue per device in the
   * initialisation order, each empty and of capacity `QueueSize`. The
   * capture queues are distinct objects, one per device, and the video and
   * the visualisation queue are two.
   */
  method CreateQueues(n: nat)
    returns (captureQueues: seq<BoundedQueue<Queued<CaptureItem>>>, joints: BoundedQueue<Queued<JointRecord>>,
             video: BoundedQueue<Queued<VideoItem>>, vis: BoundedQueue<Queued<VideoItem>>)
    ensures joints.Valid() && joints.capacity == QueueSize && joints.items == []
    ensures video.Valid() && video.capacity == QueueSize && video.items == []
    ensures vis.Valid() && vis.capacity == QueueSize && vis.items == []
    ensures video != vis
    ensures |captureQueues| == n
    ensures forall i :: 0 <= i < n ==>
      captureQueues[i].Valid() && captureQueues[i].capacity == QueueSize && captureQueues[i].items == []
    ensures forall i, j :: 0 <= i < j < n ==> captureQueues[i] != captureQueues[j]
  {
    joints := new BoundedQueue(QueueSize);
    video := new BoundedQueue(QueueSize);
    vis := new BoundedQueue(QueueSize);
    captureQueues := [];
    var i := n;
    while i > 0
      invariant 0 <= i <= n && |captureQueues| == n - i
      invariant joints.Valid() && joints.capacity == QueueSize && joints.items == []
      invariant video.Valid() && video.capacity == QueueSize && video.items == []
      invariant vis.Valid() && vis.capacity == QueueSize && vis.items == []
      invariant forall k :: 0 <= k < n - i ==>
        captureQueues[k].Valid() && captureQueues[k].capacity == QueueSize && captureQueues[k].items == []
      invariant forall k, l :: 0 <= k < l < n - i ==> captureQueues[k] != captureQueues[l]
    {
      i := i - 1;
      var q := new BoundedQueue(QueueSize);
      captureQueues := [q] + captureQueues;
    }
  }
}
