/**
 * The values that flow through the frame pipeline of
 * `fast_body_tracker.data_capture_pipeline`: captures, tracked bodies, the
 * joint records, annotated frames, and the external rigid transform that maps
 * a secondary device's joints into the reference device's frame.
 */
module PipelineTypes {
  /** A 3D point or vector; joint positions are in millimetres. */
  datatype Vec3 = Vec3(x: real, y: real, z: real)

  /** A 3x3 matrix given by its rows. */
  datatype Mat3 = Mat3(r0: Vec3, r1: Vec3, r2: Vec3)

  /** The `ext_rot` / `ext_trans` pair of a secondary device; the translation is in metres. */
  datatype Rigid = Rigid(rot: Mat3, trans: Vec3)

  function Dot(a: Vec3, b: Vec3): real
  {
    a.x * b.x + a.y * b.y + a.z * b.z
  }

  function Add(a: Vec3, b: Vec3): Vec3
  {
    Vec3(a.x + b.x, a.y + b.y, a.z + b.z)
  }

  function Scale(k: real, a: Vec3): Vec3
  {
    Vec3(k * a.x, k * a.y, k * a.z)
  }

  /** The matrix-vector product R·p. */
  function Apply(m: Mat3, p: Vec3): Vec3
  {
    Vec3(Dot(m.r0, p), Dot(m.r1, p), Dot(m.r2, p))
  }

  /**
   * `positions @ ext_rot.T` followed by `+= ext_trans * 1000.0`, for one joint:
   * the row vector p times Rᵀ is R·p, and the translation is scaled from
   * metres to millimetres.
   */
  function ToReference(t: Rigid, p: Vec3): (r: Vec3)
    ensures r.x == t.rot.r0.x * p.x + t.rot.r0.y * p.y + t.rot.r0.z * p.z + 1000.0 * t.trans.x
    ensures r.y == t.rot.r1.x * p.x + t.rot.r1.y * p.y + t.rot.r1.z * p.z + 1000.0 * t.trans.y
    ensures r.z == t.rot.r2.x * p.x + t.rot.r2.y * p.y + t.rot.r2.z * p.z + 1000.0 * t.trans.z
  {
    Add(Apply(t.rot, p), Scale(1000.0, t.trans))
  }

  /**
   * A quarter turn about z with a one-metre shift along x maps the raw joint
   * (0, 1, 0) mm to (999, 0, 0) mm: rotation first, then 1000 mm of translation.
   */
  lemma QuarterTurnExample()
    ensures ToReference(
              Rigid(Mat3(Vec3(0.0, -1.0, 0.0), Vec3(1.0, 0.0, 0.0), Vec3(0.0, 0.0, 1.0)), Vec3(1.0, 0.0, 0.0)),
              Vec3(0.0, 1.0, 0.0))
         == Vec3(999.0, 0.0, 0.0)
  {
  }

  /** One tracked skeleton: its tracker id and one position and confidence per joint. */
  datatype Body = Body(id: nat, positions: seq<Vec3>, confidences: seq<int>)

  /** The colour image of a capture with its device and system timestamps. */
  datatype ColorImage = ColorImage(deviceTs: int, systemTs: int, bgra: seq<int>)

  /** One capture returned by `device.update()`. */
  datatype Capture = Capture(color: ColorImage)

  /** The body-tracking result returned by `tracker.update(capture)`. */
  datatype BodyFrame = BodyFrame(bodies: seq<Body>)

  /** The tracker, as the function that turns a capture into its body frame. */
  datatype Tracker = Tracker(update: Capture -> BodyFrame)

  /** An item of a capture queue: `(capture, frame)` with a tracker, `capture` alone without. */
  datatype CaptureItem = Tracked(capture: Capture, frame: BodyFrame) | Untracked(capture: Capture)

  /** An item of the joints queue: `(frame_idx, ts, system_ts, device_id, bodies)`. */
  datatype JointRecord = JointRecord(frameIdx: nat, ts: int, systemTs: int, deviceId: nat, bodies: seq<Body>)

  /**
   * The BGR frame handed to the video and visualisation sinks: the colour
   * image with the given skeletons drawn on it (drawing is done by a
   * collaborator, so the model records what was drawn).
   */
  datatype Annotated = Annotated(image: ColorImage, drawn: seq<Body>)

  /** An item of the video or the visualisation queue: `(bgr_image, device_id)`. */
  datatype VideoItem = VideoItem(image: Annotated, deviceId: nat)

  /** How a stage's loop ended on a given input trace. */
  datatype Outcome =
    | Finished  // it took the sentinels it waits for and wound up
    | Crashed   // it took an item it cannot handle and raised
    | Waiting   // the trace ran out; the stage is blocked in `get()`
}
