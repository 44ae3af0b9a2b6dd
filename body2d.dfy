/**
 * `Body2d`: a tracked body's joints projected into a camera image, and the
 * skeleton drawing that keeps only joints that were seen. A joint is
 * drawn when its truncated position is not (0, 0) and its confidence is
 * not zero; a segment when both its end joints would be. The projection
 * is a parameter; the image is the sequence of drawing calls made on it.
 */
module Body2d {
  import opened PipelineTypes
  import opened Seqs

  /** K4ABT_JOINT_COUNT of the Body Tracking SDK. */
  const JointCount: nat := 32

  /** A 3D joint of the SDK's skeleton. */
  datatype Joint3d = Joint3d(position: Vec3, confidence: int)

  /** One entry of `joints_data`: the projected position and the confidence. */
  datatype Joint2d = Joint2d(x: real, y: real, confidence: int)

  datatype Point = Point(x: int, y: int)

  /** A colour in the blue, green, red order OpenCV uses. */
  datatype Color = Bgr(b: int, g: int, r: int)

  /** `cv2.line(image, p1, p2, color, thickness)` and `cv2.circle(image, p, radius, color, thickness)`. */
  datatype DrawOp =
    | Line(from: Point, to: Point, color: Color, thickness: nat)
    | Circle(center: Point, radius: nat, color: Color, thickness: nat)

  /** `astype(np.int32)` on a coordinate: the fraction is dropped, toward zero. */
  function TruncToZero(v: real): (r: int)
    ensures v >= 0.0 ==> 0 <= r && r as real <= v < r as real + 1.0
    ensures v < 0.0 ==> r <= 0 && r as real - 1.0 < v <= r as real
  {
    if v >= 0.0 then v.Floor else -((-v).Floor)
  }

  function PointOf(j: Joint2d): Point
  {
    Point(TruncToZero(j.x), TruncToZero(j.y))
  }

  /** A joint that counts as seen: not at the origin once truncated, and with some confidence. */
  predicate Visible(j: Joint2d)
  {
    PointOf(j) != Point(0, 0) && j.confidence != 0
  }

  /** Every segment pair names two joints of the skeleton. */
  predicate PairsIn(pairs: seq<(nat, nat)>, n: nat)
  {
    forall k :: 0 <= k < |pairs| ==> pairs[k].0 < n && pairs[k].1 < n
  }

  predicate SegmentVisible(js: seq<Joint2d>, pair: (nat, nat))
    requires pair.0 < |js| && pair.1 < |js|
  {
    Visible(js[pair.0]) && Visible(js[pair.1])
  }

  /** The segment pairs that get a line, in the order of `pairs`. */
  function VisiblePairs(js: seq<Joint2d>, pairs: seq<(nat, nat)>): (r: seq<(nat, nat)>)
    requires PairsIn(pairs, |js|)
    ensures |r| <= |pairs| && PairsIn(r, |js|)
  {
    if pairs == [] then []
    else
      var last := pairs[|pairs| - 1];
      VisiblePairs(js, pairs[..|pairs| - 1]) + (if SegmentVisible(js, last) then [last] else [])
  }

  /** A pair gets its line exactly when it is one of the pairs and both its joints are seen. */
  lemma {:induction false} VisiblePairsIff(js: seq<Joint2d>, pairs: seq<(nat, nat)>, p: (nat, nat))
    requires PairsIn(pairs, |js|)
    ensures p in VisiblePairs(js, pairs) <==> p in pairs && SegmentVisible(js, p)
  {
    if pairs != [] {
      var init := pairs[..|pairs| - 1];
      VisiblePairsIff(js, init, p);
      assert pairs == init + [pairs[|pairs| - 1]];
    }
  }

  /** The indices below `n` of the joints that get a circle, in index order. */
  function VisibleJoints(js: seq<Joint2d>, n: nat): (r: seq<nat>)
    requires n <= |js|
    ensures |r| <= n && forall k :: 0 <= k < |r| ==> r[k] < n
  {
    if n == 0 then []
    else VisibleJoints(js, n - 1) + (if Visible(js[n - 1]) then [n - 1] else [])
  }

  /** Joint `i` gets its circle exactly when it is seen; the circles go in strictly increasing joint order. */
  lemma {:induction false} VisibleJointsIff(js: seq<Joint2d>, n: nat)
    requires n <= |js|
    ensures forall i :: i in VisibleJoints(js, n) <==> 0 <= i < n && Visible(js[i])
    ensures forall k, l :: 0 <= k < l < |VisibleJoints(js, n)| ==> VisibleJoints(js, n)[k] < VisibleJoints(js, n)[l]
  {
    if n > 0 {
      VisibleJointsIff(js, n - 1);
    }
  }

  function Lines(js: seq<Joint2d>, pairs: seq<(nat, nat)>, color: Color): (r: seq<DrawOp>)
    requires PairsIn(pairs, |js|)
    ensures |r| == |pairs|
    ensures forall k :: 0 <= k < |pairs| ==> r[k] == Line(PointOf(js[pairs[k].0]), PointOf(js[pairs[k].1]), color, 2)
  {
    seq(|pairs|, k requires 0 <= k < |pairs| => Line(PointOf(js[pairs[k].0]), PointOf(js[pairs[k].1]), color, 2))
  }

  function Circles(js: seq<Joint2d>, indices: seq<nat>, color: Color): (r: seq<DrawOp>)
    requires forall k :: 0 <= k < |indices| ==> indices[k] < |js|
    ensures |r| == |indices|
    ensures forall k :: 0 <= k < |indices| ==> r[k] == Circle(PointOf(js[indices[k]]), 3, color, 3)
  {
    seq(|indices|, k requires 0 <= k < |indices| => Circle(PointOf(js[indices[k]]), 3, color, 3))
  }

  /**
   * The calls `draw` makes: a line per visible segment in pair order,
   * then, unless only segments are wanted, a circle per visible joint in
   * index order.
   */
  function SkeletonOps(js: seq<Joint2d>, pairs: seq<(nat, nat)>, color: Color, onlySegments: bool): seq<DrawOp>
    requires PairsIn(pairs, |js|)
  {
    Lines(js, VisiblePairs(js, pairs), color)
    + if onlySegments then [] else Circles(js, VisibleJoints(js, |js|), color)
  }

  /** Every call `draw` makes is a thick-2 line between two seen joints or a radius-3 circle on a seen joint. */
  lemma SkeletonOpsSeen(js: seq<Joint2d>, pairs: seq<(nat, nat)>, color: Color, onlySegments: bool, op: DrawOp)
    requires PairsIn(pairs, |js|) && op in SkeletonOps(js, pairs, color, onlySegments)
    ensures op.color == color
    ensures op.Line? ==>
      (op.thickness == 2
       && exists p :: p in pairs && SegmentVisible(js, p) && op.from == PointOf(js[p.0]) && op.to == PointOf(js[p.1]))
    ensures op.Circle? ==>
      (!onlySegments && op.radius == 3 && op.thickness == 3
       && exists i :: 0 <= i < |js| && Visible(js[i]) && op.center == PointOf(js[i]))
  {
    var vp := VisiblePairs(js, pairs);
    var vj := VisibleJoints(js, |js|);
    VisibleJointsIff(js, |js|);
    var k :| 0 <= k < |SkeletonOps(js, pairs, color, onlySegments)| && SkeletonOps(js, pairs, color, onlySegments)[k] == op;
    if k < |vp| {
      VisiblePairsIff(js, pairs, vp[k]);
    } else {
      assert vj[k - |vp|] in vj;
    }
  }

  lemma VisiblePairsSnoc(js: seq<Joint2d>, pairs: seq<(nat, nat)>, k: nat)
    requires PairsIn(pairs, |js|) && k < |pairs|
    ensures VisiblePairs(js, pairs[..k + 1])
         == VisiblePairs(js, pairs[..k]) + (if SegmentVisible(js, pairs[k]) then [pairs[k]] else [])
  {
    assert pairs[..k + 1][..k] == pairs[..k];
  }

  lemma LinesSnoc(js: seq<Joint2d>, ps: seq<(nat, nat)>, p: (nat, nat), color: Color)
    requires PairsIn(ps, |js|) && p.0 < |js| && p.1 < |js|
    ensures Lines(js, ps + [p], color) == Lines(js, ps, color) + [Line(PointOf(js[p.0]), PointOf(js[p.1]), color, 2)]
  {
    assert PairsIn(ps + [p], |js|) by {
      assert forall k :: 0 <= k < |ps| ==> (ps + [p])[k] == ps[k];
    }
  }

  lemma CirclesSnoc(js: seq<Joint2d>, indices: seq<nat>, i: nat, color: Color)
    requires (forall k :: 0 <= k < |indices| ==> indices[k] < |js|) && i < |js|
    ensures Circles(js, indices + [i], color) == Circles(js, indices, color) + [Circle(PointOf(js[i]), 3, color, 3)]
  {
    assert forall k :: 0 <= k < |indices| ==> (indices + [i])[k] == indices[k];
  }

  /**
   * The two loops of `draw` over the projected joints: appends the calls
   * to `image` and returns the result.
   */
  method DrawSkeleton(joints: array<Joint2d>, image: seq<DrawOp>, pairs: seq<(nat, nat)>, color: Color, onlySegments: bool)
    returns (drawn: seq<DrawOp>)
    requires PairsIn(pairs, joints.Length)
    ensures drawn == image + SkeletonOps(joints[..], pairs, color, onlySegments)
  {
    ghost var lines := Lines(joints[..], VisiblePairs(joints[..], pairs), color);
    drawn := DrawSegments(joints, image, pairs, color);
    if onlySegments {
      AppendEmpty(lines);
    } else {
      ghost var circles := Circles(joints[..], VisibleJoints(joints[..], joints.Length), color);
      drawn := DrawJoints(joints, drawn, color);
      Regroup(image, lines, circles);
    }
  }

  /** The loop over the segment pairs: a line for each pair whose two joints are seen. */
  method DrawSegments(joints: array<Joint2d>, image: seq<DrawOp>, pairs: seq<(nat, nat)>, color: Color)
    returns (drawn: seq<DrawOp>)
    requires PairsIn(pairs, joints.Length)
    ensures drawn == image + Lines(joints[..], VisiblePairs(joints[..], pairs), color)
  {
    ghost var js := joints[..];
    drawn := image;
    var k := 0;
    while k < |pairs|
      invariant 0 <= k <= |pairs|
      invariant drawn == image + Lines(js, VisiblePairs(js, pairs[..k]), color)
    {
      var (idx1, idx2) := pairs[k];
      var point1 := PointOf(joints[idx1]);
      var point2 := PointOf(joints[idx2]);
      VisiblePairsSnoc(js, pairs, k);
      if !(point1 == Point(0, 0) || point2 == Point(0, 0)
           || joints[idx1].confidence == 0 || joints[idx2].confidence == 0) {
        LinesSnoc(js, VisiblePairs(js, pairs[..k]), pairs[k], color);
        drawn := drawn + [Line(point1, point2, color, 2)];
      }
      k := k + 1;
    }
    assert pairs[..|pairs|] == pairs;
  }

  /** The loop over the joints: a circle for each joint that is seen, in index order. */
  method DrawJoints(joints: array<Joint2d>, image: seq<DrawOp>, color: Color) returns (drawn: seq<DrawOp>)
    ensures drawn == image + Circles(joints[..], VisibleJoints(joints[..], joints.Length), color)
  {
    ghost var js := joints[..];
    drawn := image;
    var i := 0;
    while i < joints.Length
      invariant 0 <= i <= joints.Length
      invariant drawn == image + Circles(js, VisibleJoints(js, i), color)
    {
      var point := PointOf(joints[i]);
      if !(point == Point(0, 0) || joints[i].confidence == 0) {
        CirclesSnoc(js, VisibleJoints(js, i), i, color);
        drawn := drawn + [Circle(point, 3, color, 3)];
      }
      i := i + 1;
    }
  }

  class Body2d {
    const id: nat
    const joints: array<Joint2d>

    ghost predicate Valid()
      reads this
    {
      joints.Length == JointCount
    }

    /**
     * `__init__`: entry `i` of `joints_data` holds joint `i` of the body
     * projected into the target camera, with joint `i`'s confidence.
     */
    constructor (bodyId: nat, skeleton: seq<Joint3d>, project: Vec3 -> (real, real))
      requires |skeleton| == JointCount
      ensures Valid() && id == bodyId && fresh(joints)
      ensures forall i :: 0 <= i < JointCount ==>
        joints[i] == Joint2d(project(skeleton[i].position).0, project(skeleton[i].position).1, skeleton[i].confidence)
    {
      id := bodyId;
      var data := new Joint2d[JointCount](_ => Joint2d(0.0, 0.0, 0));
      joints := data;
      new;
      for i := 0 to JointCount
        invariant forall k :: 0 <= k < i ==>
          data[k] == Joint2d(project(skeleton[k].position).0, project(skeleton[k].position).1, skeleton[k].confidence)
      {
        var v := project(skeleton[i].position);
        data[i] := Joint2d(v.0, v.1, skeleton[i].confidence);
      }
    }

    /** `draw`: the skeleton in the colour the 20-entry palette gives to `id mod 20`. */
    method Draw(image: seq<DrawOp>, onlySegments: bool, pairs: seq<(nat, nat)>, palette: nat -> Color)
      returns (drawn: seq<DrawOp>)
      requires Valid() && PairsIn(pairs, JointCount)
      ensures drawn == image + SkeletonOps(joints[..], pairs, palette(id % 20), onlySegments)
    {
      var color := palette(id % 20);
      drawn := DrawSkeleton(joints, image, pairs, color, onlySegments);
    }
  }
}

/**
 * The older `Body2d.draw`, which takes the colour from row `id` of the
 * `body_colors` table; everything else is as in `Body2d`.
 */
module Body2dLegacy {
  import opened Wrappers
  import opened Body2d

  datatype DrawError = IndexError   // `body_colors[id]` with `id` past the table

  method Draw(body: Body2d, image: seq<DrawOp>, onlySegments: bool, pairs: seq<(nat, nat)>, bodyColors: seq<Color>)
    returns (r: Result<seq<DrawOp>, DrawError>)
    requires body.Valid() && PairsIn(pairs, JointCount)
    ensures body.id >= |bodyColors| ==> r == Err(IndexError)
    ensures body.id < |bodyColors| ==> r == Ok(image + SkeletonOps(body.joints[..], pairs, bodyColors[body.id], onlySegments))
  {
    if body.id >= |bodyColors| {
      return Err(IndexError);
    }
    var drawn := DrawSkeleton(body.joints, image, pairs, bodyColors[body.id], onlySegments);
    r := Ok(drawn);
  }
}
