/**
 * Sample2D's narrow phase (Collision.cpp): which routine handles a pair of
 * shapes, and how many contacts each routine reports. The box/box routine
 * is the feature-clipping one borrowed from Box2D_Lite: it picks a reference
 * face, clips the incident edge of the other box against the two side
 * planes of that face, and keeps the clipped points that penetrate it.
 *
 * Rotation matrices, square roots and normalisation come from `FloatOps`.
 */
module Collision {
  import opened Vectors
  import opened Matrices
  import opened Shapes
  import opened Bodies
  import opened Contacts

  /** `Sign`: -1 for a negative number and 1 otherwise, 0 included. */
  function Sign(x: real): (r: real)
    ensures r == -1.0 <==> x < 0.0
    ensures r == 1.0 || r == -1.0
    ensures r * x == AbsReal(x)
  {
    if x < 0.0 then -1.0 else 1.0
  }

  /** `Flip`: the feature seen from the other box, reference and incident sides swapped. */
  function Flip(fp: FeaturePair): (r: FeaturePair)
    ensures r.inEdge1 == fp.inEdge2 && r.inEdge2 == fp.inEdge1
    ensures r.outEdge1 == fp.outEdge2 && r.outEdge2 == fp.outEdge1
  {
    FeaturePair(fp.inEdge2, fp.outEdge2, fp.inEdge1, fp.outEdge1)
  }

  lemma FlipInvolution(fp: FeaturePair)
    ensures Flip(Flip(fp)) == fp
  {
  }

  // ---------------------------------------------------------------------------
  // Box edges
  // ---------------------------------------------------------------------------

  /*
   * Box vertices v1..v4 run anticlockwise from the top right corner; edge
   * e_k runs from v_k to v_(k+1): e1 is the top, e2 the left, e3 the bottom
   * and e4 the right side. Edge number 0 means "no edge".
   */

  const NoEdge: int := 0

  predicate IsEdge(e: int)
  {
    1 <= e <= 4
  }

  /** Every edge number of a feature is an edge or `NoEdge`. */
  predicate EdgeFeature(fp: FeaturePair)
  {
    0 <= fp.inEdge1 <= 4 && 0 <= fp.outEdge1 <= 4 && 0 <= fp.inEdge2 <= 4 && 0 <= fp.outEdge2 <= 4
  }

  lemma EdgeFeatureValid(fp: FeaturePair)
    requires EdgeFeature(fp)
    ensures ValidFeature(fp)
  {
  }

  function NextEdge(e: int): (r: int)
    requires IsEdge(e)
    ensures IsEdge(r) && r != e
  {
    e % 4 + 1
  }

  function PrevEdge(e: int): (r: int)
    requires IsEdge(e)
    ensures IsEdge(r) && NextEdge(r) == e
  {
    (e + 2) % 4 + 1
  }

  /** Vertex v_k of a box with half extents h, in the box's own frame. */
  function LocalVertex(h: Vector2, k: int): Vector2
    requires IsEdge(k)
  {
    if k == 1 then Vector2(h.x, h.y)
    else if k == 2 then Vector2(-h.x, h.y)
    else if k == 3 then Vector2(-h.x, -h.y)
    else Vector2(h.x, -h.y)
  }

  /** The outward normal of edge e_k, in the box's own frame. */
  function EdgeNormal(k: int): Vector2
    requires IsEdge(k)
  {
    if k == 1 then Vector2(0.0, 1.0)
    else if k == 2 then Vector2(-1.0, 0.0)
    else if k == 3 then Vector2(0.0, -1.0)
    else Vector2(1.0, 0.0)
  }

  /** A point of the segment being clipped, with the feature that names it. */
  datatype ClipVertex = ClipVertex(v: Vector2, fp: FeaturePair)

  datatype Segment = Segment(start: ClipVertex, end: ClipVertex)

  /** The edge `ComputeIncidentEdge` chooses for a direction n in the incident box's frame. */
  function IncidentEdgeNumber(n: Vector2): (e: int)
    ensures IsEdge(e)
  {
    var nAbs := Abs(n);
    if nAbs.x > nAbs.y then
      if Sign(n.x) > 0.0 then 4 else 2
    else
      if Sign(n.y) > 0.0 then 1 else 3
  }

  /** The chosen edge is the one whose outward normal points furthest along n. */
  lemma IncidentEdgeFacesAlong(n: Vector2, k: int)
    requires IsEdge(k)
    ensures Dot(EdgeNormal(IncidentEdgeNumber(n)), n) >= Dot(EdgeNormal(k), n)
  {
  }

  /**
   * The incident edge in the incident box's own frame, for the reference
   * normal n expressed in that frame and negated. Each vertex records the
   * edges entering and leaving it in the second (incident) half of its
   * feature.
   */
  function LocalIncidentEdge(h: Vector2, n: Vector2): Segment
  {
    var nAbs := Abs(n);
    if nAbs.x > nAbs.y then
      if Sign(n.x) > 0.0 then
        Segment(ClipVertex(Vector2(h.x, -h.y), FeaturePair(0, 0, 3, 4)),
                ClipVertex(Vector2(h.x, h.y), FeaturePair(0, 0, 4, 1)))
      else
        Segment(ClipVertex(Vector2(-h.x, h.y), FeaturePair(0, 0, 1, 2)),
                ClipVertex(Vector2(-h.x, -h.y), FeaturePair(0, 0, 2, 3)))
    else
      if Sign(n.y) > 0.0 then
        Segment(ClipVertex(Vector2(h.x, h.y), FeaturePair(0, 0, 4, 1)),
                ClipVertex(Vector2(-h.x, h.y), FeaturePair(0, 0, 1, 2)))
      else
        Segment(ClipVertex(Vector2(-h.x, -h.y), FeaturePair(0, 0, 2, 3)),
                ClipVertex(Vector2(h.x, -h.y), FeaturePair(0, 0, 3, 4)))
  }

  /**
   * The incident edge runs from vertex v_e to v_(e+1), where e is the edge
   * `IncidentEdgeNumber` picks, and its features name the edges around
   * each vertex.
   */
  lemma LocalIncidentEdgeIsEdge(h: Vector2, n: Vector2)
    ensures var e := IncidentEdgeNumber(n);
      && LocalIncidentEdge(h, n).start == ClipVertex(LocalVertex(h, e), FeaturePair(0, 0, PrevEdge(e), e))
      && LocalIncidentEdge(h, n).end == ClipVertex(LocalVertex(h, NextEdge(e)), FeaturePair(0, 0, e, NextEdge(e)))
  {
  }

  /**
   * `ComputeIncidentEdge`: the edge of the incident box (half extents h,
   * placed at pos with rotation rot) most anti-parallel to the reference
   * normal, placed in world space.
   */
  function ComputeIncidentEdge(h: Vector2, pos: Vector2, rot: Matrix2, normal: Vector2): (s: Segment)
    ensures EdgeFeature(s.start.fp) && EdgeFeature(s.end.fp)
    ensures var local := LocalIncidentEdge(h, Neg(MulV(Transpose(rot), normal)));
      && s.start == ClipVertex(Add(pos, MulV(rot, local.start.v)), local.start.fp)
      && s.end == ClipVertex(Add(pos, MulV(rot, local.end.v)), local.end.fp)
  {
    var local := LocalIncidentEdge(h, Neg(MulV(Transpose(rot), normal)));
    Segment(ClipVertex(Add(pos, MulV(rot, local.start.v)), local.start.fp),
            ClipVertex(Add(pos, MulV(rot, local.end.v)), local.end.fp))
  }

  // ---------------------------------------------------------------------------
  // Clipping
  // ---------------------------------------------------------------------------

  /** Signed distance of a point from the line Dot(normal, p) == offset; <= 0 is kept. */
  function Distance(normal: Vector2, offset: real, p: ClipVertex): real
  {
    Dot(normal, p.v) - offset
  }

  /**
   * The point where the segment crosses the line. It takes the feature of
   * the endpoint that was clipped away, with the clip edge recorded as the
   * edge it enters through (first endpoint outside) or leaves through.
   */
  function Crossing(vIn0: ClipVertex, vIn1: ClipVertex, normal: Vector2, offset: real, clipEdge: int): (c: ClipVertex)
    requires Distance(normal, offset, vIn0) * Distance(normal, offset, vIn1) < 0.0
    ensures Distance(normal, offset, vIn0) > 0.0 ==> c.fp == vIn0.fp.(inEdge1 := clipEdge, inEdge2 := NoEdge)
    ensures Distance(normal, offset, vIn0) <= 0.0 ==> c.fp == vIn1.fp.(outEdge1 := clipEdge, outEdge2 := NoEdge)
  {
    var d0 := Distance(normal, offset, vIn0);
    var d1 := Distance(normal, offset, vIn1);
    var interp := d0 / (d0 - d1);
    var v := Add(vIn0.v, Scale(interp, Sub(vIn1.v, vIn0.v)));
    if d0 > 0.0 then ClipVertex(v, vIn0.fp.(inEdge1 := clipEdge, inEdge2 := NoEdge))
    else ClipVertex(v, vIn1.fp.(outEdge1 := clipEdge, outEdge2 := NoEdge))
  }

  /** Dot distributes over the interpolation between two points. */
  lemma DotLerp(n: Vector2, a: Vector2, b: Vector2, t: real)
    ensures Dot(n, Add(a, Scale(t, Sub(b, a)))) == Dot(n, a) + t * (Dot(n, b) - Dot(n, a))
  {
    assert n.x * ((b.x - a.x) * t) + n.y * ((b.y - a.y) * t) == t * (n.x * b.x + n.y * b.y - (n.x * a.x + n.y * a.y));
  }

  lemma InterpolationCancels(d0: real, d1: real)
    requires d0 - d1 != 0.0
    ensures d0 + (d0 / (d0 - d1)) * (d1 - d0) == 0.0
  {
    var t := d0 / (d0 - d1);
    assert t * (d0 - d1) == d0;
    assert t * (d1 - d0) == -(t * (d0 - d1));
  }

  /** The crossing point lies on the clipping line. */
  lemma {:induction false} CrossingOnLine(vIn0: ClipVertex, vIn1: ClipVertex, normal: Vector2, offset: real, clipEdge: int)
    requires Distance(normal, offset, vIn0) * Distance(normal, offset, vIn1) < 0.0
    ensures Distance(normal, offset, Crossing(vIn0, vIn1, normal, offset, clipEdge)) == 0.0
  {
    var d0 := Distance(normal, offset, vIn0);
    var d1 := Distance(normal, offset, vIn1);
    assert d0 - d1 != 0.0;
    var t := d0 / (d0 - d1);
    DotLerp(normal, vIn0.v, vIn1.v, t);
    InterpolationCancels(d0, d1);
  }

  /**
   * `ClipSegmentToLine`: keep each endpoint on the inner side (distance
   * <= 0), and add the crossing point when the endpoints lie strictly on
   * opposite sides.
   */
  function ClipSegmentToLine(vIn: Segment, normal: Vector2, offset: real, clipEdge: int): (out: seq<ClipVertex>)
    ensures |out| <= 2
    ensures var d0 := Distance(normal, offset, vIn.start);
            var d1 := Distance(normal, offset, vIn.end);
      && (d0 <= 0.0 && d1 <= 0.0 ==> out == [vIn.start, vIn.end])
      && (d0 > 0.0 && d1 > 0.0 ==> out == [])
      && (d0 < 0.0 < d1 ==> |out| == 2 && out[0] == vIn.start)
      && (d1 < 0.0 < d0 ==> |out| == 2 && out[0] == vIn.end)
      && (d0 == 0.0 < d1 ==> out == [vIn.start])
      && (d1 == 0.0 < d0 ==> out == [vIn.end])
  {
    var d0 := Distance(normal, offset, vIn.start);
    var d1 := Distance(normal, offset, vIn.end);
    var kept := (if d0 <= 0.0 then [vIn.start] else []) + (if d1 <= 0.0 then [vIn.end] else []);
    if d0 * d1 < 0.0 then kept + [Crossing(vIn.start, vIn.end, normal, offset, clipEdge)] else kept
  }

  /** Clipping leaves only points on the inner side of the line. */
  lemma ClipKeepsInside(vIn: Segment, normal: Vector2, offset: real, clipEdge: int, i: int)
    requires 0 <= i < |ClipSegmentToLine(vIn, normal, offset, clipEdge)|
    ensures Distance(normal, offset, ClipSegmentToLine(vIn, normal, offset, clipEdge)[i]) <= 0.0
  {
    var d0 := Distance(normal, offset, vIn.start);
    var d1 := Distance(normal, offset, vIn.end);
    if d0 * d1 < 0.0 {
      CrossingOnLine(vIn.start, vIn.end, normal, offset, clipEdge);
    }
  }

  /**
   * The crossing point is the last one clipping reports, and its feature is
   * the clipped-away endpoint's with the clip edge written in.
   */
  lemma ClipCrossingFeature(vIn: Segment, normal: Vector2, offset: real, clipEdge: int)
    requires Distance(normal, offset, vIn.start) * Distance(normal, offset, vIn.end) < 0.0
    ensures var out := ClipSegmentToLine(vIn, normal, offset, clipEdge);
      && |out| == 2
      && (Distance(normal, offset, vIn.start) > 0.0 ==> out[1].fp == vIn.start.fp.(inEdge1 := clipEdge, inEdge2 := NoEdge))
      && (Distance(normal, offset, vIn.start) < 0.0 ==> out[1].fp == vIn.end.fp.(outEdge1 := clipEdge, outEdge2 := NoEdge))
  {
  }

  /** Clipping against an edge keeps features made of edge numbers. */
  lemma ClipKeepsEdgeFeatures(vIn: Segment, normal: Vector2, offset: real, clipEdge: int, i: int)
    requires EdgeFeature(vIn.start.fp) && EdgeFeature(vIn.end.fp) && IsEdge(clipEdge)
    requires 0 <= i < |ClipSegmentToLine(vIn, normal, offset, clipEdge)|
    ensures EdgeFeature(ClipSegmentToLine(vIn, normal, offset, clipEdge)[i].fp)
  {
  }

  // ---------------------------------------------------------------------------
  // Box against box
  // ---------------------------------------------------------------------------

  /** A box in world space: half extents, centre and rotation. */
  datatype BoxFrame = BoxFrame(h: Vector2, pos: Vector2, rot: Matrix2)

  datatype Axis = FaceAX | FaceAY | FaceBX | FaceBY

  predicate IsFaceOfB(axis: Axis)
  {
    axis == FaceBX || axis == FaceBY
  }

  /** The separations along the four face axes, and the centre offset in each box's frame. */
  datatype FaceTests = FaceTests(faceA: Vector2, faceB: Vector2, dA: Vector2, dB: Vector2)

  function FaceSeparations(a: BoxFrame, b: BoxFrame): FaceTests
  {
    var rotAT := Transpose(a.rot);
    var rotBT := Transpose(b.rot);
    var dp := Sub(b.pos, a.pos);
    var dA := MulV(rotAT, dp);
    var dB := MulV(rotBT, dp);
    var absC := AbsM(MulM(rotAT, b.rot));
    var absCT := Transpose(absC);
    FaceTests(Sub(Sub(Abs(dA), a.h), MulV(absC, b.h)), Sub(Sub(Abs(dB), MulV(absCT, a.h)), b.h), dA, dB)
  }

  /** Some face axis separates the boxes. */
  predicate Separated(t: FaceTests)
  {
    t.faceA.x > 0.0 || t.faceA.y > 0.0 || t.faceB.x > 0.0 || t.faceB.y > 0.0
  }

  datatype AxisChoice = AxisChoice(axis: Axis, separation: real, normal: Vector2)

  const RelativeTol: real := 0.95
  const AbsoluteTol: real := 0.01

  /** Whether a later axis with separation s replaces the current choice. */
  predicate Prefer(s: real, current: real, h: real)
  {
    s > RelativeTol * current + AbsoluteTol * h
  }

  /**
   * The reference axis: A's x face, replaced by a later axis only when that
   * axis separates clearly more, which favours A's faces and x over y.
   */
  function SelectAxis(a: BoxFrame, b: BoxFrame, t: FaceTests): (c: AxisChoice)
    ensures c.axis == FaceAX ==> c.separation == t.faceA.x
    ensures c.axis == FaceAY ==> c.separation == t.faceA.y
    ensures c.axis == FaceBX ==> c.separation == t.faceB.x
    ensures c.axis == FaceBY ==> c.separation == t.faceB.y
    ensures c.axis == FaceAX ==> c.normal == a.rot.col1 || c.normal == Neg(a.rot.col1)
    ensures c.axis == FaceAY ==> c.normal == a.rot.col2 || c.normal == Neg(a.rot.col2)
    ensures c.axis == FaceBX ==> c.normal == b.rot.col1 || c.normal == Neg(b.rot.col1)
    ensures c.axis == FaceBY ==> c.normal == b.rot.col2 || c.normal == Neg(b.rot.col2)
  {
    var c0 := AxisChoice(FaceAX, t.faceA.x, if t.dA.x > 0.0 then a.rot.col1 else Neg(a.rot.col1));
    var c1 := if Prefer(t.faceA.y, c0.separation, a.h.y)
      then AxisChoice(FaceAY, t.faceA.y, if t.dA.y > 0.0 then a.rot.col2 else Neg(a.rot.col2)) else c0;
    var c2 := if Prefer(t.faceB.x, c1.separation, b.h.x)
      then AxisChoice(FaceBX, t.faceB.x, if t.dB.x > 0.0 then b.rot.col1 else Neg(b.rot.col1)) else c1;
    if Prefer(t.faceB.y, c2.separation, b.h.y)
      then AxisChoice(FaceBY, t.faceB.y, if t.dB.y > 0.0 then b.rot.col2 else Neg(b.rot.col2)) else c2
  }

  /** The reference face's planes and the incident edge to clip against them. */
  datatype ClipSetup = ClipSetup(
    frontNormal: Vector2, front: real,
    sideNormal: Vector2, negSide: real, posSide: real,
    negEdge: int, posEdge: int,
    incident: Segment)

  function ReferenceFace(a: BoxFrame, b: BoxFrame, c: AxisChoice): (s: ClipSetup)
    ensures IsEdge(s.negEdge) && IsEdge(s.posEdge)
    ensures IsFaceOfB(c.axis) ==> s.frontNormal == Neg(c.normal)
    ensures !IsFaceOfB(c.axis) ==> s.frontNormal == c.normal
  {
    match c.axis
    case FaceAX =>
      var side := Dot(a.pos, a.rot.col2);
      ClipSetup(c.normal, Dot(a.pos, c.normal) + a.h.x, a.rot.col2, -side + a.h.y, side + a.h.y, 3, 1,
                ComputeIncidentEdge(b.h, b.pos, b.rot, c.normal))
    case FaceAY =>
      var side := Dot(a.pos, a.rot.col1);
      ClipSetup(c.normal, Dot(a.pos, c.normal) + a.h.y, a.rot.col1, -side + a.h.x, side + a.h.x, 2, 4,
                ComputeIncidentEdge(b.h, b.pos, b.rot, c.normal))
    case FaceBX =>
      var fn := Neg(c.normal);
      var side := Dot(b.pos, b.rot.col2);
      ClipSetup(fn, Dot(b.pos, fn) + b.h.x, b.rot.col2, -side + b.h.y, side + b.h.y, 3, 1,
                ComputeIncidentEdge(a.h, a.pos, a.rot, fn))
    case FaceBY =>
      var fn := Neg(c.normal);
      var side := Dot(b.pos, b.rot.col1);
      ClipSetup(fn, Dot(b.pos, fn) + b.h.y, b.rot.col1, -side + b.h.x, side + b.h.x, 2, 4,
                ComputeIncidentEdge(a.h, a.pos, a.rot, fn))
  }

  /**
   * The contacts made from the clipped points: one for each point that
   * penetrates the reference face, slid back onto it, with its feature
   * flipped when the reference face belongs to B.
   */
  function EmitContacts(points: seq<ClipVertex>, s: ClipSetup, normal: Vector2, flip: bool): (r: seq<Contact>)
    ensures |r| <= |points|
    ensures forall i :: 0 <= i < |r| ==> r[i].separation <= 0.0 && r[i].normal == normal
    ensures forall i :: 0 <= i < |r| ==> exists j :: 0 <= j < |points| && r[i].feature == (if flip then Flip(points[j].fp) else points[j].fp)
    ensures forall i :: 0 <= i < |r| ==> r[i] == DetectedContact(r[i].separation, r[i].normal, r[i].position, r[i].feature)
  {
    if |points| == 0 then []
    else
      var p := points[0];
      var separation := Dot(s.frontNormal, p.v) - s.front;
      var rest := EmitContacts(points[1..], s, normal, flip);
      var fp := if flip then Flip(p.fp) else p.fp;
      var here := if separation <= 0.0
        then [DetectedContact(separation, normal, Sub(p.v, Scale(separation, s.frontNormal)), fp)] else [];
      assert forall i :: 0 <= i < |rest| ==> exists j :: 0 <= j < |points| && rest[i].feature == (if flip then Flip(points[j].fp) else points[j].fp) by {
        forall i | 0 <= i < |rest|
          ensures exists j :: 0 <= j < |points| && rest[i].feature == (if flip then Flip(points[j].fp) else points[j].fp)
        {
          var j :| 0 <= j < |points[1..]| && rest[i].feature == (if flip then Flip(points[1..][j].fp) else points[1..][j].fp);
          assert points[1..][j] == points[j + 1];
        }
      }
      here + rest
  }

  /** With a unit front normal, each contact lies on the reference face. */
  lemma {:induction false} ContactsOnReferenceFace(points: seq<ClipVertex>, s: ClipSetup, normal: Vector2, flip: bool, i: int)
    requires LengthSq(s.frontNormal) == 1.0
    requires 0 <= i < |EmitContacts(points, s, normal, flip)|
    ensures Dot(s.frontNormal, EmitContacts(points, s, normal, flip)[i].position) == s.front
    decreases |points|
  {
    var p := points[0];
    var separation := Dot(s.frontNormal, p.v) - s.front;
    if separation <= 0.0 && i == 0 {
      SlideOntoFace(s.frontNormal, p.v, separation);
    } else {
      ContactsOnReferenceFace(points[1..], s, normal, flip, if separation <= 0.0 then i - 1 else i);
    }
  }

  lemma SlideOntoFace(n: Vector2, v: Vector2, separation: real)
    requires LengthSq(n) == 1.0
    ensures Dot(n, Sub(v, Scale(separation, n))) == Dot(n, v) - separation
  {
    assert n.x * (n.x * separation) + n.y * (n.y * separation) == separation * (n.x * n.x + n.y * n.y);
  }

  /** The clipped incident points, or fewer than two when clipping removes the edge. */
  function ClipToReferenceFace(s: ClipSetup): (r: seq<ClipVertex>)
    ensures |r| <= 2
  {
    var clip1 := ClipSegmentToLine(s.incident, Neg(s.sideNormal), s.negSide, s.negEdge);
    if |clip1| < 2 then clip1
    else ClipSegmentToLine(Segment(clip1[0], clip1[1]), s.sideNormal, s.posSide, s.posEdge)
  }

  /**
   * `CollideBoxes`: the contacts of two boxes, the normal pointing from A
   * to B. Fewer than two clipped points give no contact at all; every
   * contact carries the chosen axis's normal and the feature of a clipped
   * point, flipped exactly when the reference face is B's.
   */
  function CollideBoxes(a: BoxFrame, b: BoxFrame): (r: seq<Contact>)
    ensures |r| <= MaxPoints
    ensures Separated(FaceSeparations(a, b)) ==> r == []
    ensures !Separated(FaceSeparations(a, b)) ==>
      var c := SelectAxis(a, b, FaceSeparations(a, b));
      var points := ClipToReferenceFace(ReferenceFace(a, b, c));
      && (|points| < 2 ==> r == [])
      && (forall i :: 0 <= i < |r| ==> r[i].normal == c.normal)
      && (forall i :: 0 <= i < |r| ==>
            exists j :: 0 <= j < |points| && r[i].feature == (if IsFaceOfB(c.axis) then Flip(points[j].fp) else points[j].fp))
    ensures forall i :: 0 <= i < |r| ==> r[i].separation <= 0.0
    ensures forall i :: 0 <= i < |r| ==> r[i] == DetectedContact(r[i].separation, r[i].normal, r[i].position, r[i].feature)
  {
    var t := FaceSeparations(a, b);
    if Separated(t) then []
    else
      var c := SelectAxis(a, b, t);
      var s := ReferenceFace(a, b, c);
      var points := ClipToReferenceFace(s);
      if |points| < 2 then [] else EmitContacts(points, s, c.normal, IsFaceOfB(c.axis))
  }

  /** Every feature a box contact reports is made of edge numbers. */
  lemma {:induction false} BoxFeaturesAreEdges(a: BoxFrame, b: BoxFrame, i: int)
    requires 0 <= i < |CollideBoxes(a, b)|
    ensures EdgeFeature(CollideBoxes(a, b)[i].feature)
  {
    var t := FaceSeparations(a, b);
    var c := SelectAxis(a, b, t);
    var s := ReferenceFace(a, b, c);
    var clip1 := ClipSegmentToLine(s.incident, Neg(s.sideNormal), s.negSide, s.negEdge);
    var points := ClipToReferenceFace(s);
    var flip := IsFaceOfB(c.axis);
    var r := EmitContacts(points, s, c.normal, flip);
    assert r == CollideBoxes(a, b);
    var j :| 0 <= j < |points| && r[i].feature == (if flip then Flip(points[j].fp) else points[j].fp);
    assert EdgeFeature(s.incident.start.fp) && EdgeFeature(s.incident.end.fp);
    ClipKeepsEdgeFeatures(s.incident, Neg(s.sideNormal), s.negSide, s.negEdge, 0);
    ClipKeepsEdgeFeatures(s.incident, Neg(s.sideNormal), s.negSide, s.negEdge, 1);
    ClipKeepsEdgeFeatures(Segment(clip1[0], clip1[1]), s.sideNormal, s.posSide, s.posEdge, j);
  }

  // ---------------------------------------------------------------------------
  // Circles
  // ---------------------------------------------------------------------------

  /** The squared distance between the centres. */
  function CentreDistSq(posA: Vector2, posB: Vector2): real
  {
    LengthSq(Sub(posA, posB))
  }

  /** `CollideCircles`: one contact unless the centres are further apart than the radii reach. */
  function CollideCircles(rA: real, posA: Vector2, rB: real, posB: Vector2, ops: FloatOps): (r: seq<Contact>)
    ensures |r| == 0 <==> CentreDistSq(posA, posB) > (rA + rB) * (rA + rB)
    ensures |r| <= 1
    ensures |r| == 1 ==> r[0].separation == ops.sqrt(CentreDistSq(posA, posB)) - (rA + rB) && r[0].feature == ZeroFeature
    ensures |r| == 1 ==> r[0] == DetectedContact(r[0].separation, r[0].normal, r[0].position, ZeroFeature)
  {
    var rad := rA + rB;
    var distSq := LengthSq(Sub(posA, posB));
    if distSq > rad * rad then []
    else
      var separation := ops.sqrt(distSq) - rad;
      var normal := ops.normalize(Sub(posB, posA));
      [DetectedContact(separation, normal, Add(posB, Scale(separation, normal)), ZeroFeature)]
  }

  /** Whether two circles touch does not depend on which one is A. */
  lemma CirclesSymmetric(rA: real, posA: Vector2, rB: real, posB: Vector2, ops: FloatOps)
    ensures |CollideCircles(rA, posA, rB, posB, ops)| == |CollideCircles(rB, posB, rA, posA, ops)|
  {
    assert CentreDistSq(posA, posB) == CentreDistSq(posB, posA);
    assert (rA + rB) * (rA + rB) == (rB + rA) * (rB + rA);
  }

  // ---------------------------------------------------------------------------
  // Circle against box
  // ---------------------------------------------------------------------------

  /** The circle's centre p, in the box's frame, lies outside the box with half extents h. */
  predicate Outside(p: Vector2, h: Vector2)
  {
    p.x < -h.x || p.x > h.x || p.y < -h.y || p.y > h.y
  }

  /** The point of the box nearest to p: each coordinate clamped to the box. */
  function ClosestPoint(p: Vector2, h: Vector2): (q: Vector2)
    ensures -h.x <= h.x ==> -h.x <= q.x <= h.x
    ensures -h.y <= h.y ==> -h.y <= q.y <= h.y
  {
    Vector2(Min(Max(p.x, -h.x), h.x), Min(Max(p.y, -h.y), h.y))
  }

  /** A point of the box is its own closest point, and a point outside is not. */
  lemma ClosestPointFixesInside(p: Vector2, h: Vector2)
    requires -h.x <= h.x && -h.y <= h.y
    ensures ClosestPoint(p, h) == p <==> !Outside(p, h)
  {
  }

  /** The distances from p to the left, right, bottom and top sides of the box. */
  function FaceDistances(p: Vector2, h: Vector2): (d: seq<real>)
    ensures |d| == 4
    ensures !Outside(p, h) ==> forall i :: 0 <= i < 4 ==> d[i] >= 0.0
  {
    [p.x - (-h.x), h.x - p.x, p.y - (-h.y), h.y - p.y]
  }

  /** The outward normal of the side `FaceDistances` lists at index i. */
  function SideNormal(i: int): Vector2
    requires 0 <= i < 4
  {
    if i == 0 then Vector2(-1.0, 0.0)
    else if i == 1 then Vector2(1.0, 0.0)
    else if i == 2 then Vector2(0.0, -1.0)
    else Vector2(0.0, 1.0)
  }

  /**
   * The index of the first smallest of the first n entries, as the loop
   * over `dists` finds it: a later entry replaces the current one only
   * when it is strictly smaller.
   */
  function FirstMinIndex(s: seq<real>, n: nat): (i: nat)
    requires 0 < n <= |s|
    ensures i < n
    ensures forall j :: 0 <= j < n ==> s[i] <= s[j]
    ensures forall j :: 0 <= j < i ==> s[j] > s[i]
  {
    if n == 1 then 0
    else
      var k := FirstMinIndex(s, n - 1);
      if s[n - 1] < s[k] then n - 1 else k
  }

  /** `CollideCircleBox`: circle A of radius rad against box B (width wB, rotation angle angleB). */
  function CollideCircleBox(rad: real, posA: Vector2, wB: Vector2, posB: Vector2, angleB: real, ops: FloatOps): (r: seq<Contact>)
    ensures |r| <= 1
    ensures var hB := Scale(0.5, wB);
            var rel := MulV(Transpose(ops.rotation(angleB)), Sub(posA, posB));
      && (Outside(rel, hB) ==> (|r| == 0 <==> ops.sqrt(LengthSq(Sub(ClosestPoint(rel, hB), rel))) > rad))
      && (!Outside(rel, hB) ==> |r| == 1 && r[0].separation == -(FaceDistances(rel, hB)[FirstMinIndex(FaceDistances(rel, hB), 4)] + rad))
    ensures |r| == 1 ==> r[0] == DetectedContact(r[0].separation, r[0].normal, r[0].position, ZeroFeature)
  {
    var hB := Scale(0.5, wB);
    var rotB := Transpose(ops.rotation(angleB));
    var rel := MulV(rotB, Sub(posA, posB));
    if Outside(rel, hB) then
      var toClosest := Sub(ClosestPoint(rel, hB), rel);
      var d := ops.sqrt(LengthSq(toClosest));
      if d > rad then []
      else
        var normal := ops.normalize(MulV(Transpose(rotB), toClosest));
        [DetectedContact(d - rad, normal, Add(posA, Scale(rad, normal)), ZeroFeature)]
    else
      var dists := FaceDistances(rel, hB);
      var iMin := FirstMinIndex(dists, 4);
      var normal := ops.normalize(MulV(Transpose(rotB), Neg(SideNormal(iMin))));
      [DetectedContact(-(dists[iMin] + rad), normal, Add(posA, Scale(rad, normal)), ZeroFeature)]
  }

  /** `CollideBoxCircle`: box A (width wA, rotation angle angleA) against circle B of radius rad. */
  function CollideBoxCircle(wA: Vector2, posA: Vector2, angleA: real, rad: real, posB: Vector2, ops: FloatOps): (r: seq<Contact>)
    ensures |r| <= 1
    ensures var hA := Scale(0.5, wA);
            var rel := MulV(Transpose(ops.rotation(angleA)), Sub(posB, posA));
      && (Outside(rel, hA) ==> (|r| == 0 <==> ops.sqrt(LengthSq(Sub(rel, ClosestPoint(rel, hA)))) > rad))
      && (!Outside(rel, hA) ==> |r| == 1 && r[0].separation == -(FaceDistances(rel, hA)[FirstMinIndex(FaceDistances(rel, hA), 4)] + rad))
    ensures |r| == 1 ==> r[0] == DetectedContact(r[0].separation, r[0].normal, r[0].position, ZeroFeature)
  {
    var hA := Scale(0.5, wA);
    var rotA := Transpose(ops.rotation(angleA));
    var rel := MulV(rotA, Sub(posB, posA));
    if Outside(rel, hA) then
      var toClosest := Sub(rel, ClosestPoint(rel, hA));
      var d := ops.sqrt(LengthSq(toClosest));
      if d > rad then []
      else
        var normal := ops.normalize(MulV(Transpose(rotA), toClosest));
        [DetectedContact(d - rad, normal, Sub(posB, Scale(rad, normal)), ZeroFeature)]
    else
      var dists := FaceDistances(rel, hA);
      var iMin := FirstMinIndex(dists, 4);
      var normal := ops.normalize(MulV(Transpose(rotA), SideNormal(iMin)));
      [DetectedContact(-(dists[iMin] + rad), normal, Add(posA, Scale(rad, normal)), ZeroFeature)]
  }

  /** A circle whose centre is inside the box penetrates by at least its radius. */
  lemma InsideSeparation(p: Vector2, h: Vector2, rad: real)
    requires !Outside(p, h)
    ensures -(FaceDistances(p, h)[FirstMinIndex(FaceDistances(p, h), 4)] + rad) <= -rad
  {
  }

  // ---------------------------------------------------------------------------
  // Dispatch
  // ---------------------------------------------------------------------------

  /** Both bodies have a shape, which `Collide` dereferences. */
  predicate Collidable(a: Body, b: Body)
  {
    a.shape.ShapeOf? && b.shape.ShapeOf?
  }

  /** The box a body with a box shape occupies. */
  function FrameOf(body: Body, width: Vector2, ops: FloatOps): BoxFrame
  {
    BoxFrame(Scale(0.5, width), body.position, ops.rotation(body.rotation))
  }

  /** Two bodies with box shapes of widths wA and wB. */
  function CollideBoxPair(a: Body, wA: Vector2, b: Body, wB: Vector2, ops: FloatOps): (r: seq<Contact>)
    ensures |r| <= MaxPoints
    ensures forall i :: 0 <= i < |r| ==> r[i] == DetectedContact(r[i].separation, r[i].normal, r[i].position, r[i].feature)
    ensures forall i :: 0 <= i < |r| ==> EdgeFeature(r[i].feature)
  {
    var r := CollideBoxes(FrameOf(a, wA, ops), FrameOf(b, wB, ops));
    assert forall i :: 0 <= i < |r| ==> EdgeFeature(r[i].feature) by {
      forall i | 0 <= i < |r| ensures EdgeFeature(r[i].feature) {
        BoxFeaturesAreEdges(FrameOf(a, wA, ops), FrameOf(b, wB, ops), i);
      }
    }
    r
  }

  /** `Collide`: the routine for the two shapes' kinds. Every shape is a box or a circle. */
  function Collide(a: Body, b: Body, ops: FloatOps): (r: seq<Contact>)
    requires Collidable(a, b)
    ensures |r| <= MaxPoints
    ensures forall i :: 0 <= i < |r| ==> r[i] == DetectedContact(r[i].separation, r[i].normal, r[i].position, r[i].feature)
    ensures forall i :: 0 <= i < |r| ==> EdgeFeature(r[i].feature)
    ensures a.shape.shape.CircleShape? && b.shape.shape.CircleShape? ==>
      (|r| == 0 <==> CentreDistSq(a.position, b.position) > (a.shape.shape.radius + b.shape.shape.radius) * (a.shape.shape.radius + b.shape.shape.radius))
  {
    match a.shape.shape
    case BoxShape(wA) =>
      (match b.shape.shape
       case BoxShape(wB) => CollideBoxPair(a, wA, b, wB, ops)
       case CircleShape(rB) => CollideBoxCircle(wA, a.position, a.rotation, rB, b.position, ops))
    case CircleShape(rA) =>
      (match b.shape.shape
       case BoxShape(wB) => CollideCircleBox(rA, a.position, wB, b.position, b.rotation, ops)
       case CircleShape(rB) => CollideCircles(rA, a.position, rB, b.position, ops))
  }
}
