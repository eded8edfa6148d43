/**
 * Sample2D's collision shapes: a box given by its full width and height, and
 * a circle given by its radius. The C++ class hierarchy with a type tag
 * becomes one datatype whose constructor is the tag.
 */
module Shapes {
  import opened Vectors

  datatype Shape = BoxShape(width: Vector2) | CircleShape(radius: real)

  /** `BoxShape()`: a unit box. */
  const DefaultBox: Shape := BoxShape(Vector2(1.0, 1.0))

  /** `CircleShape()`: a circle of radius one half. */
  const DefaultCircle: Shape := CircleShape(0.5)

  /** `ComputeI`: the moment of inertia for a mass, m(w^2 + h^2)/12 for a box and m r^2/4 for a circle. */
  function ComputeI(s: Shape, mass: real): (i: real)
    ensures mass >= 0.0 ==> i >= 0.0
    ensures mass == 0.0 ==> i == 0.0
  {
    match s
    case BoxShape(w) => mass * (w.x * w.x + w.y * w.y) / 12.0
    case CircleShape(r) => mass * (r * r) / 4.0
  }

  /** Where `GetSupportV` writes the vertex id: nowhere for a null pointer, or one int. */
  datatype VertexSlot = NoSlot | Slot(id: int)

  datatype Support = Support(point: Vector2, slot: VertexSlot)

  /**
   * The corner of a box grown by `margin` that a vertex id names: bit 0 set
   * for the right side, bit 1 set for the top.
   */
  function Corner(width: Vector2, margin: real, id: int): Vector2
    requires 0 <= id < 4
  {
    var hx := width.x * 0.5 + margin;
    var hy := width.y * 0.5 + margin;
    Vector2(if id % 2 == 1 then hx else -hx, if id >= 2 then hy else -hy)
  }

  /** The vertex id of the box corner in direction dir. */
  function BoxVertexId(dir: Vector2): (id: int)
    ensures 0 <= id < 4
    ensures id % 2 == 1 <==> dir.x >= 0.0
    ensures id >= 2 <==> dir.y >= 0.0
  {
    (if dir.x >= 0.0 then 1 else 0) + (if dir.y >= 0.0 then 2 else 0)
  }

  /** `GetSupportV`: the point of the shape grown by `margin` furthest along dir. */
  function GetSupportV(s: Shape, dir: Vector2, margin: real, slot: VertexSlot): (r: Support)
    ensures slot == NoSlot <==> r.slot == NoSlot
    ensures s.CircleShape? ==> r.point == Scale(s.radius + margin, dir)
    ensures s.CircleShape? && slot.Slot? ==> r.slot == Slot(0)
  {
    match s
    case BoxShape(w) =>
      var px := if dir.x >= 0.0 then w.x * 0.5 + margin else -w.x * 0.5 - margin;
      var py := if dir.y >= 0.0 then w.y * 0.5 + margin else -w.y * 0.5 - margin;
      Support(Vector2(px, py), if slot.Slot? then Slot(BoxVertexId(dir)) else NoSlot)
    case CircleShape(rad) =>
      Support(Scale(rad + margin, dir), if slot.Slot? then Slot(0) else NoSlot)
  }

  /**
   * A box's support point is the corner its reported vertex id names, each
   * coordinate +(half width + margin) exactly when dir's is non-negative.
   */
  lemma BoxSupportIsCorner(width: Vector2, dir: Vector2, margin: real)
    ensures var r := GetSupportV(BoxShape(width), dir, margin, Slot(0));
      && r.slot.Slot? && 0 <= r.slot.id < 4
      && r.point == Corner(width, margin, r.slot.id)
      && (r.point.x == width.x * 0.5 + margin <== dir.x >= 0.0)
      && (r.point.x == -(width.x * 0.5 + margin) <== dir.x < 0.0)
      && (r.point.y == width.y * 0.5 + margin <== dir.y >= 0.0)
      && (r.point.y == -(width.y * 0.5 + margin) <== dir.y < 0.0)
  {
  }

  /** Without a slot nothing is reported, and the point is the same as with one. */
  lemma SupportIgnoresSlot(s: Shape, dir: Vector2, margin: real, slot: VertexSlot)
    ensures GetSupportV(s, dir, margin, slot).point == GetSupportV(s, dir, margin, NoSlot).point
  {
  }
}
