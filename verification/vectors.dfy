/**
 * Sample2D's `Vector2`: a pair of floats with the usual algebra, modelled
 * over exact reals. Only the operations the physics code relies on are here;
 * lengths and normalisation need a square root and are passed in by the
 * callers that use them.
 */
module Vectors {

  datatype Vector2 = Vector2(x: real, y: real)

  /** The default-constructed vector. */
  const Zero: Vector2 := Vector2(0.0, 0.0)

  function Add(a: Vector2, b: Vector2): Vector2
  {
    Vector2(a.x + b.x, a.y + b.y)
  }

  function Sub(a: Vector2, b: Vector2): Vector2
  {
    Vector2(a.x - b.x, a.y - b.y)
  }

  function Neg(a: Vector2): Vector2
  {
    Vector2(-a.x, -a.y)
  }

  /** Both `v * s` and `s * v`: each component times s. */
  function Scale(s: real, v: Vector2): Vector2
  {
    Vector2(v.x * s, v.y * s)
  }

  function Dot(a: Vector2, b: Vector2): real
  {
    a.x * b.x + a.y * b.y
  }

  function LengthSq(v: Vector2): (r: real)
    ensures r >= 0.0
  {
    v.x * v.x + v.y * v.y
  }

  /** The scalar cross product `Cross(a, b)`. */
  function Cross(a: Vector2, b: Vector2): real
  {
    a.x * b.y - a.y * b.x
  }

  /** `Cross(a, s)`: a turned a quarter clockwise and scaled by s. */
  function CrossVS(a: Vector2, s: real): Vector2
  {
    Vector2(s * a.y, -s * a.x)
  }

  /** `Cross(s, a)`: a turned a quarter anticlockwise and scaled by s. */
  function CrossSV(s: real, a: Vector2): Vector2
  {
    Vector2(-s * a.y, s * a.x)
  }

  function Max(a: real, b: real): real
  {
    if a < b then b else a
  }

  function Min(a: real, b: real): real
  {
    if b < a then b else a
  }

  function ComponentMax(a: Vector2, b: Vector2): (r: Vector2)
    ensures StrictlyGreaterThanOrEqual(r, a) && StrictlyGreaterThanOrEqual(r, b)
    ensures (r.x == a.x || r.x == b.x) && (r.y == a.y || r.y == b.y)
  {
    Vector2(Max(a.x, b.x), Max(a.y, b.y))
  }

  function ComponentMin(a: Vector2, b: Vector2): (r: Vector2)
    ensures StrictlyGreaterThanOrEqual(a, r) && StrictlyGreaterThanOrEqual(b, r)
    ensures (r.x == a.x || r.x == b.x) && (r.y == a.y || r.y == b.y)
  {
    Vector2(Min(a.x, b.x), Min(a.y, b.y))
  }

  /** Both components at least those of `other`. */
  predicate StrictlyGreaterThanOrEqual(v: Vector2, other: Vector2)
  {
    v.x >= other.x && v.y >= other.y
  }

  function AbsReal(a: real): (r: real)
    ensures r >= 0.0 && (r == a || r == -a)
  {
    if a < 0.0 then -a else a
  }

  function Abs(a: Vector2): (r: Vector2)
    ensures r.x >= 0.0 && r.y >= 0.0
    ensures (r.x == a.x || r.x == -a.x) && (r.y == a.y || r.y == -a.y)
  {
    Vector2(AbsReal(a.x), AbsReal(a.y))
  }

  lemma DotSymmetric(a: Vector2, b: Vector2)
    ensures Dot(a, b) == Dot(b, a)
  {
  }

  lemma LengthSqIsDot(v: Vector2)
    ensures LengthSq(v) == Dot(v, v) && Dot(v, v) >= 0.0
  {
  }

  lemma CrossAntisymmetric(a: Vector2, b: Vector2)
    ensures Cross(a, b) == -Cross(b, a)
  {
  }

  /** `Cross(a, s)` is perpendicular to a. */
  lemma CrossVSPerpendicular(a: Vector2, s: real)
    ensures Dot(a, CrossVS(a, s)) == 0.0
  {
  }

  lemma CrossSVNegates(s: real, a: Vector2)
    ensures CrossSV(s, a) == Neg(CrossVS(a, s))
  {
  }

  /** The component maximum is the least vector above both: c is above it exactly when c is above both. */
  lemma ComponentMaxLeast(a: Vector2, b: Vector2, c: Vector2)
    ensures StrictlyGreaterThanOrEqual(c, ComponentMax(a, b))
       <==> StrictlyGreaterThanOrEqual(c, a) && StrictlyGreaterThanOrEqual(c, b)
  {
  }

  /** The component minimum is the greatest vector below both. */
  lemma ComponentMinGreatest(a: Vector2, b: Vector2, c: Vector2)
    ensures StrictlyGreaterThanOrEqual(ComponentMin(a, b), c)
       <==> StrictlyGreaterThanOrEqual(a, c) && StrictlyGreaterThanOrEqual(b, c)
  {
  }
}
