/** Sample2D's axis-aligned bounding box `AABB`. */
module Bounds {
  import opened Vectors

  datatype AABB = AABB(min: Vector2, max: Vector2)

  /** The extent of a box: its maximum corner less its minimum corner. */
  function Extent(b: AABB): Vector2
  {
    Sub(b.max, b.min)
  }

  /** `Translate`: both corners moved by t, so the extent and the corner order are kept. */
  function Translate(b: AABB, t: Vector2): (r: AABB)
    ensures Sub(r.min, b.min) == t && Sub(r.max, b.max) == t
    ensures Extent(r) == Extent(b)
    ensures StrictlyGreaterThanOrEqual(r.max, r.min) <==> StrictlyGreaterThanOrEqual(b.max, b.min)
  {
    AABB(Add(b.min, t), Add(b.max, t))
  }

  lemma TranslateZero(b: AABB)
    ensures Translate(b, Zero) == b
  {
  }

  lemma TranslateTwice(b: AABB, t: Vector2, u: Vector2)
    ensures Translate(Translate(b, t), u) == Translate(b, Add(t, u))
  {
  }
}
