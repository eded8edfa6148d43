/**
 * The CPU ray tracer's scene query `TraceRay`: test every triangle in
 * order and either stop at the first hit, when the caller asks only
 * whether anything is hit, or keep the nearest hit. The per-triangle test
 * `RayTriangleIntersect` is floating-point geometry and enters as its
 * result for each triangle.
 */
module RayQuery {

  /** `FLT_MAX`, the starting value of the nearest distance. */
  const FltMax: real := 340282346638528859811704183484516925440.0

  /** What `RayTriangleIntersect` reports for one triangle: a miss, or a hit at a distance along the ray. */
  datatype Test = Miss | Hit(dist: real)

  /** What `TraceRay` leaves in the caller's intersection record: untouched, or the hit it kept. */
  datatype Written = Untouched | Nearest(triangle: nat, dist: real)

  /**
   * Triangle k's hit at distance d is the one to keep: it is nearer than
   * `FLT_MAX`, no hit is nearer, and every earlier hit is strictly farther.
   */
  predicate IsNearest(tests: seq<Test>, k: nat, d: real)
  {
    && k < |tests| && tests[k] == Hit(d) && d < FltMax
    && (forall i :: 0 <= i < |tests| && tests[i].Hit? ==> d <= tests[i].dist)
    && (forall i :: 0 <= i < k && tests[i].Hit? ==> d < tests[i].dist)
  }

  /** At most one triangle is the nearest hit. */
  lemma NearestIsUnique(tests: seq<Test>, k1: nat, d1: real, k2: nat, d2: real)
    requires IsNearest(tests, k1, d1) && IsNearest(tests, k2, d2)
    ensures k1 == k2 && d1 == d2
  {
  }

  /** The distance a new hit must beat: the kept hit's, or `FLT_MAX` before any. */
  function Bar(w: Written): real
  {
    if w.Nearest? then w.dist else FltMax
  }

  /** One step of the scan: a hit strictly nearer than the bar replaces the kept one. */
  function Keep(w: Written, k: nat, t: Test): Written
  {
    if t.Hit? && t.dist < Bar(w) then Nearest(k, t.dist) else w
  }

  /** The intersection the scan over all triangles leaves, as a left fold of `Keep`. */
  function NearestHit(tests: seq<Test>): Written
  {
    if |tests| == 0 then Untouched
    else Keep(NearestHit(tests[..|tests| - 1]), |tests| - 1, tests[|tests| - 1])
  }

  /**
   * The fold keeps exactly the nearest hit below `FLT_MAX`, earliest among
   * equals, and keeps nothing only when every hit is at `FLT_MAX` or beyond.
   */
  lemma {:induction false} NearestHitIsNearest(tests: seq<Test>)
    ensures NearestHit(tests).Nearest? ==> IsNearest(tests, NearestHit(tests).triangle, NearestHit(tests).dist)
    ensures NearestHit(tests).Untouched? <==> forall i :: 0 <= i < |tests| && tests[i].Hit? ==> tests[i].dist >= FltMax
  {
    if |tests| > 0 {
      var n := |tests| - 1;
      var front := tests[..n];
      NearestHitIsNearest(front);
      assert forall i :: 0 <= i < n ==> tests[i] == front[i];
    }
  }

  /**
   * `TraceRay`. Without an intersection record it returns at the first hit,
   * having tested `tested` triangles; with one it tests every triangle and
   * writes the nearest hit below `FLT_MAX`, the earliest among equals.
   */
  method TraceRay(tests: seq<Test>, wantsIntersection: bool) returns (hit: bool, written: Written, tested: nat)
    ensures hit <==> exists i :: 0 <= i < |tests| && tests[i].Hit?
    ensures tested <= |tests|
    ensures !wantsIntersection ==> written == Untouched
    ensures !wantsIntersection && hit ==>
      tested > 0 && tests[tested - 1].Hit? && forall i :: 0 <= i < tested - 1 ==> tests[i].Miss?
    ensures wantsIntersection || !hit ==> tested == |tests|
    ensures wantsIntersection ==> written == NearestHit(tests)
    ensures written.Nearest? ==> IsNearest(tests, written.triangle, written.dist)
    ensures wantsIntersection ==>
      (written.Untouched? <==> forall i :: 0 <= i < |tests| && tests[i].Hit? ==> tests[i].dist >= FltMax)
  {
    hit := false;
    written := Untouched;
    var nearest := FltMax;
    var i := 0;
    while i < |tests|
      invariant 0 <= i <= |tests|
      invariant hit <==> exists j :: 0 <= j < i && tests[j].Hit?
      invariant !wantsIntersection ==> !hit && written == Untouched
      invariant wantsIntersection ==> written == NearestHit(tests[..i])
      invariant nearest == Bar(written)
    {
      tested := i + 1;
      var t := tests[i];
      if t.Hit? {
        if !wantsIntersection {
          hit := true;
          return;
        }
        if t.dist < nearest {
          nearest := t.dist;
          written := Nearest(i, t.dist);
        }
        hit := true;
      }
      assert tests[..i + 1][..i] == tests[..i];
      i := i + 1;
    }
    tested := |tests|;
    assert tests[..|tests|] == tests;
    NearestHitIsNearest(tests);
  }
}
