/**
 * Sample2D's contact manifold (Manifold.cpp): the contacts between one pair
 * of bodies, kept from step to step so that the solver can warm start from
 * the impulses it found last time, and the sequential-impulse solver steps
 * that run on it.
 *
 * The two bodies are named by their addresses and looked up in a store;
 * writing each body back before reading the other keeps the C++ meaning
 * even when both pointers name the same body.
 */
module Manifolds {
  import opened Vectors
  import opened Matrices
  import opened Bodies
  import opened Contacts
  import opened Collision

  /** The bodies the solver reads and writes, by address. */
  type Store = map<BodyId, Body>

  datatype Manifold = Manifold(contacts: seq<Contact>, body1: BodyId, body2: BodyId, friction: real)

  /** Both bodies are in the store. */
  predicate Resolves(m: Manifold, store: Store)
  {
    m.body1 in store && m.body2 in store
  }

  /**
   * `Manifold(a, b)`: the lower address becomes body1, the contacts come
   * from `Collide` in that order, and the friction is the geometric mean of
   * the bodies' frictions.
   */
  function NewManifold(a: BodyId, b: BodyId, store: Store, ops: FloatOps): (m: Manifold)
    requires a in store && b in store && Collidable(store[a], store[b])
    ensures m.body1 == MakePairKey(a, b).body1 && m.body2 == MakePairKey(a, b).body2
    ensures |m.contacts| <= MaxPoints
    ensures m.contacts == Collide(store[m.body1], store[m.body2], ops)
    ensures m.friction == ops.sqrt(store[a].friction * store[b].friction)
  {
    if a < b then Manifold(Collide(store[a], store[b], ops), a, b, ops.sqrt(store[a].friction * store[b].friction))
    else Manifold(Collide(store[b], store[a], ops), b, a, ops.sqrt(store[b].friction * store[a].friction))
  }

  /** The order in which the two bodies are named does not matter. */
  lemma NewManifoldSymmetric(a: BodyId, b: BodyId, store: Store, ops: FloatOps)
    requires a in store && b in store && Collidable(store[a], store[b])
    ensures NewManifold(a, b, store, ops) == NewManifold(b, a, store, ops)
  {
  }

  // ---------------------------------------------------------------------------
  // Update: merging new contacts with the previous ones
  // ---------------------------------------------------------------------------

  /** The index of the first previous contact whose feature value is v, or -1. */
  function FirstMatch(prev: seq<Contact>, v: int): (k: int)
    ensures -1 <= k < |prev|
    ensures k == -1 <==> forall j :: 0 <= j < |prev| ==> FeatureValue(prev[j].feature) != v
    ensures k >= 0 ==> FeatureValue(prev[k].feature) == v && forall j :: 0 <= j < k ==> FeatureValue(prev[j].feature) != v
  {
    if |prev| == 0 then -1
    else if FeatureValue(prev[0].feature) == v then 0
    else
      var k := FirstMatch(prev[1..], v);
      assert forall j :: 1 <= j < |prev| ==> prev[1..][j - 1] == prev[j];
      if k == -1 then -1 else k + 1
  }

  /**
   * A new contact after merging: it keeps everything it was given, except
   * that a contact continuing a previous one (same feature value) starts
   * from the previous accumulated impulses.
   */
  function Merge(prev: seq<Contact>, c: Contact): (r: Contact)
    ensures r == c.(pn := r.pn, pt := r.pt, pnb := r.pnb)
    ensures var k := FirstMatch(prev, FeatureValue(c.feature));
      && (k >= 0 ==> r.pn == prev[k].pn && r.pt == prev[k].pt && r.pnb == prev[k].pnb)
      && (k == -1 ==> r == c)
  {
    var k := FirstMatch(prev, FeatureValue(c.feature));
    if k >= 0 then c.(pn := prev[k].pn, pt := prev[k].pt, pnb := prev[k].pnb) else c
  }

  /** The manifold after merging: one merged contact per new contact, in order. */
  function Merged(m: Manifold, newContacts: seq<Contact>): (r: Manifold)
    ensures r == m.(contacts := r.contacts)
    ensures |r.contacts| == |newContacts|
    ensures forall i :: 0 <= i < |newContacts| ==> r.contacts[i] == Merge(m.contacts, newContacts[i])
  {
    m.(contacts := seq(|newContacts|, i requires 0 <= i < |newContacts| => Merge(m.contacts, newContacts[i])))
  }

  /**
   * `Manifold::Update`: the manifold's contacts become the new contacts,
   * each merged with the previous ones; previous contacts nothing continues are
   * dropped. The bodies and the friction stay.
   */
  method Update(m: Manifold, newContacts: seq<Contact>) returns (r: Manifold)
    requires |newContacts| <= MaxPoints
    ensures r == Merged(m, newContacts)
  {
    var merged: seq<Contact> := [];
    var i := 0;
    while i < |newContacts|
      invariant 0 <= i <= |newContacts|
      invariant |merged| == i
      invariant forall p :: 0 <= p < i ==> merged[p] == Merge(m.contacts, newContacts[p])
    {
      var newContact := newContacts[i];
      var k := -1;
      var j := 0;
      while j < |m.contacts|
        invariant 0 <= j <= |m.contacts|
        invariant k == -1 ==> forall q :: 0 <= q < j ==> FeatureValue(m.contacts[q].feature) != FeatureValue(newContact.feature)
        invariant k >= 0 ==> k == FirstMatch(m.contacts, FeatureValue(newContact.feature))
      {
        if FeatureValue(newContact.feature) == FeatureValue(m.contacts[j].feature) {
          k := j;
          break;
        }
        j := j + 1;
      }
      if k > -1 {
        var prev := m.contacts[k];
        merged := merged + [newContact.(pn := prev.pn, pt := prev.pt, pnb := prev.pnb)];
      } else {
        merged := merged + [newContact];
      }
      i := i + 1;
    }
    r := m.(contacts := merged);
  }

  /**
   * For features made of `char` edge numbers, continuing a previous contact
   * means having the same feature, not only the same packed value.
   */
  lemma MergeMatchesFeature(prev: seq<Contact>, c: Contact)
    requires ValidFeature(c.feature) && forall j :: 0 <= j < |prev| ==> ValidFeature(prev[j].feature)
    ensures var k := FirstMatch(prev, FeatureValue(c.feature));
      && (k >= 0 ==> prev[k].feature == c.feature)
      && (k == -1 <==> forall j :: 0 <= j < |prev| ==> prev[j].feature != c.feature)
  {
    var k := FirstMatch(prev, FeatureValue(c.feature));
    if k >= 0 {
      FeatureValueIdentifies(prev[k].feature, c.feature);
    }
    forall j | 0 <= j < |prev|
      ensures prev[j].feature == c.feature <==> FeatureValue(prev[j].feature) == FeatureValue(c.feature)
    {
      FeatureValueIdentifies(prev[j].feature, c.feature);
    }
  }

  // ---------------------------------------------------------------------------
  // Applying an impulse to the two bodies
  // ---------------------------------------------------------------------------

  /** The store after moving only velocities: every other field of every body is kept. */
  predicate OnlyVelocities(s: Store, t: Store)
  {
    && s.Keys == t.Keys
    && forall id :: id in s ==> t[id] == s[id].(velocity := t[id].velocity, angularVelocity := t[id].angularVelocity)
  }

  lemma OnlyVelocitiesTransitive(s: Store, t: Store, u: Store)
    requires OnlyVelocities(s, t) && OnlyVelocities(t, u)
    ensures OnlyVelocities(s, u)
  {
  }

  /**
   * Impulse p at the contact pushes body2 along p and body1 against it:
   * body1 is written first, and body2 is read after that.
   */
  function PushApart(store: Store, id1: BodyId, id2: BodyId, r1: Vector2, r2: Vector2, p: Vector2): (t: Store)
    requires id1 in store && id2 in store
    ensures OnlyVelocities(store, t)
    ensures forall id :: id in store && id != id1 && id != id2 ==> t[id] == store[id]
    ensures id1 != id2 ==>
      && Sub(t[id1].velocity, store[id1].velocity) == Neg(Scale(store[id1].invMass, p))
      && Sub(t[id2].velocity, store[id2].velocity) == Scale(store[id2].invMass, p)
      && t[id1].angularVelocity - store[id1].angularVelocity == -(store[id1].invI * Cross(r1, p))
      && t[id2].angularVelocity - store[id2].angularVelocity == store[id2].invI * Cross(r2, p)
  {
    var b1 := store[id1];
    var s1 := store[id1 := b1.(velocity := Sub(b1.velocity, Scale(b1.invMass, p)),
                              angularVelocity := b1.angularVelocity - b1.invI * Cross(r1, p))];
    var b2 := s1[id2];
    s1[id2 := b2.(velocity := Add(b2.velocity, Scale(b2.invMass, p)),
                  angularVelocity := b2.angularVelocity + b2.invI * Cross(r2, p))]
  }

  lemma CrossNeg(r: Vector2, p: Vector2)
    ensures Cross(r, Neg(p)) == -Cross(r, p)
  {
  }

  /** Pushing with the opposite impulse undoes a push, even when both bodies are one. */
  lemma {:induction false} PushApartUndo(store: Store, id1: BodyId, id2: BodyId, r1: Vector2, r2: Vector2, p: Vector2)
    requires id1 in store && id2 in store
    ensures PushApart(PushApart(store, id1, id2, r1, r2, p), id1, id2, r1, r2, Neg(p)) == store
  {
    var t := PushApart(store, id1, id2, r1, r2, p);
    var u := PushApart(t, id1, id2, r1, r2, Neg(p));
    CrossNeg(r1, p);
    CrossNeg(r2, p);
    assert u.Keys == store.Keys;
    forall id | id in store
      ensures u[id] == store[id]
    {
      assert u[id].velocity == store[id].velocity;
      assert u[id].angularVelocity == store[id].angularVelocity;
    }
  }

  /** Momentum change of a body: mass times velocity change. */
  function Momentum(mass: real, dv: Vector2): Vector2
  {
    Scale(mass, dv)
  }

  lemma ScaleInverse(mass: real, invMass: real, p: Vector2)
    requires mass * invMass == 1.0
    ensures Scale(mass, Scale(invMass, p)) == p
  {
    assert p.x * invMass * mass == p.x * (mass * invMass);
    assert p.y * invMass * mass == p.y * (mass * invMass);
  }

  /**
   * Between two different movable bodies a push conserves momentum: what
   * body2 gains, body1 loses.
   */
  lemma {:induction false} PushApartConservesMomentum(store: Store, id1: BodyId, id2: BodyId, r1: Vector2, r2: Vector2, p: Vector2)
    requires id1 in store && id2 in store && id1 != id2
    requires store[id1].mass * store[id1].invMass == 1.0 && store[id2].mass * store[id2].invMass == 1.0
    ensures var t := PushApart(store, id1, id2, r1, r2, p);
      && Momentum(store[id2].mass, Sub(t[id2].velocity, store[id2].velocity)) == p
      && Momentum(store[id1].mass, Sub(t[id1].velocity, store[id1].velocity)) == Neg(p)
  {
    var b1 := store[id1];
    ScaleInverse(b1.mass, b1.invMass, p);
    ScaleInverse(store[id2].mass, store[id2].invMass, p);
    assert Scale(b1.mass, Neg(Scale(b1.invMass, p))) == Neg(Scale(b1.mass, Scale(b1.invMass, p)));
  }

  // ---------------------------------------------------------------------------
  // PreStep
  // ---------------------------------------------------------------------------

  const Slop: real := 0.01
  const BiasFactor: real := 0.2

  /** The contact tangent, `Cross(normal, 1.0f)`. */
  function Tangent(n: Vector2): Vector2
  {
    CrossVS(n, 1.0)
  }

  /** The inverse effective mass of the two bodies at offsets r1, r2 along direction d. */
  function InvEffectiveMass(b1: Body, b2: Body, r1: Vector2, r2: Vector2, d: Vector2): real
  {
    var rd1 := Dot(r1, d);
    var rd2 := Dot(r2, d);
    b1.invMass + b2.invMass + (b1.invI * (Dot(r1, r1) - rd1 * rd1) + b2.invI * (Dot(r2, r2) - rd2 * rd2))
  }

  /** `k > 0 ? 1 / k : 0`. */
  function InverseOrZero(k: real): (m: real)
    ensures k > 0.0 ==> m * k == 1.0 && m > 0.0
    ensures k <= 0.0 ==> m == 0.0
  {
    if k > 0.0 then 1.0 / k else 0.0
  }

  /** The velocity bias that pushes penetrating bodies apart beyond the allowed slop. */
  function Bias(invDt: real, separation: real): (b: real)
    ensures invDt >= 0.0 ==> b >= 0.0
    ensures b > 0.0 <==> invDt > 0.0 && separation + Slop < 0.0
  {
    var m := Min(0.0, separation + Slop);
    assert m <= 0.0;
    assert invDt > 0.0 && m < 0.0 ==> invDt * m < 0.0;
    assert invDt < 0.0 && m < 0.0 ==> invDt * m > 0.0;
    -BiasFactor * invDt * m
  }

  /** The Lagrange identity in the plane: |r|^2 |d|^2 - (r.d)^2 == (r x d)^2. */
  lemma Lagrange(r: Vector2, d: Vector2)
    ensures Dot(r, r) * Dot(d, d) - Dot(r, d) * Dot(r, d) == Cross(r, d) * Cross(r, d)
  {
  }

  /**
   * Along a unit direction the rotational terms cannot be negative, so two
   * bodies with non-negative inverse masses and inertias resist at least as
   * much as their inverse masses say.
   */
  lemma {:induction false} InvEffectiveMassBound(b1: Body, b2: Body, r1: Vector2, r2: Vector2, d: Vector2)
    requires Dot(d, d) == 1.0
    requires b1.invI >= 0.0 && b2.invI >= 0.0
    ensures InvEffectiveMass(b1, b2, r1, r2, d) >= b1.invMass + b2.invMass
  {
    Lagrange(r1, d);
    Lagrange(r2, d);
    assert Dot(r1, r1) - Dot(r1, d) * Dot(r1, d) >= 0.0;
    assert Dot(r2, r2) - Dot(r2, d) * Dot(r2, d) >= 0.0;
    NonNegProduct(b1.invI, Dot(r1, r1) - Dot(r1, d) * Dot(r1, d));
    NonNegProduct(b2.invI, Dot(r2, r2) - Dot(r2, d) * Dot(r2, d));
  }

  lemma NonNegProduct(a: real, b: real)
    requires a >= 0.0 && b >= 0.0
    ensures a * b >= 0.0
  {
  }

  /** A contact and the store after one solver step on it. */
  datatype Solved = Solved(contact: Contact, store: Store)

  /**
   * One contact of `PreStep`: the effective masses along the normal and the
   * tangent, the bias, and the warm-start push with the accumulated impulses.
   */
  function PreStepContact(c: Contact, store: Store, id1: BodyId, id2: BodyId, invDt: real): (r: Solved)
    requires id1 in store && id2 in store
    ensures r.contact == c.(massNormal := r.contact.massNormal, massTangent := r.contact.massTangent, bias := r.contact.bias)
    ensures var r1 := Sub(c.position, store[id1].position);
            var r2 := Sub(c.position, store[id2].position);
            var kNormal := InvEffectiveMass(store[id1], store[id2], r1, r2, c.normal);
            var kTangent := InvEffectiveMass(store[id1], store[id2], r1, r2, Tangent(c.normal));
      && (kNormal > 0.0 ==> r.contact.massNormal * kNormal == 1.0)
      && (kNormal <= 0.0 ==> r.contact.massNormal == 0.0)
      && (kTangent > 0.0 ==> r.contact.massTangent * kTangent == 1.0)
      && (kTangent <= 0.0 ==> r.contact.massTangent == 0.0)
      && r.store == PushApart(store, id1, id2, r1, r2, Add(Scale(c.pn, c.normal), Scale(c.pt, Tangent(c.normal))))
    ensures invDt >= 0.0 ==> r.contact.bias >= 0.0
    ensures r.contact.bias > 0.0 <==> invDt > 0.0 && c.separation + Slop < 0.0
    ensures OnlyVelocities(store, r.store)
  {
    var b1 := store[id1];
    var b2 := store[id2];
    var r1 := Sub(c.position, b1.position);
    var r2 := Sub(c.position, b2.position);
    var tangent := Tangent(c.normal);
    var prepared := c.(massNormal := InverseOrZero(InvEffectiveMass(b1, b2, r1, r2, c.normal)),
                       massTangent := InverseOrZero(InvEffectiveMass(b1, b2, r1, r2, tangent)),
                       bias := Bias(invDt, c.separation));
    var totalImpulse := Add(Scale(c.pn, c.normal), Scale(c.pt, tangent));
    Solved(prepared, PushApart(store, id1, id2, r1, r2, totalImpulse))
  }

  /** A manifold and the store after a solver pass over all its contacts. */
  datatype Pass = Pass(manifold: Manifold, store: Store)

  /**
   * What `PreStep` does to a contact: only the effective masses and the
   * bias change, and the bias is positive exactly when the bodies
   * penetrate beyond the slop and time runs forward.
   */
  predicate Prepared(before: Contact, after: Contact, invDt: real)
  {
    && after == before.(massNormal := after.massNormal, massTangent := after.massTangent, bias := after.bias)
    && (invDt >= 0.0 ==> after.bias >= 0.0)
    && (after.bias > 0.0 <==> invDt > 0.0 && before.separation + Slop < 0.0)
  }

  /** `PreStep` on contacts i.. of m, the earlier ones already done. */
  function PreStepFrom(m: Manifold, store: Store, invDt: real, i: nat): (r: Pass)
    requires Resolves(m, store) && i <= |m.contacts|
    ensures r.manifold == m.(contacts := r.manifold.contacts)
    ensures |r.manifold.contacts| == |m.contacts|
    ensures OnlyVelocities(store, r.store)
    ensures forall j :: 0 <= j < i ==> r.manifold.contacts[j] == m.contacts[j]
    ensures forall j :: i <= j < |m.contacts| ==> Prepared(m.contacts[j], r.manifold.contacts[j], invDt)
    decreases |m.contacts| - i
  {
    if i == |m.contacts| then Pass(m, store)
    else
      var s := PreStepContact(m.contacts[i], store, m.body1, m.body2, invDt);
      var next := m.(contacts := m.contacts[i := s.contact]);
      var rest := PreStepFrom(next, s.store, invDt, i + 1);
      OnlyVelocitiesTransitive(store, s.store, rest.store);
      assert rest.manifold.contacts[i] == s.contact;
      rest
  }

  /** `Manifold::PreStep`: prepares every contact for the iterations, in order. */
  function PreStep(m: Manifold, store: Store, invDt: real): (r: Pass)
    requires Resolves(m, store)
    ensures r.manifold == m.(contacts := r.manifold.contacts)
    ensures |r.manifold.contacts| == |m.contacts|
    ensures OnlyVelocities(store, r.store)
    ensures forall j :: 0 <= j < |m.contacts| ==> Prepared(m.contacts[j], r.manifold.contacts[j], invDt)
  {
    PreStepFrom(m, store, invDt, 0)
  }

  // ---------------------------------------------------------------------------
  // ApplyImpulse
  // ---------------------------------------------------------------------------

  /** The velocity of the contact point on body2 relative to body1. */
  function RelativeVelocity(b1: Body, b2: Body, r1: Vector2, r2: Vector2): Vector2
  {
    Sub(Sub(Add(b2.velocity, CrossSV(b2.angularVelocity, r2)), b1.velocity), CrossSV(b1.angularVelocity, r1))
  }

  /** The accumulated normal impulse after adding dPn, clamped so that it only pushes. */
  function ClampNormal(pn0: real, dPn: real): (pn: real)
    ensures pn >= 0.0 && pn >= pn0 + dPn
    ensures pn == pn0 + dPn || pn == 0.0
  {
    Max(pn0 + dPn, 0.0)
  }

  /** The accumulated friction impulse after adding dPt, clamped to the friction cone. */
  function ClampTangent(pt0: real, dPt: real, maxPt: real): (pt: real)
    ensures maxPt >= 0.0 ==> -maxPt <= pt <= maxPt
    ensures -maxPt <= pt0 + dPt <= maxPt ==> pt == pt0 + dPt
  {
    Min(Max(pt0 + dPt, -maxPt), maxPt)
  }

  /**
   * The normal half of one contact of `ApplyImpulse`: the offsets of the
   * contact from the two centres, and the accumulated normal impulse,
   * clamped so that it only pushes. The push applied is the change of the
   * accumulated impulse, not the raw increment.
   */
  function NormalStep(c: Contact, store: Store, id1: BodyId, id2: BodyId): (r: Solved)
    requires id1 in store && id2 in store
    ensures r.contact == c.(r1 := r.contact.r1, r2 := r.contact.r2, pn := r.contact.pn)
    ensures r.contact.r1 == Sub(c.position, store[id1].position) && r.contact.r2 == Sub(c.position, store[id2].position)
    ensures r.contact.pn >= 0.0
    ensures OnlyVelocities(store, r.store)
  {
    var r1 := Sub(c.position, store[id1].position);
    var r2 := Sub(c.position, store[id2].position);
    var vn := Dot(RelativeVelocity(store[id1], store[id2], r1, r2), c.normal);
    var pn := ClampNormal(c.pn, c.massNormal * (-vn + c.bias));
    Solved(c.(r1 := r1, r2 := r2, pn := pn), PushApart(store, id1, id2, r1, r2, Scale(pn - c.pn, c.normal)))
  }

  /**
   * The friction half: the velocities after the normal push give the
   * friction increment, and the accumulated friction impulse is clamped to
   * friction times the accumulated normal impulse.
   */
  function TangentStep(c: Contact, store: Store, id1: BodyId, id2: BodyId, friction: real): (r: Solved)
    requires id1 in store && id2 in store && c.pn >= 0.0
    ensures r.contact == c.(pt := r.contact.pt)
    ensures WithinFriction(r.contact.pt, c.pn, friction)
    ensures OnlyVelocities(store, r.store)
  {
    var tangent := Tangent(c.normal);
    var vt := Dot(RelativeVelocity(store[id1], store[id2], c.r1, c.r2), tangent);
    NonNegProductIf(friction, c.pn);
    var pt := ClampTangent(c.pt, c.massTangent * (-vt), friction * c.pn);
    Solved(c.(pt := pt), PushApart(store, id1, id2, c.r1, c.r2, Scale(pt - c.pt, tangent)))
  }

  /**
   * The normal step pushes the bodies with the change of the accumulated
   * normal impulse along the normal, and the friction step with the change
   * of the accumulated friction impulse along the tangent.
   */
  lemma StepsPushTheChange(c: Contact, store: Store, id1: BodyId, id2: BodyId, friction: real)
    requires id1 in store && id2 in store
    ensures var n := NormalStep(c, store, id1, id2);
      n.store == PushApart(store, id1, id2, n.contact.r1, n.contact.r2, Scale(n.contact.pn - c.pn, c.normal))
    ensures var n := NormalStep(c, store, id1, id2);
            var t := TangentStep(n.contact, n.store, id1, id2, friction);
      t.store == PushApart(n.store, id1, id2, n.contact.r1, n.contact.r2, Scale(t.contact.pt - c.pt, Tangent(c.normal)))
  {
  }

  lemma NonNegProductIf(a: real, b: real)
    requires b >= 0.0
    ensures a >= 0.0 ==> a * b >= 0.0
  {
  }

  /** A friction impulse pt within the cone of normal impulse pn, when friction is not negative. */
  predicate WithinFriction(pt: real, pn: real, friction: real)
  {
    friction >= 0.0 ==> -(friction * pn) <= pt <= friction * pn
  }

  /**
   * What one `ApplyImpulse` pass does to a contact: only its offsets and
   * accumulated impulses change, the normal impulse pushes, and the
   * friction impulse stays within friction times the normal impulse.
   */
  predicate Impulsed(before: Contact, after: Contact, friction: real)
  {
    && after == before.(r1 := after.r1, r2 := after.r2, pn := after.pn, pt := after.pt)
    && after.pn >= 0.0
    && WithinFriction(after.pt, after.pn, friction)
  }

  /** One contact of `ApplyImpulse`: the normal step, then the friction step. */
  function ApplyContact(c: Contact, store: Store, id1: BodyId, id2: BodyId, friction: real): (r: Solved)
    requires id1 in store && id2 in store
    ensures Impulsed(c, r.contact, friction)
    ensures OnlyVelocities(store, r.store)
  {
    var n := NormalStep(c, store, id1, id2);
    var t := TangentStep(n.contact, n.store, id1, id2, friction);
    assert t.contact == n.contact.(pt := t.contact.pt);
    OnlyVelocitiesTransitive(store, n.store, t.store);
    t
  }

  /** `ApplyImpulse` on contacts i.. of m, the earlier ones already done. */
  function ApplyFrom(m: Manifold, store: Store, i: nat): (r: Pass)
    requires Resolves(m, store) && i <= |m.contacts|
    ensures r.manifold == m.(contacts := r.manifold.contacts)
    ensures |r.manifold.contacts| == |m.contacts|
    ensures OnlyVelocities(store, r.store)
    ensures forall j :: 0 <= j < i ==> r.manifold.contacts[j] == m.contacts[j]
    ensures forall j :: i <= j < |m.contacts| ==> Impulsed(m.contacts[j], r.manifold.contacts[j], m.friction)
    decreases |m.contacts| - i
  {
    if i == |m.contacts| then Pass(m, store)
    else
      var s := ApplyContact(m.contacts[i], store, m.body1, m.body2, m.friction);
      var next := m.(contacts := m.contacts[i := s.contact]);
      var rest := ApplyFrom(next, s.store, i + 1);
      OnlyVelocitiesTransitive(store, s.store, rest.store);
      assert rest.manifold.contacts[i] == s.contact;
      rest
  }

  /**
   * `Manifold::ApplyImpulse`: one sequential-impulse iteration over the
   * contacts, in order. Afterwards every normal impulse pushes and every
   * friction impulse is within friction times the normal impulse.
   */
  function ApplyImpulse(m: Manifold, store: Store): (r: Pass)
    requires Resolves(m, store)
    ensures r.manifold == m.(contacts := r.manifold.contacts)
    ensures |r.manifold.contacts| == |m.contacts|
    ensures OnlyVelocities(store, r.store)
    ensures forall j :: 0 <= j < |m.contacts| ==> Impulsed(m.contacts[j], r.manifold.contacts[j], m.friction)
  {
    ApplyFrom(m, store, 0)
  }
}
