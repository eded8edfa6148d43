/**
 * Sample2D's `PhysicsWorld`: a list of body pointers, the manifolds of the
 * pairs that touch kept in a map by pair key, gravity and an iteration
 * count. `Update` finds the touching pairs, integrates forces, runs the
 * sequential-impulse solver over the manifolds and integrates velocities.
 */
module PhysicsWorld {
  import opened Vectors
  import opened Matrices
  import opened Bodies
  import opened Contacts
  import opened Collision
  import opened Manifolds
  import opened PairMaps

  type ManifoldMap = seq<Entry<Manifold>>

  datatype World = World(bodies: seq<BodyId>, store: Store, manifolds: ManifoldMap, gravity: Vector2, iterations: int)

  /** A manifold filed under key k: it names k's bodies, and both are in the store. */
  predicate FiledAs(m: Manifold, k: PairKey, store: Store)
  {
    m.body1 == k.body1 && m.body2 == k.body2 && Resolves(m, store)
  }

  /** Every entry of a sorted map is filed under its own key. */
  predicate Filed(ms: ManifoldMap, store: Store)
  {
    Sorted(ms) && forall i :: 0 <= i < |ms| ==> FiledAs(ms[i].value, ms[i].key, store)
  }

  /** What `find` returns from a filed map is filed under the key asked for. */
  lemma FiledFind(ms: ManifoldMap, store: Store, k: PairKey)
    requires Filed(ms, store) && k in Keys(ms)
    ensures FiledAs(Find(ms, k).value, k, store)
  {
    var i :| 0 <= i < |ms| && ms[i] == Entry(k, Find(ms, k).value);
  }

  /** A sorted map all of whose lookups are filed is filed. */
  lemma FindFiled(ms: ManifoldMap, store: Store)
    requires Sorted(ms)
    requires forall k :: k in Keys(ms) ==> FiledAs(Find(ms, k).value, k, store)
    ensures Filed(ms, store)
  {
    forall i | 0 <= i < |ms|
      ensures FiledAs(ms[i].value, ms[i].key, store)
    {
      FindEntry(ms, i);
      assert ms[i].key in Keys(ms);
    }
  }

  /** The world's invariant: every listed body exists and the manifold map is filed. */
  predicate Valid(w: World)
  {
    && (forall i :: 0 <= i < |w.bodies| ==> w.bodies[i] in w.store)
    && Filed(w.manifolds, w.store)
  }

  /** `PhysicsWorld(gravity, iterations)`: no bodies and no manifolds. */
  function NewWorld(store: Store, gravity: Vector2, iterations: int): (w: World)
    ensures Valid(w)
    ensures w.bodies == [] && Keys(w.manifolds) == {}
    ensures w.gravity == gravity && w.iterations == iterations
  {
    World([], store, [], gravity, iterations)
  }

  /** `Add`: the body goes to the end of the list; adding it twice lists it twice. */
  function AddBody(w: World, id: BodyId): (r: World)
    requires Valid(w) && id in w.store
    ensures Valid(r)
    ensures |r.bodies| == |w.bodies| + 1 && r.bodies[|w.bodies|] == id
    ensures r.bodies[..|w.bodies|] == w.bodies
    ensures r == w.(bodies := r.bodies)
  {
    w.(bodies := w.bodies + [id])
  }

  // ---------------------------------------------------------------------------
  // The pairs the brute-force loop visits
  // ---------------------------------------------------------------------------

  /** Positions i < j in the body list. */
  datatype IndexPair = IndexPair(first: nat, second: nat)

  predicate PairLess(p: IndexPair, q: IndexPair)
  {
    p.first < q.first || (p.first == q.first && p.second < q.second)
  }

  predicate Ascending(s: seq<IndexPair>)
  {
    forall a, b :: 0 <= a < b < |s| ==> PairLess(s[a], s[b])
  }

  /** The inner loop of `UpdateManifolds` for row i, from column j on. */
  function Row(i: nat, j: nat, n: nat): seq<IndexPair>
    decreases n - j
  {
    if j >= n then [] else [IndexPair(i, j)] + Row(i, j + 1, n)
  }

  /** The outer loop of `UpdateManifolds`, from row i on. */
  function PairsFrom(i: nat, n: nat): seq<IndexPair>
    decreases n - i
  {
    if i >= n then [] else Row(i, i + 1, n) + PairsFrom(i + 1, n)
  }

  /** Every pair of positions of a list of n bodies, in the order the loops visit them. */
  function Pairs(n: nat): seq<IndexPair>
  {
    PairsFrom(0, n)
  }

  lemma {:induction false} RowMembers(i: nat, j: nat, n: nat)
    ensures forall p :: p in Row(i, j, n) <==> p.first == i && j <= p.second < n
    ensures Ascending(Row(i, j, n))
    decreases n - j
  {
    if j < n {
      RowMembers(i, j + 1, n);
      var r := Row(i, j, n);
      assert r[1..] == Row(i, j + 1, n);
      forall a, b | 0 <= a < b < |r|
        ensures PairLess(r[a], r[b])
      {
        if a == 0 {
          assert r[b] in Row(i, j + 1, n);
        } else {
          assert r[a] == r[1..][a - 1] && r[b] == r[1..][b - 1];
        }
      }
    }
  }

  lemma {:induction false} PairsFromMembers(i: nat, n: nat)
    ensures forall p :: p in PairsFrom(i, n) <==> i <= p.first < p.second < n
    ensures Ascending(PairsFrom(i, n))
    decreases n - i
  {
    if i < n {
      RowMembers(i, i + 1, n);
      PairsFromMembers(i + 1, n);
      var row := Row(i, i + 1, n);
      var rest := PairsFrom(i + 1, n);
      var s := row + rest;
      forall a, b | 0 <= a < b < |s|
        ensures PairLess(s[a], s[b])
      {
        if b < |row| {
          assert s[a] == row[a] && s[b] == row[b];
        } else if a < |row| {
          assert s[a] in row && s[b] == rest[b - |row|] && s[b] in rest;
        } else {
          assert s[a] == rest[a - |row|] && s[b] == rest[b - |row|];
        }
      }
    }
  }

  /**
   * The loops of `UpdateManifolds` visit each pair of positions i < j
   * exactly once, in row-major order, and nothing else.
   */
  lemma PairsVisitEachOnce(n: nat)
    ensures forall p :: p in Pairs(n) <==> p.first < p.second < n
    ensures forall a, b :: 0 <= a < b < |Pairs(n)| ==> PairLess(Pairs(n)[a], Pairs(n)[b])
    ensures forall a, b :: 0 <= a < b < |Pairs(n)| ==> Pairs(n)[a] != Pairs(n)[b]
  {
    PairsFromMembers(0, n);
  }

  // ---------------------------------------------------------------------------
  // UpdateManifolds
  // ---------------------------------------------------------------------------

  predicate InWorld(w: World, p: IndexPair)
  {
    p.first < p.second < |w.bodies|
  }

  /** The two bodies at p, both immovable: the loop skips them. */
  predicate Static(w: World, p: IndexPair)
    requires Valid(w) && InWorld(w, p)
  {
    Immovable(w.store[w.bodies[p.first]]) && Immovable(w.store[w.bodies[p.second]])
  }

  /** The key of the bodies at p. */
  function KeyAt(w: World, p: IndexPair): (k: PairKey)
    requires InWorld(w, p)
    ensures {k.body1, k.body2} == {w.bodies[p.first], w.bodies[p.second]}
  {
    MakePairKey(w.bodies[p.first], w.bodies[p.second])
  }

  /** Every pair the loop does not skip can be collided: both bodies have a shape. */
  predicate CanCollide(w: World)
    requires Valid(w)
  {
    forall i, j :: 0 <= i < j < |w.bodies| && !(Immovable(w.store[w.bodies[i]]) && Immovable(w.store[w.bodies[j]]))
      ==> Collidable(w.store[w.bodies[i]], w.store[w.bodies[j]])
  }

  /** The contacts `Collide` finds for the bodies at p, the lower address first. */
  function ContactsAt(w: World, p: IndexPair, ops: FloatOps): (cs: seq<Contact>)
    requires Valid(w) && CanCollide(w) && InWorld(w, p) && !Static(w, p)
    ensures |cs| <= MaxPoints
  {
    var k := KeyAt(w, p);
    assert Collidable(w.store[w.bodies[p.first]], w.store[w.bodies[p.second]]);
    Collide(w.store[k.body1], w.store[k.body2], ops)
  }

  /**
   * One turn of the inner loop: a skipped static pair leaves the map alone;
   * otherwise a touching pair's manifold is inserted or updated and a pair
   * that does not touch has its manifold erased. No other key changes.
   */
  function Visit(w: World, p: IndexPair, ops: FloatOps): (r: World)
    requires Valid(w) && CanCollide(w) && InWorld(w, p)
    ensures Valid(r) && r == w.(manifolds := r.manifolds)
    ensures Static(w, p) ==> r == w
    ensures !Static(w, p) ==> (KeyAt(w, p) in Keys(r.manifolds) <==> |ContactsAt(w, p, ops)| > 0)
    ensures !Static(w, p) && |ContactsAt(w, p, ops)| > 0 ==>
      var k := KeyAt(w, p);
      && (Find(w.manifolds, k).Missing? ==> Find(r.manifolds, k) == Found(NewManifold(w.bodies[p.first], w.bodies[p.second], w.store, ops)))
      && (Find(w.manifolds, k).Found? ==> Find(r.manifolds, k) == Found(Merged(Find(w.manifolds, k).value, ContactsAt(w, p, ops))))
    ensures forall k :: k != KeyAt(w, p) ==> Find(r.manifolds, k) == Find(w.manifolds, k)
  {
    var b1 := w.bodies[p.first];
    var b2 := w.bodies[p.second];
    if Immovable(w.store[b1]) && Immovable(w.store[b2]) then w
    else
      assert Collidable(w.store[b1], w.store[b2]);
      var m := NewManifold(b1, b2, w.store, ops);
      var key := MakePairKey(b1, b2);
      var ms := w.manifolds;
      if |m.contacts| > 0 then
        match Find(ms, key)
        case Missing =>
          var r := Insert(ms, key, m);
          forall k | k in Keys(r)
            ensures FiledAs(Find(r, k).value, k, w.store)
          {
            if k != key {
              FiledFind(ms, w.store, k);
            }
          }
          FindFiled(r, w.store);
          w.(manifolds := r)
        case Found(prev) =>
          FiledFind(ms, w.store, key);
          var r := Assign(ms, key, Merged(prev, m.contacts));
          forall k | k in Keys(r)
            ensures FiledAs(Find(r, k).value, k, w.store)
          {
            if k != key {
              FiledFind(ms, w.store, k);
            }
          }
          FindFiled(r, w.store);
          w.(manifolds := r)
      else
        var r := Erase(ms, key);
        forall k | k in Keys(r)
          ensures FiledAs(Find(r, k).value, k, w.store)
        {
          FiledFind(ms, w.store, k);
        }
        FindFiled(r, w.store);
        w.(manifolds := r)
  }

  predicate AllInWorld(w: World, ps: seq<IndexPair>)
  {
    forall a :: 0 <= a < |ps| ==> InWorld(w, ps[a])
  }

  /** The loops of `UpdateManifolds` over the pairs ps, in order. */
  function VisitAll(w: World, ps: seq<IndexPair>, ops: FloatOps): (r: World)
    requires Valid(w) && CanCollide(w) && AllInWorld(w, ps)
    ensures Valid(r) && r == w.(manifolds := r.manifolds)
    decreases |ps|
  {
    if |ps| == 0 then w
    else VisitAll(Visit(w, ps[0], ops), ps[1..], ops)
  }

  /** `UpdateManifolds`: visits every pair of listed bodies once. */
  function UpdateManifolds(w: World, ops: FloatOps): (r: World)
    requires Valid(w) && CanCollide(w)
    ensures Valid(r) && r == w.(manifolds := r.manifolds)
  {
    PairsVisitEachOnce(|w.bodies|);
    VisitAll(w, Pairs(|w.bodies|), ops)
  }

  /** What the update leaves under the key of the pair p. */
  predicate Tracked(w: World, ms: ManifoldMap, p: IndexPair, ops: FloatOps)
    requires Valid(w) && CanCollide(w) && InWorld(w, p)
  {
    if Static(w, p) then Find(ms, KeyAt(w, p)) == Find(w.manifolds, KeyAt(w, p))
    else (KeyAt(w, p) in Keys(ms) <==> |ContactsAt(w, p, ops)| > 0)
  }

  /** Keys no visited pair names are left alone. */
  lemma {:induction false} VisitAllElsewhere(w: World, ps: seq<IndexPair>, ops: FloatOps, k: PairKey)
    requires Valid(w) && CanCollide(w) && AllInWorld(w, ps)
    requires forall a :: 0 <= a < |ps| ==> KeyAt(w, ps[a]) != k
    ensures Find(VisitAll(w, ps, ops).manifolds, k) == Find(w.manifolds, k)
    decreases |ps|
  {
    if |ps| > 0 {
      var v := Visit(w, ps[0], ops);
      assert forall a :: 0 <= a < |ps[1..]| ==> ps[1..][a] == ps[a + 1];
      VisitAllElsewhere(v, ps[1..], ops, k);
    }
  }

  /** When the visited pairs name distinct keys, the visit of each decides what is left under its key. */
  lemma {:induction false} VisitAllTracks(w: World, ps: seq<IndexPair>, ops: FloatOps, a: nat)
    requires Valid(w) && CanCollide(w) && AllInWorld(w, ps) && a < |ps|
    requires forall x, y :: 0 <= x < y < |ps| ==> KeyAt(w, ps[x]) != KeyAt(w, ps[y])
    ensures Tracked(w, VisitAll(w, ps, ops).manifolds, ps[a], ops)
    decreases |ps|
  {
    var v := Visit(w, ps[0], ops);
    assert forall x :: 0 <= x < |ps[1..]| ==> ps[1..][x] == ps[x + 1];
    if a == 0 {
      VisitAllElsewhere(v, ps[1..], ops, KeyAt(w, ps[0]));
    } else {
      VisitAllTracks(v, ps[1..], ops, a - 1);
      assert ps[1..][a - 1] == ps[a];
    }
  }

  predicate Distinct(ids: seq<BodyId>)
  {
    forall i, j :: 0 <= i < j < |ids| ==> ids[i] != ids[j]
  }

  /** With no body listed twice, different pairs of positions have different keys. */
  lemma KeysDiffer(w: World, p: IndexPair, q: IndexPair)
    requires InWorld(w, p) && InWorld(w, q) && Distinct(w.bodies) && p != q
    ensures KeyAt(w, p) != KeyAt(w, q)
  {
  }

  /** A key that names a body not in the list. */
  predicate Unlisted(w: World, k: PairKey)
  {
    k.body1 !in w.bodies || k.body2 !in w.bodies
  }

  /** With no body listed twice, the pairs the loops visit name distinct keys. */
  lemma PairKeysDiffer(w: World)
    requires Distinct(w.bodies)
    ensures AllInWorld(w, Pairs(|w.bodies|))
    ensures forall x, y :: 0 <= x < y < |Pairs(|w.bodies|)| ==> KeyAt(w, Pairs(|w.bodies|)[x]) != KeyAt(w, Pairs(|w.bodies|)[y])
  {
    var ps := Pairs(|w.bodies|);
    PairsVisitEachOnce(|w.bodies|);
    forall x, y | 0 <= x < y < |ps|
      ensures KeyAt(w, ps[x]) != KeyAt(w, ps[y])
    {
      KeysDiffer(w, ps[x], ps[y]);
    }
  }

  /**
   * What `UpdateManifolds` leaves in the map, when no body is listed twice:
   * for each pair of listed bodies that are not both immovable, a manifold
   * exactly when the two touch; for a pair of immovable bodies, whatever
   * was there.
   */
  lemma UpdateManifoldsTracks(w: World, ops: FloatOps)
    requires Valid(w) && CanCollide(w) && Distinct(w.bodies)
    ensures forall i, j :: 0 <= i < j < |w.bodies| ==> Tracked(w, UpdateManifolds(w, ops).manifolds, IndexPair(i, j), ops)
  {
    var ps := Pairs(|w.bodies|);
    PairsVisitEachOnce(|w.bodies|);
    PairKeysDiffer(w);
    forall i, j | 0 <= i < j < |w.bodies|
      ensures Tracked(w, UpdateManifolds(w, ops).manifolds, IndexPair(i, j), ops)
    {
      assert IndexPair(i, j) in ps;
      var a :| 0 <= a < |ps| && ps[a] == IndexPair(i, j);
      VisitAllTracks(w, ps, ops, a);
    }
  }

  /** `UpdateManifolds` leaves the key of every pair with an unlisted body as it was. */
  lemma UpdateManifoldsKeepsOthers(w: World, ops: FloatOps)
    requires Valid(w) && CanCollide(w)
    ensures forall k :: Unlisted(w, k) ==> Find(UpdateManifolds(w, ops).manifolds, k) == Find(w.manifolds, k)
  {
    var ps := Pairs(|w.bodies|);
    PairsVisitEachOnce(|w.bodies|);
    forall k | Unlisted(w, k)
      ensures Find(UpdateManifolds(w, ops).manifolds, k) == Find(w.manifolds, k)
    {
      forall a | 0 <= a < |ps|
        ensures KeyAt(w, ps[a]) != k
      {
        assert ps[a] in ps;
        var b1, b2 := w.bodies[ps[a].first], w.bodies[ps[a].second];
        assert b1 in w.bodies && b2 in w.bodies;
      }
      VisitAllElsewhere(w, ps, ops, k);
    }
  }

  // ---------------------------------------------------------------------------
  // Update
  // ---------------------------------------------------------------------------

  /** `invDt`: the reciprocal of a positive time step, and 0 otherwise. */
  function InvDt(dt: real): (r: real)
    ensures dt > 0.0 ==> r * dt == 1.0 && r > 0.0
    ensures dt <= 0.0 ==> r == 0.0
  {
    InverseOrZero(dt)
  }

  /** f applied n times. */
  function Repeat(f: Body -> Body, b: Body, n: nat): Body
    decreases n
  {
    if n == 0 then b else Repeat(f, f(b), n - 1)
  }

  /** How often id is listed. */
  function Count(ids: seq<BodyId>, id: BodyId): (n: nat)
    ensures n > 0 <==> id in ids
  {
    if |ids| == 0 then 0
    else (if ids[0] == id then 1 else 0) + Count(ids[1..], id)
  }

  /**
   * A `for (auto& body : bodies)` loop whose body is f: every listed body is
   * replaced by f of itself once per listing, and nothing else changes.
   */
  function ForEachBody(ids: seq<BodyId>, store: Store, f: Body -> Body): (r: Store)
    requires forall i :: 0 <= i < |ids| ==> ids[i] in store
    ensures r.Keys == store.Keys
    ensures forall id :: id in store ==> r[id] == Repeat(f, store[id], Count(ids, id))
  {
    if |ids| == 0 then store
    else
      var id0 := ids[0];
      var next := store[id0 := f(store[id0])];
      assert forall i :: 0 <= i < |ids[1..]| ==> ids[1..][i] == ids[i + 1];
      ForEachBody(ids[1..], next, f)
  }

  /** Only the motion state changes: mass, inertia, friction and shape are kept. */
  predicate SameBuild(s: Store, t: Store)
  {
    && s.Keys == t.Keys
    && forall id :: id in s ==>
         t[id] == s[id].(position := t[id].position, velocity := t[id].velocity, force := t[id].force,
                         rotation := t[id].rotation, angularVelocity := t[id].angularVelocity, torque := t[id].torque)
  }

  lemma SameBuildTransitive(s: Store, t: Store, u: Store)
    requires SameBuild(s, t) && SameBuild(t, u)
    ensures SameBuild(s, u)
  {
  }

  lemma VelocitiesKeepBuild(s: Store, t: Store)
    requires OnlyVelocities(s, t)
    ensures SameBuild(s, t)
  {
  }

  /** Changing only the motion state keeps the world's invariant and its collidable pairs. */
  lemma SameBuildKeepsWorld(w: World, t: Store)
    requires Valid(w) && CanCollide(w) && SameBuild(w.store, t)
    ensures Valid(w.(store := t)) && CanCollide(w.(store := t))
  {
    var v := w.(store := t);
    forall i | 0 <= i < |w.manifolds|
      ensures FiledAs(w.manifolds[i].value, w.manifolds[i].key, t)
    {
      assert FiledAs(w.manifolds[i].value, w.manifolds[i].key, w.store);
    }
    forall i, j | 0 <= i < j < |v.bodies| && !(Immovable(v.store[v.bodies[i]]) && Immovable(v.store[v.bodies[j]]))
      ensures Collidable(v.store[v.bodies[i]], v.store[v.bodies[j]])
    {
      assert Immovable(v.store[v.bodies[i]]) == Immovable(w.store[w.bodies[i]]);
      assert Immovable(v.store[v.bodies[j]]) == Immovable(w.store[w.bodies[j]]);
    }
  }

  /**
   * One body's turn of the force-integration loop: an immovable body is
   * skipped; otherwise gravity and the accumulated force and torque change
   * the velocities over dt.
   */
  function Accelerate(b: Body, gravity: Vector2, dt: real): (r: Body)
    ensures Immovable(b) ==> r == b
    ensures r == b.(velocity := r.velocity, angularVelocity := r.angularVelocity)
  {
    if b.invMass == 0.0 then b
    else
      b.(velocity := Add(b.velocity, Scale(dt, Add(gravity, Scale(b.invMass, b.force)))),
         angularVelocity := b.angularVelocity + dt * b.invI * b.torque)
  }

  /** With no force and no torque, a movable body falls freely: only gravity changes its velocity. */
  lemma FreeFall(b: Body, gravity: Vector2, dt: real)
    requires !Immovable(b) && b.force == Zero && b.torque == 0.0
    ensures Sub(Accelerate(b, gravity, dt).velocity, b.velocity) == Scale(dt, gravity)
    ensures Accelerate(b, gravity, dt).angularVelocity == b.angularVelocity
  {
  }

  /**
   * Integrating forces is an impulse: over dt, gravity and the force give
   * the body the same velocity as the impulse dt (m g + F) would.
   */
  lemma {:induction false} AccelerateIsImpulse(b: Body, gravity: Vector2, dt: real)
    requires !Immovable(b) && b.mass * b.invMass == 1.0
    ensures Accelerate(b, gravity, dt).velocity == AddImpulse(b, Scale(dt, Add(Scale(b.mass, gravity), b.force))).velocity
  {
    ImpulseComponent(b.mass, b.invMass, dt, gravity.x, b.force.x);
    ImpulseComponent(b.mass, b.invMass, dt, gravity.y, b.force.y);
  }

  lemma {:induction false} ImpulseComponent(m: real, im: real, dt: real, g: real, f: real)
    requires m * im == 1.0
    ensures ((g * m + f) * dt) * im == (g + f * im) * dt
  {
    calc {
      ((g * m + f) * dt) * im;
      dt * (g * (m * im) + f * im);
      (g + f * im) * dt;
    }
  }

  /** One body's turn of the last loop: move by the velocities over dt, then clear force and torque. */
  function Drift(b: Body, dt: real): (r: Body)
    ensures r.force == Zero && r.torque == 0.0
    ensures r == b.(position := r.position, rotation := r.rotation, force := Zero, torque := 0.0)
  {
    b.(position := Add(b.position, Scale(dt, b.velocity)), rotation := b.rotation + dt * b.angularVelocity,
       force := Zero, torque := 0.0)
  }

  /** Drifting back over the same time step returns the body to where it was. */
  lemma DriftBack(b: Body, dt: real)
    ensures var r := Drift(Drift(b, dt), -dt);
      r.position == b.position && r.rotation == b.rotation && r.velocity == b.velocity
  {
  }

  /** Force integration changes only velocities, and never those of an immovable body. */
  lemma {:induction false} IntegrateForcesVelocities(ids: seq<BodyId>, store: Store, gravity: Vector2, dt: real)
    requires forall i :: 0 <= i < |ids| ==> ids[i] in store
    ensures var r := ForEachBody(ids, store, b => Accelerate(b, gravity, dt));
      && OnlyVelocities(store, r)
      && forall id :: id in store && Immovable(store[id]) ==> r[id] == store[id]
  {
    var f := b => Accelerate(b, gravity, dt);
    var r := ForEachBody(ids, store, f);
    forall id | id in store
      ensures r[id] == store[id].(velocity := r[id].velocity, angularVelocity := r[id].angularVelocity)
      ensures Immovable(store[id]) ==> r[id] == store[id]
    {
      RepeatAccelerate(store[id], gravity, dt, Count(ids, id));
    }
  }

  lemma {:induction false} RepeatAccelerate(b: Body, gravity: Vector2, dt: real, n: nat)
    ensures var r := Repeat(c => Accelerate(c, gravity, dt), b, n);
      && r == b.(velocity := r.velocity, angularVelocity := r.angularVelocity)
      && (Immovable(b) ==> r == b)
    decreases n
  {
    if n > 0 {
      RepeatAccelerate(Accelerate(b, gravity, dt), gravity, dt, n - 1);
    }
  }

  /** A listed body leaves the last loop with no force and no torque; only its motion state changed. */
  lemma {:induction false} RepeatDrift(b: Body, dt: real, n: nat)
    ensures var r := Repeat(c => Drift(c, dt), b, n);
      && r == b.(position := r.position, rotation := r.rotation, force := r.force, torque := r.torque)
      && (n > 0 ==> r.force == Zero && r.torque == 0.0)
    decreases n
  {
    if n > 0 {
      RepeatDrift(Drift(b, dt), dt, n - 1);
    }
  }

  // ---------------------------------------------------------------------------
  // The solver loops over the manifold map
  // ---------------------------------------------------------------------------

  /** The manifolds and the bodies as a solver loop leaves them. */
  datatype Sweep = Sweep(manifolds: ManifoldMap, store: Store)

  /** The same keys in the same order, each manifold keeping its bodies, friction and number of contacts. */
  predicate SameEntries(ms: ManifoldMap, rs: ManifoldMap)
  {
    && |rs| == |ms|
    && forall j :: 0 <= j < |ms| ==>
         && rs[j].key == ms[j].key
         && rs[j].value == ms[j].value.(contacts := rs[j].value.contacts)
         && |rs[j].value.contacts| == |ms[j].value.contacts|
  }

  lemma SameEntriesFiled(ms: ManifoldMap, rs: ManifoldMap, s: Store, t: Store)
    requires Filed(ms, s) && SameEntries(ms, rs) && s.Keys == t.Keys
    ensures Filed(rs, t)
  {
    forall i, j | 0 <= i < j < |rs|
      ensures Less(rs[i].key, rs[j].key)
    {
      assert Less(ms[i].key, ms[j].key);
    }
    forall i | 0 <= i < |rs|
      ensures FiledAs(rs[i].value, rs[i].key, t)
    {
      assert FiledAs(ms[i].value, ms[i].key, s);
    }
  }

  lemma SameEntriesTransitive(ms: ManifoldMap, ns: ManifoldMap, rs: ManifoldMap)
    requires SameEntries(ms, ns) && SameEntries(ns, rs)
    ensures SameEntries(ms, rs)
  {
  }

  /** Replacing one manifold's contacts keeps the entries. */
  lemma ReplaceContacts(ms: ManifoldMap, i: nat, m: Manifold)
    requires i < |ms| && m == ms[i].value.(contacts := m.contacts) && |m.contacts| == |ms[i].value.contacts|
    ensures SameEntries(ms, ms[i := Entry(ms[i].key, m)])
  {
  }

  /** Every contact of the manifold went through `PreStep`. */
  predicate AllPrepared(before: Manifold, after: Manifold, invDt: real)
  {
    forall j :: 0 <= j < |before.contacts| && j < |after.contacts| ==> Prepared(before.contacts[j], after.contacts[j], invDt)
  }

  /** Every contact of the manifold went through at least one `ApplyImpulse`. */
  predicate AllImpulsed(before: Manifold, after: Manifold)
  {
    forall j :: 0 <= j < |before.contacts| && j < |after.contacts| ==> Impulsed(before.contacts[j], after.contacts[j], before.friction)
  }

  /** `manifold.second.PreStep(invDt)` for the entries from i on, in key order. */
  function PreStepEach(ms: ManifoldMap, store: Store, invDt: real, i: nat): (r: Sweep)
    requires Filed(ms, store) && i <= |ms|
    ensures SameEntries(ms, r.manifolds) && Filed(r.manifolds, r.store) && OnlyVelocities(store, r.store)
    ensures forall j :: 0 <= j < i ==> r.manifolds[j] == ms[j]
    ensures forall j :: i <= j < |ms| ==> AllPrepared(ms[j].value, r.manifolds[j].value, invDt)
    decreases |ms| - i
  {
    if i == |ms| then Sweep(ms, store)
    else
      assert FiledAs(ms[i].value, ms[i].key, store);
      var s := PreStep(ms[i].value, store, invDt);
      var next := ms[i := Entry(ms[i].key, s.manifold)];
      ReplaceContacts(ms, i, s.manifold);
      SameEntriesFiled(ms, next, store, s.store);
      var rest := PreStepEach(next, s.store, invDt, i + 1);
      OnlyVelocitiesTransitive(store, s.store, rest.store);
      SameEntriesTransitive(ms, next, rest.manifolds);
      rest
  }

  /** `manifold.second.ApplyImpulse()` for the entries from i on, in key order. */
  function ApplyEach(ms: ManifoldMap, store: Store, i: nat): (r: Sweep)
    requires Filed(ms, store) && i <= |ms|
    ensures SameEntries(ms, r.manifolds) && Filed(r.manifolds, r.store) && OnlyVelocities(store, r.store)
    ensures forall j :: 0 <= j < i ==> r.manifolds[j] == ms[j]
    ensures forall j :: i <= j < |ms| ==> AllImpulsed(ms[j].value, r.manifolds[j].value)
    decreases |ms| - i
  {
    if i == |ms| then Sweep(ms, store)
    else
      assert FiledAs(ms[i].value, ms[i].key, store);
      var s := ApplyImpulse(ms[i].value, store);
      var next := ms[i := Entry(ms[i].key, s.manifold)];
      ReplaceContacts(ms, i, s.manifold);
      SameEntriesFiled(ms, next, store, s.store);
      var rest := ApplyEach(next, s.store, i + 1);
      OnlyVelocitiesTransitive(store, s.store, rest.store);
      SameEntriesTransitive(ms, next, rest.manifolds);
      rest
  }

  /** A later impulse pass keeps what an earlier one established. */
  lemma ImpulsedTransitive(c0: Contact, c1: Contact, c2: Contact, friction: real)
    requires Impulsed(c0, c1, friction) && Impulsed(c1, c2, friction)
    ensures Impulsed(c0, c2, friction)
  {
  }

  /**
   * The iteration loop: n passes of `ApplyImpulse` over the map. None for n
   * at most 0; otherwise every contact ends with a pushing normal impulse
   * and a friction impulse inside the friction cone.
   */
  function ApplyRounds(ms: ManifoldMap, store: Store, n: int): (r: Sweep)
    requires Filed(ms, store)
    ensures SameEntries(ms, r.manifolds) && Filed(r.manifolds, r.store) && OnlyVelocities(store, r.store)
    ensures n <= 0 ==> r == Sweep(ms, store)
    ensures n > 0 ==> forall j :: 0 <= j < |ms| ==> AllImpulsed(ms[j].value, r.manifolds[j].value)
    decreases n
  {
    if n <= 0 then Sweep(ms, store)
    else
      var s := ApplyEach(ms, store, 0);
      var rest := ApplyRounds(s.manifolds, s.store, n - 1);
      OnlyVelocitiesTransitive(store, s.store, rest.store);
      SameEntriesTransitive(ms, s.manifolds, rest.manifolds);
      assert forall j :: 0 <= j < |ms| ==> AllImpulsed(ms[j].value, rest.manifolds[j].value) by {
        if n > 1 {
          forall j, c | 0 <= j < |ms| && 0 <= c < |ms[j].value.contacts|
            ensures Impulsed(ms[j].value.contacts[c], rest.manifolds[j].value.contacts[c], ms[j].value.friction)
          {
            assert AllImpulsed(ms[j].value, s.manifolds[j].value);
            assert AllImpulsed(s.manifolds[j].value, rest.manifolds[j].value);
            ImpulsedTransitive(ms[j].value.contacts[c], s.manifolds[j].value.contacts[c], rest.manifolds[j].value.contacts[c], ms[j].value.friction);
          }
        }
      }
      rest
  }

  /**
   * A contact after `PreStep` and at least one `ApplyImpulse`: only the
   * solver's fields changed, the bias is as `PreStep` set it, the normal
   * impulse pushes and the friction impulse is inside the friction cone.
   */
  predicate Settled(before: Contact, after: Contact, invDt: real, friction: real)
  {
    && after == before.(massNormal := after.massNormal, massTangent := after.massTangent, bias := after.bias,
                        r1 := after.r1, r2 := after.r2, pn := after.pn, pt := after.pt)
    && (invDt >= 0.0 ==> after.bias >= 0.0)
    && (after.bias > 0.0 <==> invDt > 0.0 && before.separation + Slop < 0.0)
    && after.pn >= 0.0
    && WithinFriction(after.pt, after.pn, friction)
  }

  predicate AllSettled(before: Manifold, after: Manifold, invDt: real)
  {
    forall j :: 0 <= j < |before.contacts| && j < |after.contacts| ==> Settled(before.contacts[j], after.contacts[j], invDt, before.friction)
  }

  lemma PreparedThenImpulsed(c0: Contact, c1: Contact, c2: Contact, invDt: real, friction: real)
    requires Prepared(c0, c1, invDt) && Impulsed(c1, c2, friction)
    ensures Settled(c0, c2, invDt, friction)
  {
  }

  /** The first loop of `Update`: only velocities change, and never those of an immovable body. */
  function IntegrateForces(ids: seq<BodyId>, store: Store, gravity: Vector2, dt: real): (r: Store)
    requires forall i :: 0 <= i < |ids| ==> ids[i] in store
    ensures OnlyVelocities(store, r)
    ensures forall id :: id in store && Immovable(store[id]) ==> r[id] == store[id]
    ensures forall id :: id in store ==> r[id] == Repeat(b => Accelerate(b, gravity, dt), store[id], Count(ids, id))
  {
    IntegrateForcesVelocities(ids, store, gravity, dt);
    ForEachBody(ids, store, b => Accelerate(b, gravity, dt))
  }

  /**
   * The solver part of `Update`: `PreStep` on every manifold once, then the
   * iterations. Every contact ends prepared, and settled when there was at
   * least one iteration.
   */
  function Solve(ms: ManifoldMap, store: Store, invDt: real, iterations: int): (r: Sweep)
    requires Filed(ms, store)
    ensures SameEntries(ms, r.manifolds) && Filed(r.manifolds, r.store) && OnlyVelocities(store, r.store)
    ensures iterations <= 0 ==> forall j :: 0 <= j < |ms| ==> AllPrepared(ms[j].value, r.manifolds[j].value, invDt)
    ensures iterations > 0 ==> forall j :: 0 <= j < |ms| ==> AllSettled(ms[j].value, r.manifolds[j].value, invDt)
  {
    var p := PreStepEach(ms, store, invDt, 0);
    var a := ApplyRounds(p.manifolds, p.store, iterations);
    OnlyVelocitiesTransitive(store, p.store, a.store);
    forall j, c | 0 <= j < |ms| && 0 <= c < |ms[j].value.contacts| && iterations > 0
      ensures Settled(ms[j].value.contacts[c], a.manifolds[j].value.contacts[c], invDt, ms[j].value.friction)
    {
      assert AllPrepared(ms[j].value, p.manifolds[j].value, invDt);
      assert AllImpulsed(p.manifolds[j].value, a.manifolds[j].value);
      PreparedThenImpulsed(ms[j].value.contacts[c], p.manifolds[j].value.contacts[c], a.manifolds[j].value.contacts[c], invDt, ms[j].value.friction);
    }
    a
  }

  /** The last loop of `Update`: only the motion state changes, and every listed body ends with no force and no torque. */
  function IntegrateVelocities(ids: seq<BodyId>, store: Store, dt: real): (r: Store)
    requires forall i :: 0 <= i < |ids| ==> ids[i] in store
    ensures SameBuild(store, r)
    ensures forall i :: 0 <= i < |ids| ==> r[ids[i]].force == Zero && r[ids[i]].torque == 0.0
    ensures forall id :: id in store ==> r[id] == Repeat(b => Drift(b, dt), store[id], Count(ids, id))
  {
    var r := ForEachBody(ids, store, b => Drift(b, dt));
    forall id | id in store
      ensures r[id] == store[id].(position := r[id].position, rotation := r[id].rotation, force := r[id].force, torque := r[id].torque)
      ensures Count(ids, id) > 0 ==> r[id].force == Zero && r[id].torque == 0.0
    {
      RepeatDrift(store[id], dt, Count(ids, id));
    }
    r
  }

  /**
   * `PhysicsWorld::Update(dt)`: update the manifolds, integrate forces,
   * solve, then integrate velocities and clear every listed body's force
   * and torque.
   */
  function StepWorld(w: World, dt: real, ops: FloatOps): (r: World)
    requires Valid(w) && CanCollide(w)
    ensures Valid(r) && CanCollide(r)
    ensures r == w.(store := r.store, manifolds := r.manifolds)
    ensures SameBuild(w.store, r.store)
    ensures forall i :: 0 <= i < |w.bodies| ==> r.store[w.bodies[i]].force == Zero && r.store[w.bodies[i]].torque == 0.0
    ensures var u := UpdateManifolds(w, ops).manifolds;
      && SameEntries(u, r.manifolds)
      && (w.iterations <= 0 ==> forall j :: 0 <= j < |u| ==> AllPrepared(u[j].value, r.manifolds[j].value, InvDt(dt)))
      && (w.iterations > 0 ==> forall j :: 0 <= j < |u| ==> AllSettled(u[j].value, r.manifolds[j].value, InvDt(dt)))
  {
    var u := UpdateManifolds(w, ops);
    var s1 := IntegrateForces(u.bodies, u.store, u.gravity, dt);
    SameEntriesFiled(u.manifolds, u.manifolds, u.store, s1);
    var a := Solve(u.manifolds, s1, InvDt(dt), u.iterations);
    var s2 := IntegrateVelocities(u.bodies, a.store, dt);
    OnlyVelocitiesTransitive(u.store, s1, a.store);
    VelocitiesKeepBuild(u.store, a.store);
    SameBuildTransitive(u.store, a.store, s2);
    SameBuildKeepsWorld(u, s2);
    SameEntriesFiled(a.manifolds, a.manifolds, a.store, s2);
    u.(store := s2, manifolds := a.manifolds)
  }
}
