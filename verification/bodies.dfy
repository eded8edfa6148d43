/**
 * Sample2D's rigid `Body`: linear and angular state, mass properties and an
 * optional shape. A body whose inverse mass is 0 does not move: `Init` with
 * a mass of at least `FLT_MAX` makes one, and so does the default constructor.
 */
module Bodies {
  import opened Vectors
  import opened Shapes

  /** The largest finite `float`, 3.40282347e+38, which the code uses as "infinite mass". */
  const FltMax: real := 340282346638528859811704183484516925440.0

  /** The `shape` pointer: null, or a shape. */
  datatype ShapeRef = NoShape | ShapeOf(shape: Shape)

  datatype Body = Body(
    position: Vector2,
    velocity: Vector2,
    force: Vector2,
    mass: real,
    invMass: real,
    rotation: real,
    angularVelocity: real,
    torque: real,
    inertia: real,
    invI: real,
    friction: real,
    shape: ShapeRef)

  /** A body that impulses and forces do not move. */
  predicate Immovable(b: Body)
  {
    b.invMass == 0.0
  }

  /** `Body()`: at rest at the origin, infinitely heavy, friction 0.2, no shape. */
  function NewBody(): (b: Body)
    ensures Immovable(b) && b.invI == 0.0
    ensures b.mass == FltMax && b.inertia == FltMax
    ensures b.friction == 0.2 && b.shape == NoShape
    ensures b.position == Zero && b.velocity == Zero && b.force == Zero
    ensures b.rotation == 0.0 && b.angularVelocity == 0.0 && b.torque == 0.0
  {
    Body(Zero, Zero, Zero, FltMax, 0.0, 0.0, 0.0, 0.0, FltMax, 0.0, 0.2, NoShape)
  }

  /**
   * What `Init` divides by: a finite mass and the inertia it gives must not
   * be 0 (the C++ code would store an infinite inverse).
   */
  predicate CanInit(shape: Shape, mass: real)
  {
    mass < FltMax ==> mass != 0.0 && ComputeI(shape, mass) != 0.0
  }

  /** `Init`: attach the shape and set the mass properties from the mass. */
  function Init(b: Body, shape: Shape, mass: real): (r: Body)
    requires CanInit(shape, mass)
    ensures r.shape == ShapeOf(shape) && r.mass == mass
    ensures mass < FltMax ==>
      && r.invMass * mass == 1.0
      && r.inertia == ComputeI(shape, mass)
      && r.invI * r.inertia == 1.0
    ensures mass >= FltMax ==> Immovable(r) && r.inertia == FltMax && r.invI == 0.0
    ensures r == b.(shape := r.shape, mass := r.mass, invMass := r.invMass, inertia := r.inertia, invI := r.invI)
  {
    if mass < FltMax then
      var i := ComputeI(shape, mass);
      b.(shape := ShapeOf(shape), mass := mass, invMass := 1.0 / mass, inertia := i, invI := 1.0 / i)
    else
      b.(shape := ShapeOf(shape), mass := mass, invMass := 0.0, inertia := FltMax, invI := 0.0)
  }

  /** What `SetFixedRotation(false)` needs: a shape, and a non-zero inertia for the body's mass. */
  predicate CanFreeRotation(b: Body)
  {
    b.shape.ShapeOf? && ComputeI(b.shape.shape, b.mass) != 0.0
  }

  /**
   * `SetFixedRotation`: true makes the body infinitely hard to turn; false
   * recomputes the inertia from the shape and mass. Nothing else changes.
   */
  function SetFixedRotation(b: Body, value: bool): (r: Body)
    requires !value ==> CanFreeRotation(b)
    ensures value ==> r.inertia == FltMax && r.invI == 0.0
    ensures !value ==> r.inertia == ComputeI(b.shape.shape, b.mass) && r.invI * r.inertia == 1.0
    ensures r == b.(inertia := r.inertia, invI := r.invI)
  {
    if value then b.(inertia := FltMax, invI := 0.0)
    else
      var i := ComputeI(b.shape.shape, b.mass);
      b.(inertia := i, invI := 1.0 / i)
  }

  /** `AddForce`: accumulates into the force and touches nothing else. */
  function AddForce(b: Body, f: Vector2): (r: Body)
    ensures Sub(r.force, b.force) == f
    ensures r == b.(force := r.force)
  {
    b.(force := Add(b.force, f))
  }

  /** `AddImpulse`: the velocity changes by the impulse times the inverse mass. */
  function AddImpulse(b: Body, impulse: Vector2): (r: Body)
    ensures Sub(r.velocity, b.velocity) == Scale(b.invMass, impulse)
    ensures r == b.(velocity := r.velocity)
  {
    b.(velocity := Add(b.velocity, Scale(b.invMass, impulse)))
  }

  /** Impulses do not move an immovable body. */
  lemma ImmovableIgnoresImpulse(b: Body, impulse: Vector2)
    requires Immovable(b)
    ensures AddImpulse(b, impulse) == b
  {
  }

  /** A body initialised with a finite mass can be moved, and one with mass `FLT_MAX` or more cannot. */
  lemma InitMovable(b: Body, shape: Shape, mass: real)
    requires CanInit(shape, mass)
    ensures Immovable(Init(b, shape, mass)) <==> mass >= FltMax
  {
  }
}
