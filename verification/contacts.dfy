/**
 * The records of Sample2D's Manifold.h that collision detection fills in:
 * the feature pair that names a contact, the contact itself, and the key
 * that names a pair of bodies.
 *
 * Bodies are named by their address, a natural number; the code compares
 * body pointers with `<`.
 */
module Contacts {
  import opened Vectors
  import Bits

  /** A body pointer. */
  type BodyId = nat

  /** `Manifold::MaxPoints`: the contacts one pair of bodies can hold. */
  const MaxPoints: nat := 2

  /**
   * The `FeaturePair` union read through its four `char` edge numbers. Its
   * other member, `value`, is the same four bytes read as one `int`.
   */
  datatype FeaturePair = FeaturePair(inEdge1: int, outEdge1: int, inEdge2: int, outEdge2: int)

  /** Each edge number fits a signed `char`. */
  predicate ValidFeature(fp: FeaturePair)
  {
    -128 <= fp.inEdge1 < 128 && -128 <= fp.outEdge1 < 128
    && -128 <= fp.inEdge2 < 128 && -128 <= fp.outEdge2 < 128
  }

  /** The byte a `char` occupies. */
  function ByteOf(c: int): (b: nat)
    ensures b < 256
  {
    c % 256
  }

  /**
   * `FeaturePair::value`: the four bytes in memory order (`inEdge1` lowest,
   * as on the little-endian targets the code is built for) read as a
   * two's-complement 32-bit `int`.
   */
  function FeatureValue(fp: FeaturePair): (v: int)
    ensures -0x8000_0000 <= v < 0x8000_0000
  {
    var u := ByteOf(fp.inEdge1) + 256 * (ByteOf(fp.outEdge1) + 256 * (ByteOf(fp.inEdge2) + 256 * ByteOf(fp.outEdge2)));
    if u >= 0x8000_0000 then u - 0x1_0000_0000 else u
  }

  /** The feature pair after `feature.value = 0`: every edge number 0. */
  const ZeroFeature: FeaturePair := FeaturePair(0, 0, 0, 0)

  lemma ZeroFeatureValue()
    ensures FeatureValue(ZeroFeature) == 0
  {
  }

  /** The unsigned reading of the four bytes determines them. */
  lemma {:induction false} BytesFromUnsigned(b0: nat, b1: nat, b2: nat, b3: nat, c0: nat, c1: nat, c2: nat, c3: nat)
    requires b0 < 256 && b1 < 256 && b2 < 256 && b3 < 256
    requires c0 < 256 && c1 < 256 && c2 < 256 && c3 < 256
    requires b0 + 256 * (b1 + 256 * (b2 + 256 * b3)) == c0 + 256 * (c1 + 256 * (c2 + 256 * c3))
    ensures b0 == c0 && b1 == c1 && b2 == c2 && b3 == c3
  {
    var x := b0 + 256 * (b1 + 256 * (b2 + 256 * b3));
    Bits.DivModUnique(x, 256, b1 + 256 * (b2 + 256 * b3), b0);
    Bits.DivModUnique(x, 256, c1 + 256 * (c2 + 256 * c3), c0);
    var y := b1 + 256 * (b2 + 256 * b3);
    Bits.DivModUnique(y, 256, b2 + 256 * b3, b1);
    Bits.DivModUnique(y, 256, c2 + 256 * c3, c1);
    var z := b2 + 256 * b3;
    Bits.DivModUnique(z, 256, b3, b2);
    Bits.DivModUnique(z, 256, c3, c2);
  }

  /** A signed `char` is determined by its byte. */
  lemma {:induction false} CharFromByte(c: int, d: int)
    requires -128 <= c < 128 && -128 <= d < 128 && ByteOf(c) == ByteOf(d)
    ensures c == d
  {
    if c < 0 {
      Bits.DivModUnique(c, 256, -1, c + 256);
    } else {
      Bits.DivModUnique(c, 256, 0, c);
    }
    if d < 0 {
      Bits.DivModUnique(d, 256, -1, d + 256);
    } else {
      Bits.DivModUnique(d, 256, 0, d);
    }
  }

  /**
   * `value` identifies a feature: two feature pairs have the same `value`
   * exactly when their four edge numbers agree. This is what lets
   * `Manifold::Update` recognise a contact from the previous step.
   */
  lemma {:induction false} FeatureValueIdentifies(a: FeaturePair, b: FeaturePair)
    requires ValidFeature(a) && ValidFeature(b)
    ensures FeatureValue(a) == FeatureValue(b) <==> a == b
  {
    if FeatureValue(a) == FeatureValue(b) {
      var ua := ByteOf(a.inEdge1) + 256 * (ByteOf(a.outEdge1) + 256 * (ByteOf(a.inEdge2) + 256 * ByteOf(a.outEdge2)));
      var ub := ByteOf(b.inEdge1) + 256 * (ByteOf(b.outEdge1) + 256 * (ByteOf(b.inEdge2) + 256 * ByteOf(b.outEdge2)));
      assert ua < 0x1_0000_0000 && ub < 0x1_0000_0000;
      assert ua == ub;
      BytesFromUnsigned(ByteOf(a.inEdge1), ByteOf(a.outEdge1), ByteOf(a.inEdge2), ByteOf(a.outEdge2),
                        ByteOf(b.inEdge1), ByteOf(b.outEdge1), ByteOf(b.inEdge2), ByteOf(b.outEdge2));
      CharFromByte(a.inEdge1, b.inEdge1);
      CharFromByte(a.outEdge1, b.outEdge1);
      CharFromByte(a.inEdge2, b.inEdge2);
      CharFromByte(a.outEdge2, b.outEdge2);
    }
  }

  /** One contact point between two bodies and its solver state. */
  datatype Contact = Contact(
    position: Vector2,
    normal: Vector2,
    r1: Vector2,
    r2: Vector2,
    separation: real,
    pn: real,          // accumulated normal impulse
    pt: real,          // accumulated tangent impulse
    pnb: real,         // accumulated normal impulse for the position bias
    massNormal: real,
    massTangent: real,
    bias: real,
    feature: FeaturePair)

  /**
   * `Contact()`: every number 0 and every vector the zero vector. The C++
   * constructor leaves the feature unset; collision always writes it before
   * it is read, and the model starts it at zero.
   */
  function NewContact(): (c: Contact)
    ensures c.separation == 0.0 && c.pn == 0.0 && c.pt == 0.0 && c.pnb == 0.0
    ensures c.massNormal == 0.0 && c.massTangent == 0.0 && c.bias == 0.0
    ensures c.position == Zero && c.normal == Zero && c.r1 == Zero && c.r2 == Zero
  {
    Contact(Zero, Zero, Zero, Zero, 0.0, 0.0, 0.0, 0.0, 0.0, 0.0, 0.0, ZeroFeature)
  }

  /** The fields collision detection writes into a fresh contact. */
  function DetectedContact(separation: real, normal: Vector2, position: Vector2, feature: FeaturePair): (c: Contact)
    ensures c.separation == separation && c.normal == normal && c.position == position && c.feature == feature
    ensures c.pn == 0.0 && c.pt == 0.0 && c.pnb == 0.0
  {
    NewContact().(separation := separation, normal := normal, position := position, feature := feature)
  }

  // ---------------------------------------------------------------------------
  // Pair keys
  // ---------------------------------------------------------------------------

  /** Names an unordered pair of bodies: the lower address first. */
  datatype PairKey = PairKey(body1: BodyId, body2: BodyId)

  /** The `PairKey(a, b)` constructor. */
  function MakePairKey(a: BodyId, b: BodyId): (k: PairKey)
    ensures k.body1 <= k.body2
    ensures {k.body1, k.body2} == {a, b}
  {
    if a < b then PairKey(a, b) else PairKey(b, a)
  }

  /** Either order of the two bodies names the same pair. */
  lemma PairKeySymmetric(a: BodyId, b: BodyId)
    ensures MakePairKey(a, b) == MakePairKey(b, a)
  {
  }

  /** `operator<` on pair keys. */
  predicate Less(a: PairKey, b: PairKey)
  {
    a.body1 < b.body1 || (a.body1 == b.body1 && a.body2 < b.body2)
  }

  /** The key order is lexicographic: first bodies decide, then second bodies. */
  lemma LessIsLexicographic(a: PairKey, b: PairKey)
    ensures a.body1 < b.body1 ==> Less(a, b)
    ensures a.body1 > b.body1 ==> !Less(a, b)
    ensures a.body1 == b.body1 ==> (Less(a, b) <==> a.body2 < b.body2)
  {
  }

  /** The key order is a strict order, as `std::map` needs. */
  lemma LessIsStrictOrder(a: PairKey, b: PairKey, c: PairKey)
    ensures !Less(a, a)
    ensures Less(a, b) ==> !Less(b, a)
    ensures Less(a, b) && Less(b, c) ==> Less(a, c)
  {
  }

  /** Any two keys are ordered one way, the other way, or equal, and exactly one of these holds. */
  lemma LessTrichotomy(a: PairKey, b: PairKey)
    ensures Less(a, b) || Less(b, a) || a == b
    ensures !(Less(a, b) && a == b) && !(Less(b, a) && a == b)
  {
  }
}
