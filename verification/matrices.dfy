/**
 * Sample2D's `Matrix2`: a 2x2 matrix stored as two column vectors, over
 * exact reals. The rotation constructor `Matrix2(angle)` needs sine and
 * cosine; it is part of `FloatOps`, together with the square root and the
 * normalisation the collision code uses.
 */
module Matrices {
  import opened Vectors

  datatype Matrix2 = Matrix2(col1: Vector2, col2: Vector2)

  /**
   * The floating-point primitives the model does not interpret: `sqrtf`,
   * `Vector2::GetNormalized` and the rotation matrix `Matrix2(angle)`.
   */
  datatype FloatOps = FloatOps(sqrt: real -> real, normalize: Vector2 -> Vector2, rotation: real -> Matrix2)

  function Transpose(m: Matrix2): Matrix2
  {
    Matrix2(Vector2(m.col1.x, m.col2.x), Vector2(m.col1.y, m.col2.y))
  }

  function Det(m: Matrix2): real
  {
    m.col1.x * m.col2.y - m.col2.x * m.col1.y
  }

  /** `Invert`, which asserts a non-zero determinant. */
  function Invert(m: Matrix2): Matrix2
    requires Det(m) != 0.0
  {
    var a := m.col1.x;
    var b := m.col2.x;
    var c := m.col1.y;
    var d := m.col2.y;
    var inv := 1.0 / Det(m);
    Matrix2(Vector2(inv * d, -inv * c), Vector2(-inv * b, inv * a))
  }

  /** Matrix times vector. */
  function MulV(m: Matrix2, v: Vector2): Vector2
  {
    Vector2(m.col1.x * v.x + m.col2.x * v.y, m.col1.y * v.x + m.col2.y * v.y)
  }

  /** Matrix times matrix: the left matrix applied to each column of the right one. */
  function MulM(a: Matrix2, b: Matrix2): Matrix2
  {
    Matrix2(MulV(a, b.col1), MulV(a, b.col2))
  }

  function AddM(a: Matrix2, b: Matrix2): Matrix2
  {
    Matrix2(Add(a.col1, b.col1), Add(a.col2, b.col2))
  }

  function AbsM(m: Matrix2): (r: Matrix2)
    ensures r.col1.x >= 0.0 && r.col1.y >= 0.0 && r.col2.x >= 0.0 && r.col2.y >= 0.0
  {
    Matrix2(Abs(m.col1), Abs(m.col2))
  }

  lemma TransposeInvolution(m: Matrix2)
    ensures Transpose(Transpose(m)) == m
  {
  }

  /** Entry (row i, column j) of a matrix, rows and columns numbered 0 and 1. */
  function Entry(m: Matrix2, i: nat, j: nat): real
    requires i < 2 && j < 2
  {
    var col := if j == 0 then m.col1 else m.col2;
    if i == 0 then col.x else col.y
  }

  /** Transposing swaps rows and columns. */
  lemma TransposeEntries(m: Matrix2, i: nat, j: nat)
    requires i < 2 && j < 2
    ensures Entry(Transpose(m), i, j) == Entry(m, j, i)
  {
  }

  /** The matrix product is the composition of the two maps. */
  lemma {:induction false} MulMComposes(a: Matrix2, b: Matrix2, v: Vector2)
    ensures MulV(MulM(a, b), v) == MulV(a, MulV(b, v))
  {
    var l := MulV(MulM(a, b), v);
    var r := MulV(a, MulV(b, v));
    assert l.x == r.x by {
      MulDistributes(a.col1.x, b.col1.x, v.x, a.col2.x, b.col1.y);
      MulDistributes(a.col1.x, b.col2.x, v.y, a.col2.x, b.col2.y);
    }
    assert l.y == r.y by {
      MulDistributes(a.col1.y, b.col1.x, v.x, a.col2.y, b.col1.y);
      MulDistributes(a.col1.y, b.col2.x, v.y, a.col2.y, b.col2.y);
    }
  }

  lemma MulDistributes(p: real, q: real, s: real, t: real, u: real)
    ensures (p * q + t * u) * s == p * (q * s) + t * (u * s)
  {
  }

  /** Sums are taken column by column. */
  lemma AddMColumns(a: Matrix2, b: Matrix2, v: Vector2)
    ensures MulV(AddM(a, b), v) == Add(MulV(a, v), MulV(b, v))
  {
  }

  /** The inverse undoes the matrix. */
  lemma {:induction false} InvertUndoes(m: Matrix2, v: Vector2)
    requires Det(m) != 0.0
    ensures MulV(Invert(m), MulV(m, v)) == v
  {
    var a := m.col1.x;
    var b := m.col2.x;
    var c := m.col1.y;
    var d := m.col2.y;
    var det := Det(m);
    var inv := 1.0 / det;
    assert inv * det == 1.0;
    var w := MulV(m, v);
    var r := MulV(Invert(m), w);
    assert r.x == inv * (d * w.x - b * w.y);
    assert d * w.x - b * w.y == det * v.x by {
      assert d * w.x - b * w.y == d * (a * v.x + b * v.y) - b * (c * v.x + d * v.y);
      Expand(d, a, v.x, b, v.y);
      Expand(b, c, v.x, d, v.y);
    }
    assert r.y == inv * (a * w.y - c * w.x);
    assert a * w.y - c * w.x == det * v.y by {
      assert a * w.y - c * w.x == a * (c * v.x + d * v.y) - c * (a * v.x + b * v.y);
      Expand(a, c, v.x, d, v.y);
      Expand(c, a, v.x, b, v.y);
    }
    ScaleBack(inv, det, v.x);
    ScaleBack(inv, det, v.y);
  }

  lemma Expand(k: real, p: real, s: real, q: real, t: real)
    ensures k * (p * s + q * t) == (k * p) * s + (k * q) * t
  {
  }

  lemma ScaleBack(inv: real, det: real, s: real)
    requires inv * det == 1.0
    ensures inv * (det * s) == s
  {
    assert inv * (det * s) == (inv * det) * s;
  }
}
