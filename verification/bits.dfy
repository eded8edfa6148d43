/**
 * Unsigned integer bit manipulation on unbounded naturals.
 *
 * The C++ sources shift, mask and OR fixed-width unsigned integers. Here a
 * fixed-width value is a `nat` below `Pow2(width)`, a shift is a
 * multiplication or division by a power of two, and `&` / `|` are the
 * bit-by-bit definitions below, related to `%` and `+` by proved lemmas.
 */
module Bits {

  /** 2 to the power n. */
  function Pow2(n: nat): (r: nat)
    ensures r >= 1
    ensures n >= 1 ==> r >= 2
  {
    if n == 0 then 1 else 2 * Pow2(n - 1)
  }

  /** Bitwise AND of two naturals, one bit at a time from the least significant end. */
  function BitAnd(a: nat, b: nat): nat
    decreases a
  {
    if a == 0 || b == 0 then 0
    else 2 * BitAnd(a / 2, b / 2) + (a % 2) * (b % 2)
  }

  /** Bitwise OR of two naturals, one bit at a time from the least significant end. */
  function BitOr(a: nat, b: nat): nat
    decreases a + b
  {
    if a == 0 then b
    else if b == 0 then a
    else 2 * BitOr(a / 2, b / 2) + (if a % 2 == 1 || b % 2 == 1 then 1 else 0)
  }

  /** Logical right shift of a non-negative value by s bits. */
  function Shr(x: nat, s: nat): nat
  {
    var d: nat := Pow2(s);
    DivNonNegative(x, d);
    x / d
  }

  lemma {:induction false} DivNonNegative(x: nat, d: nat)
    requires d > 0
    ensures x / d >= 0
  {
    assert x == (x / d) * d + x % d;
  }

  /** Keeps the low `width` bits of x: the wrap-around of a `width`-bit unsigned type. */
  function Truncate(x: nat, width: nat): (r: nat)
    ensures r < Pow2(width)
  {
    x % Pow2(width)
  }

  // ---------------------------------------------------------------------------
  // Division and remainder facts
  // ---------------------------------------------------------------------------

  /** The only multiple of d strictly between -d and d is 0. */
  lemma {:induction false} SmallMultiple(k: int, d: int)
    requires d > 0
    requires -d < k * d < d
    ensures k == 0
  {
  }

  /** Quotient and remainder are determined by any decomposition x = q*d + r with 0 <= r < d. */
  lemma {:induction false} DivModUnique(x: int, d: int, q: int, r: int)
    requires d > 0
    requires x == q * d + r
    requires 0 <= r < d
    ensures x / d == q
    ensures x % d == r
  {
    var q' := x / d;
    var r' := x % d;
    assert x == q' * d + r';
    assert (q - q') * d == r' - r;
    SmallMultiple(q - q', d);
  }

  lemma {:induction false} Pow2Add(a: nat, b: nat)
    ensures Pow2(a + b) == Pow2(a) * Pow2(b)
    decreases a
  {
    if a > 0 {
      Pow2Add(a - 1, b);
      var p := Pow2(a - 1);
      var q := Pow2(b);
      assert Pow2(a + b) == 2 * (p * q);
      MulTwiceLeft(p, q);
    }
  }

  lemma {:induction false} MulTwiceLeft(p: int, q: int)
    ensures 2 * (p * q) == (2 * p) * q
  {
  }

  lemma {:induction false} MulOne(x: int, one: int)
    requires one == 1
    ensures x * one == x
  {
  }

  lemma {:induction false} MulTwiceRight(p: int, q: int)
    ensures 2 * (p * q) == p * (2 * q)
  {
  }

  lemma {:induction false} Pow2Monotone(a: nat, b: nat)
    requires a <= b
    ensures Pow2(a) <= Pow2(b)
  {
    Pow2Add(a, b - a);
    assert Pow2(b) == Pow2(a) * Pow2(b - a);
  }

  lemma {:induction false} Pow2StrictMonotone(a: nat, b: nat)
    requires a < b
    ensures Pow2(a) < Pow2(b)
  {
    Pow2Add(a, b - a);
    assert Pow2(b) == Pow2(a) * Pow2(b - a);
    assert Pow2(b - a) >= 2;
  }

  /** Splitting x at a divisor: (hi * d + lo) / d == hi and % d == lo. */
  lemma {:induction false} SplitAt(hi: nat, lo: nat, d: nat)
    requires lo < d
    ensures (hi * d + lo) / d == hi
    ensures (hi * d + lo) % d == lo
  {
    DivModUnique(hi * d + lo, d, hi, lo);
  }

  lemma {:induction false} DivOfShiftedGen(hi: nat, lo: nat, a: nat, s: nat)
    requires s > 0
    ensures (hi * (a * s) + lo) / s == hi * a + lo / s
  {
    var q := lo / s;
    var r := lo % s;
    assert lo == q * s + r;
    var h := hi * a;
    assert hi * (a * s) == h * s;
    assert hi * (a * s) + lo == (h + q) * s + r;
    DivModUnique(hi * (a * s) + lo, s, h + q, r);
  }

  /** Dropping the low s bits of a value whose high part sits above bit j+s. */
  lemma {:induction false} DivOfShifted(hi: nat, lo: nat, j: nat, s: nat)
    ensures (hi * Pow2(j + s) + lo) / Pow2(s) == hi * Pow2(j) + lo / Pow2(s)
  {
    Pow2Add(j, s);
    DivOfShiftedGen(hi, lo, Pow2(j), Pow2(s));
  }

  lemma {:induction false} ModOfShiftedGen(hi: nat, lo: nat, d: nat, m: nat)
    requires m > 0
    requires lo < d
    ensures (hi * d + lo) % (d * m) == (hi % m) * d + lo
  {
    var q := hi / m;
    var r := hi % m;
    assert hi == q * m + r;
    assert r <= m - 1;
    assert r * d <= (m - 1) * d == m * d - d;
    var low := r * d + lo;
    assert low < d * m;
    assert hi * d == (q * m + r) * d == q * (d * m) + r * d;
    assert hi * d + lo == q * (d * m) + low;
    DivModUnique(hi * d + lo, d * m, q, low);
  }

  /** Keeping the low j+m bits of hi * 2^j + lo keeps the low m bits of hi. */
  lemma {:induction false} ModOfShifted(hi: nat, lo: nat, j: nat, m: nat)
    requires lo < Pow2(j)
    ensures (hi * Pow2(j) + lo) % Pow2(j + m) == (hi % Pow2(m)) * Pow2(j) + lo
  {
    Pow2Add(j, m);
    ModOfShiftedGen(hi, lo, Pow2(j), Pow2(m));
  }

  lemma {:induction false} ModModGen(x: int, b: nat, c: nat)
    requires b > 0 && c > 0
    ensures (x % (b * c)) % b == x % b
  {
    var q := x / (b * c);
    var r := x % (b * c);
    var q2 := r / b;
    var r2 := r % b;
    assert x == q * (b * c) + r;
    assert r == q2 * b + r2;
    assert q * (b * c) == (q * c) * b;
    assert x == (q * c + q2) * b + r2;
    DivModUnique(x, b, q * c + q2, r2);
  }

  /** Truncating to a wider width first does not change the low bits. */
  lemma {:induction false} ModMod(x: int, a: nat, b: nat)
    requires b <= a
    ensures (x % Pow2(a)) % Pow2(b) == x % Pow2(b)
  {
    Pow2Add(b, a - b);
    ModModGen(x, Pow2(b), Pow2(a - b));
  }

  /** Reducing the first summand first does not change the remainder of a sum. */
  lemma {:induction false} AddMod(a: nat, c: nat, m: nat)
    requires m > 0
    ensures (a + c) % m == (a % m + c) % m
  {
    var q := a / m;
    assert a == q * m + a % m;
    var t := a % m + c;
    assert t == (t / m) * m + t % m;
    assert a + c == (q + t / m) * m + t % m;
    DivModUnique(a + c, m, q + t / m, t % m);
  }

  /** Adding the same amount to congruent values keeps them congruent. */
  lemma {:induction false} AddCongruent(a: nat, b: nat, c: nat, m: nat)
    requires m > 0
    requires a % m == b % m
    ensures (a + c) % m == (b + c) % m
  {
    var qa := a / m;
    var qb := b / m;
    var r := a % m;
    var q := (r + c) / m;
    var r2 := (r + c) % m;
    assert r + c == q * m + r2;
    assert a + c == (qa + q) * m + r2;
    assert b + c == (qb + q) * m + r2;
    DivModUnique(a + c, m, qa + q, r2);
    DivModUnique(b + c, m, qb + q, r2);
  }

  // ---------------------------------------------------------------------------
  // AND / OR facts
  // ---------------------------------------------------------------------------

  /** Splitting a remainder by a factor of its modulus: x % (d*m) == d * ((x / d) % m) + x % d. */
  lemma {:induction false} ModSplit(x: nat, d: nat, m: nat)
    requires d > 0 && m > 0
    ensures x % (d * m) == d * ((x / d) % m) + x % d
  {
    var q := (x / d) / m;
    var r := (x / d) % m;
    assert x / d == q * m + r;
    assert x == d * (x / d) + x % d;
    assert r <= m - 1;
    assert d * r <= d * (m - 1) == d * m - d;
    assert x == q * (d * m) + (d * r + x % d);
    DivModUnique(x, d * m, q, d * r + x % d);
  }

  /** Dividing twice is dividing by the product. */
  lemma {:induction false} DivDiv(x: nat, a: nat, b: nat)
    requires a > 0 && b > 0
    ensures (x / a) / b == x / (a * b)
  {
    var y := x / a;
    var q := y / b;
    var r := y % b;
    var lo := x % a;
    assert y == q * b + r;
    assert x == a * y + lo;
    assert a * y == a * (q * b) + a * r;
    assert a * (q * b) == q * (a * b);
    assert x == q * (a * b) + (a * r + lo);
    assert a * r <= a * b - a by {
      MulMonotone(r, b - 1, a);
      assert (b - 1) * a == a * b - a;
    }
    DivModUnique(x, a * b, q, a * r + lo);
  }

  /** Subtracting a multiple of the modulus does not change the remainder. */
  lemma {:induction false} ModSubMultiple(x: int, k: int, d: nat)
    requires d > 0
    ensures (x - k * d) % d == x % d
  {
    var q := x / d;
    assert x == q * d + x % d;
    assert x - k * d == (q - k) * d + x % d;
    DivModUnique(x - k * d, d, q - k, x % d);
  }

  /** A factor of a positive product with a positive factor is positive. */
  lemma {:induction false} PositiveFactor(a: int, d: int)
    requires d > 0 && a * d > 0
    ensures a > 0
  {
  }

  lemma {:induction false} MulMonotone(a: nat, b: nat, c: nat)
    requires a <= b
    ensures a * c <= b * c
  {
  }

  /** x < q * d implies x / d < q. */
  lemma {:induction false} DivBound(x: nat, q: nat, d: nat)
    requires d > 0
    requires x < q * d
    ensures x / d < q
  {
    var t := x / d;
    assert x == t * d + x % d;
    DivNonNegative(x, d);
    assert (q - t) * d == q * d - t * d;
    PositiveFactor(q - t, d);
  }

  /** Shifting a w-bit value right by s leaves a (w - s)-bit value. */
  lemma {:induction false} ShrBound(x: nat, w: nat, s: nat)
    requires x < Pow2(w)
    requires s <= w
    ensures Shr(x, s) < Pow2(w - s)
  {
    Pow2Add(w - s, s);
    DivBound(x, Pow2(w - s), Pow2(s));
  }

  /** hi * k + lo with hi < h and lo < k is below h * k. */
  lemma {:induction false} DigitsFit(hi: nat, lo: nat, h: nat, k: nat)
    requires hi < h && lo < k
    ensures hi * k + lo < h * k
  {
    MulMonotone(hi, h - 1, k);
    assert (h - 1) * k == h * k - k;
  }

  /** hi * 2^k + lo with hi < 2^m and lo < 2^k is below 2^(m + k). */
  lemma {:induction false} ShiftedFits(hi: nat, lo: nat, m: nat, k: nat)
    requires hi < Pow2(m) && lo < Pow2(k)
    ensures hi * Pow2(k) + lo < Pow2(m + k)
  {
    Pow2Add(m, k);
    DigitsFit(hi, lo, Pow2(m), Pow2(k));
  }

  /** A remainder never exceeds the value it is taken of. */
  lemma {:induction false} ModAtMost(x: nat, d: nat)
    requires d > 0
    ensures x % d <= x
  {
    assert x == (x / d) * d + x % d;
    DivNonNegative(x, d);
  }

  /** A value below the modulus is its own remainder. */
  lemma {:induction false} ModSmall(x: nat, d: nat)
    requires x < d
    ensures x % d == x
  {
    DivModUnique(x, d, 0, x);
  }

  /** `x & (2^n - 1)` keeps exactly the low n bits of x. */
  lemma {:induction false} AndLowMask(x: nat, n: nat)
    ensures BitAnd(x, Pow2(n) - 1) == x % Pow2(n)
    decreases n
  {
    if n == 0 {
    } else if x == 0 {
    } else {
      var m := Pow2(n) - 1;
      var h := Pow2(n - 1);
      assert Pow2(n) == 2 * h;
      assert m / 2 == h - 1 && m % 2 == 1;
      AndLowMask(x / 2, n - 1);
      assert BitAnd(x, m) == 2 * BitAnd(x / 2, m / 2) + (x % 2) * (m % 2);
      assert BitAnd(x, m) == 2 * ((x / 2) % h) + x % 2;
      ModSplit(x, 2, h);
    }
  }

  /** OR of a multiple of 2^k with a value below 2^k is their sum (no bits overlap). */
  lemma {:induction false} OrDisjoint(hi: nat, lo: nat, k: nat)
    requires lo < Pow2(k)
    ensures BitOr(hi * Pow2(k), lo) == hi * Pow2(k) + lo
    decreases k
  {
    var a := hi * Pow2(k);
    if k == 0 {
      assert lo == 0;
    } else if a == 0 || lo == 0 {
    } else {
      assert Pow2(k) == 2 * Pow2(k - 1);
      assert a == 2 * (hi * Pow2(k - 1));
      assert a / 2 == hi * Pow2(k - 1) && a % 2 == 0;
      assert lo / 2 < Pow2(k - 1);
      OrDisjoint(hi, lo / 2, k - 1);
      assert BitOr(a, lo) == 2 * BitOr(a / 2, lo / 2) + lo % 2;
    }
  }

  /** OR-ing a value below 2^k into a multiple of 2^k: the general form used by shifts. */
  lemma {:induction false} OrOfAligned(a: nat, b: nat, k: nat)
    requires a % Pow2(k) == 0
    requires b < Pow2(k)
    ensures BitOr(a, b) == a + b
  {
    var hi := a / Pow2(k);
    assert a == hi * Pow2(k);
    OrDisjoint(hi, b, k);
  }

  // ---------------------------------------------------------------------------
  // MSB-first bit strings
  // ---------------------------------------------------------------------------

  /** A bit string: every element is 0 or 1. */
  predicate IsBitString(b: seq<nat>)
  {
    forall i :: 0 <= i < |b| ==> b[i] <= 1
  }

  /** The number a bit string spells, most significant bit first. */
  function ValueOf(b: seq<nat>): nat
  {
    if |b| == 0 then 0 else 2 * ValueOf(b[..|b| - 1]) + b[|b| - 1]
  }

  /** The w low bits of x, most significant first. */
  function BlockBits(x: nat, w: nat): (r: seq<nat>)
    ensures |r| == w
    ensures IsBitString(r)
  {
    if w == 0 then [] else BlockBits(x / 2, w - 1) + [x % 2]
  }

  /** A bit string of width w spells a number below 2^w. */
  lemma {:induction false} ValueOfBound(b: seq<nat>)
    requires IsBitString(b)
    ensures ValueOf(b) < Pow2(|b|)
    decreases |b|
  {
    if |b| > 0 {
      ValueOfBound(b[..|b| - 1]);
      assert Pow2(|b|) == 2 * Pow2(|b| - 1);
    }
  }

  /** Concatenating bit strings shifts the first past the second. */
  lemma {:induction false} ValueOfConcat(a: seq<nat>, b: seq<nat>)
    ensures ValueOf(a + b) == ValueOf(a) * Pow2(|b|) + ValueOf(b)
    decreases |b|
  {
    if |b| == 0 {
      assert a + b == a;
    } else {
      var b' := b[..|b| - 1];
      assert (a + b)[..|a + b| - 1] == a + b';
      ValueOfConcat(a, b');
      var va := ValueOf(a);
      var p := Pow2(|b'|);
      assert Pow2(|b|) == 2 * p;
      assert ValueOf(a + b) == 2 * (va * p + ValueOf(b')) + b[|b| - 1];
      assert ValueOf(b) == 2 * ValueOf(b') + b[|b| - 1];
      MulTwiceRight(va, p);
    }
  }

  /** Spelling out the w low bits of x and reading them back gives x mod 2^w. */
  lemma {:induction false} ValueOfBlockBits(x: nat, w: nat)
    ensures ValueOf(BlockBits(x, w)) == x % Pow2(w)
    decreases w
  {
    if w > 0 {
      var b := BlockBits(x, w);
      assert b[..|b| - 1] == BlockBits(x / 2, w - 1);
      ValueOfBlockBits(x / 2, w - 1);
      assert Pow2(w) == 2 * Pow2(w - 1);
      ModSplit(x, 2, Pow2(w - 1));
    }
  }

  /** The first j of the w low bits of x are the j low bits of x shifted right by w - j. */
  lemma {:induction false} BlockBitsPrefix(x: nat, w: nat, j: nat)
    requires j <= w
    ensures BlockBits(x, w)[..j] == BlockBits(Shr(x, w - j), j)
    decreases w
  {
    if j < w {
      assert BlockBits(x, w)[..j] == BlockBits(x / 2, w - 1)[..j];
      BlockBitsPrefix(x / 2, w - 1, j);
      DivDiv(x, 2, Pow2(w - 1 - j));
      assert Pow2(w - j) == 2 * Pow2(w - 1 - j);
      assert Shr(x / 2, w - 1 - j) == Shr(x, w - j);
    }
  }

  /** Dropping the first i of the w low bits of x leaves its w - i low bits. */
  lemma {:induction false} BlockBitsSuffix(x: nat, w: nat, i: nat)
    requires i <= w
    ensures BlockBits(x, w)[i..] == BlockBits(x, w - i)
    decreases w
  {
    if i < w {
      BlockBitsSuffix(x / 2, w - 1, i);
      assert BlockBits(x, w)[i..] == BlockBits(x / 2, w - 1)[i..] + [x % 2];
    }
  }

  /** Bits i..j (MSB-first) of a w-bit value are the j - i low bits of x >> (w - j). */
  lemma {:induction false} BlockBitsSliceBits(x: nat, w: nat, i: nat, j: nat)
    requires i <= j <= w
    ensures BlockBits(x, w)[i..j] == BlockBits(Shr(x, w - j), j - i)
  {
    var y := Shr(x, w - j);
    var whole := BlockBits(x, w);
    BlockBitsPrefix(x, w, j);
    BlockBitsSuffix(y, j, i);
    SliceOfPrefix(whole, i, j);
  }

  lemma {:induction false} SliceOfPrefix<T>(s: seq<T>, i: nat, j: nat)
    requires i <= j <= |s|
    ensures s[i..j] == s[..j][i..]
  {
  }

  /** Bits i..j (MSB-first) of a w-bit value spell (x >> (w - j)) mod 2^(j - i). */
  lemma {:induction false} BlockBitsSlice(x: nat, w: nat, i: nat, j: nat)
    requires i <= j <= w
    ensures ValueOf(BlockBits(x, w)[i..j]) == Shr(x, w - j) % Pow2(j - i)
  {
    BlockBitsSliceBits(x, w, i, j);
    ValueOfBlockBits(Shr(x, w - j), j - i);
  }
}
