/**
 * The CPU ray tracer's pixel format: `ConvertColorToUint` packs a colour as
 * 0xAARRGGBB with alpha 0xFF, and `ShadePoint` reads a texel of the same
 * layout back into a colour. Colours are exact reals; the `float`
 * multiplication by 255 is exact here.
 */
module ColorPacking {
  import opened Bits

  /** An RGB colour, each channel nominally in [0, 1]. */
  datatype Color = Color(r: real, g: real, b: real)

  /** The range of `uint32_t`. */
  const Uint32Range: nat := 0x1_0000_0000

  lemma ByteShifts()
    ensures Pow2(8) == 0x100 && Pow2(16) == 0x1_0000 && Pow2(24) == 0x100_0000 && Pow2(32) == Uint32Range
  {
    assert Pow2(8) == 0x100;
    Pow2Add(8, 8);
    Pow2Add(16, 8);
    Pow2Add(16, 16);
  }

  /** An `int` result converted to `uint32_t`: its two's-complement bits. */
  function Wrap32(x: int): (r: nat)
    ensures r < Uint32Range
    ensures (x - r) % Uint32Range == 0
    ensures 0 <= x < Uint32Range ==> r == x
  {
    x % Uint32Range
  }

  /** `(int)(x * 255.0f)`: scale, then truncate toward zero. */
  function ChannelOf(x: real): int
  {
    var y := x * 255.0;
    if y >= 0.0 then y.Floor else -((-y).Floor)
  }

  /** `min(255, c)`: the code caps a channel from above only. */
  function Cap(c: int): (r: int)
    ensures r <= 255
    ensures c <= 255 ==> r == c
    ensures c > 255 ==> r == 255
  {
    if c < 255 then c else 255
  }

  /** `c << s` on an `int`, read as the unsigned bits the OR sees. */
  function ShiftLeft(c: int, s: nat): nat
  {
    Wrap32(c * Pow2(s))
  }

  /** The packing of `ConvertColorToUint` once each channel is an `int`. */
  function PackChannels(r: int, g: int, b: int): nat
  {
    BitOr(BitOr(BitOr(0xFF00_0000, ShiftLeft(Cap(r), 16)), ShiftLeft(Cap(g), 8)), Wrap32(Cap(b)))
  }

  /** `ConvertColorToUint`. */
  function ConvertColorToUint(c: Color): nat
  {
    PackChannels(ChannelOf(c.r), ChannelOf(c.g), ChannelOf(c.b))
  }

  /** `(s >> 8k) & 0xFF`: byte k of a texel, 0 being blue and 3 alpha. */
  function ByteAt(s: nat, k: nat): (r: nat)
    ensures r < 256
  {
    AndLowMask(Shr(s, 8 * k), 8);
    assert Pow2(8) == 256;
    BitAnd(Shr(s, 8 * k), 0xFF)
  }

  /** The texel decode of `ShadePoint`: red, green and blue bytes scaled to [0, 1]. */
  function DecodeTexel(s: nat): Color
  {
    Color(ByteAt(s, 2) as real / 255.0, ByteAt(s, 1) as real / 255.0, ByteAt(s, 0) as real / 255.0)
  }

  /** The value whose bytes, from alpha down to blue, are a, r, g, b. */
  function Bytes(a: nat, r: nat, g: nat, b: nat): nat
  {
    a * 0x100_0000 + r * 0x1_0000 + g * 0x100 + b
  }

  /** Channels already in 0..255 pack without overlap: alpha 0xFF, then red, green, blue. */
  lemma {:induction false} PackedLayout(r: int, g: int, b: int)
    requires 0 <= r < 256 && 0 <= g < 256 && 0 <= b < 256
    ensures PackChannels(r, g, b) == Bytes(0xFF, r, g, b)
  {
    ShiftedChannels(r, g, b);
    OrChain(0xFF00_0000, ShiftLeft(Cap(r), 16), ShiftLeft(Cap(g), 8), Wrap32(Cap(b)), 0xFF, r, g, b);
  }

  /** OR-ing an alpha byte with shifted channels that do not overlap adds them. */
  lemma {:induction false} OrChain(al: nat, rs: nat, gs: nat, bs: nat, a: nat, r: nat, g: nat, b: nat)
    requires r < 256 && g < 256 && b < 256
    requires al == a * 0x100_0000 && rs == r * 0x1_0000 && gs == g * 0x100 && bs == b
    ensures BitOr(BitOr(BitOr(al, rs), gs), bs) == Bytes(a, r, g, b)
  {
    ByteShifts();
    var ar := BitOr(al, rs);
    OrAligned(al, a, rs, 24, 0x100_0000);
    var arg := BitOr(ar, gs);
    OrAligned(ar, a * 256 + r, gs, 16, 0x1_0000);
    OrAligned(arg, (a * 256 + r) * 256 + g, bs, 8, 0x100);
  }

  lemma ShiftedChannels(r: int, g: int, b: int)
    requires 0 <= r < 256 && 0 <= g < 256 && 0 <= b < 256
    ensures ShiftLeft(Cap(r), 16) == r * 0x1_0000 && ShiftLeft(Cap(g), 8) == g * 0x100 && Wrap32(Cap(b)) == b
  {
    ByteShifts();
    ModSmall(r * 0x1_0000, Uint32Range);
    ModSmall(g * 0x100, Uint32Range);
    ModSmall(b, Uint32Range);
  }

  /** OR of x, a multiple of p = 2^k, with a value below p is their sum. */
  lemma OrAligned(x: nat, hi: nat, lo: nat, k: nat, p: nat)
    requires k <= 24 && p == Pow2(k) && lo < p && x == hi * p
    ensures BitOr(x, lo) == x + lo
  {
    OrDisjoint(hi, lo, k);
  }

  /** Byte k is the k-th base-256 digit, d being 2 to the power 8k. */
  lemma ByteAtIsDigit(s: nat, k: nat, d: nat)
    requires d == Pow2(8 * k)
    ensures ByteAt(s, k) == (s / d) % 256
  {
    AndLowMask(Shr(s, 8 * k), 8);
    assert Pow2(8) == 256;
  }

  /** The digit d of a value s written as (hi * 256 + d) * m + lo with lo < m. */
  lemma {:induction false} DigitOf(s: nat, hi: nat, d: nat, lo: nat, m: nat)
    requires d < 256 && lo < m && s == (hi * 256 + d) * m + lo
    ensures s / m % 256 == d
  {
    DivModUnique(s, m, hi * 256 + d, lo);
    DivModUnique(hi * 256 + d, 256, hi, d);
  }

  /** The four bytes of a texel as base-256 digits. */
  lemma BytesAreDigits(s: nat)
    ensures ByteAt(s, 3) == s / 0x100_0000 % 256 && ByteAt(s, 2) == s / 0x1_0000 % 256
    ensures ByteAt(s, 1) == s / 0x100 % 256 && ByteAt(s, 0) == s % 256
  {
    ByteShifts();
    assert Pow2(0) == 1;
    ByteAtIsDigit(s, 3, 0x100_0000);
    ByteAtIsDigit(s, 2, 0x1_0000);
    ByteAtIsDigit(s, 1, 0x100);
    ByteAtIsDigit(s, 0, 1);
  }

  /** The base-256 digits of a value laid out byte by byte. */
  lemma {:induction false} DigitsReadBack(a: nat, r: nat, g: nat, b: nat)
    requires a < 256 && r < 256 && g < 256 && b < 256
    ensures var s := Bytes(a, r, g, b);
      s / 0x100_0000 % 256 == a && s / 0x1_0000 % 256 == r && s / 0x100 % 256 == g && s % 256 == b
  {
    var s := Bytes(a, r, g, b);
    DigitOf(s, 0, a, r * 0x1_0000 + g * 0x100 + b, 0x100_0000);
    DigitOf(s, a, r, g * 0x100 + b, 0x1_0000);
    DigitOf(s, a * 256 + r, g, b, 0x100);
    DigitOf(s, (a * 256 + r) * 256 + g, b, 0, 1);
  }

  /** Reading back the bytes of a value laid out byte by byte. */
  lemma {:induction false} BytesReadBack(a: nat, r: nat, g: nat, b: nat)
    requires a < 256 && r < 256 && g < 256 && b < 256
    ensures var s := Bytes(a, r, g, b);
      ByteAt(s, 3) == a && ByteAt(s, 2) == r && ByteAt(s, 1) == g && ByteAt(s, 0) == b
  {
    BytesAreDigits(Bytes(a, r, g, b));
    DigitsReadBack(a, r, g, b);
  }

  /**
   * For non-negative channels the packed value reads back as alpha 0xFF and
   * each channel capped at 255: the cap is the only change.
   */
  lemma PackReadsCappedChannels(r: int, g: int, b: int)
    requires r >= 0 && g >= 0 && b >= 0
    ensures var s := PackChannels(r, g, b);
      ByteAt(s, 3) == 0xFF && ByteAt(s, 2) == Cap(r) && ByteAt(s, 1) == Cap(g) && ByteAt(s, 0) == Cap(b)
  {
    assert PackChannels(r, g, b) == PackChannels(Cap(r), Cap(g), Cap(b));
    PackedLayout(Cap(r), Cap(g), Cap(b));
    BytesReadBack(0xFF, Cap(r), Cap(g), Cap(b));
  }

  /** Every 32-bit value is the sum of its base-256 digits. */
  lemma {:induction false} DigitsOfValue(s: nat)
    requires s < Uint32Range
    ensures s == Bytes(s / 0x100_0000 % 256, s / 0x1_0000 % 256, s / 0x100 % 256, s % 256)
  {
    var q1, q2, q3 := s / 0x100, s / 0x1_0000, s / 0x100_0000;
    DivDiv(s, 0x100, 256);
    DivDiv(s, 0x1_0000, 256);
    ModSmall(q3, 256);
  }

  /** Every 32-bit value is laid out by its four bytes. */
  lemma {:induction false} BytesOfValue(s: nat)
    requires s < Uint32Range
    ensures s == Bytes(ByteAt(s, 3), ByteAt(s, 2), ByteAt(s, 1), ByteAt(s, 0))
  {
    BytesAreDigits(s);
    DigitsOfValue(s);
  }

  /** A colour whose channels are whole multiples of 1/255. */
  function ByteColor(r: nat, g: nat, b: nat): Color
  {
    Color(r as real / 255.0, g as real / 255.0, b as real / 255.0)
  }

  lemma ChannelOfByte(k: nat)
    ensures ChannelOf(k as real / 255.0) == k
  {
    assert (k as real / 255.0) * 255.0 == k as real;
  }

  lemma ConvertByteColor(r: nat, g: nat, b: nat)
    ensures ConvertColorToUint(ByteColor(r, g, b)) == PackChannels(r, g, b)
  {
    var c := ByteColor(r, g, b);
    assert ChannelOf(c.r) == r && ChannelOf(c.g) == g && ChannelOf(c.b) == b by {
      ChannelOfByte(r);
      ChannelOfByte(g);
      ChannelOfByte(b);
    }
  }

  /** Converting a colour of whole byte steps and decoding the texel gives the colour back. */
  lemma ColorRoundTrip(r: nat, g: nat, b: nat)
    requires r < 256 && g < 256 && b < 256
    ensures DecodeTexel(ConvertColorToUint(ByteColor(r, g, b))) == ByteColor(r, g, b)
  {
    var s := ConvertColorToUint(ByteColor(r, g, b));
    assert s == Bytes(0xFF, r, g, b) by {
      ConvertByteColor(r, g, b);
      PackedLayout(r, g, b);
    }
    assert ByteAt(s, 2) == r && ByteAt(s, 1) == g && ByteAt(s, 0) == b by {
      BytesReadBack(0xFF, r, g, b);
    }
  }

  /** Decoding an opaque texel and converting the colour back gives the texel. */
  lemma TexelRoundTrip(s: nat)
    requires s < Uint32Range && ByteAt(s, 3) == 0xFF
    ensures ConvertColorToUint(DecodeTexel(s)) == s
  {
    var r, g, b := ByteAt(s, 2), ByteAt(s, 1), ByteAt(s, 0);
    var c := DecodeTexel(s);
    assert c == ByteColor(r, g, b);
    calc {
      ConvertColorToUint(c);
      ConvertColorToUint(ByteColor(r, g, b));
      { ConvertByteColor(r, g, b); }
      PackChannels(r, g, b);
      { PackedLayout(r, g, b); }
      Bytes(0xFF, r, g, b);
      { BytesOfValue(s); }
      s;
    }
  }
}
