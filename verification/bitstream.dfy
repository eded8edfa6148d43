/**
 * rzlib's `bitstream`: an MSB-first bit reader over an array of fixed-width
 * unsigned blocks, parameterised by a byte-swap policy and a masking policy.
 *
 * One instantiation of the class template is a `Config`: the width of the
 * block type, the width of the result type passed to `read_bits`, and the two
 * policies. Blocks are naturals below 2^blockBits. The C++ shifts are written
 * out in the type the operands are promoted to: blocks narrower than 32 bits
 * are shifted as a 32-bit `int` (two's complement), wider blocks in their own
 * type, and storing into the result truncates modulo 2^resultBits.
 */
module BitStream {
  import opened Bits

  datatype ByteSwap = NoByteSwap | BigEndianByteSwap
  datatype Masking = NoMasking | BitMasking

  /** The template arguments of one `bitstream<TBlock, TByte_Swap, TMask>` plus the `TResult` of the reads. */
  datatype Config = Config(blockBits: nat, resultBits: nat, swap: ByteSwap, mask: Masking)

  /** Widths of the unsigned integral types. */
  predicate IsUnsignedWidth(w: nat)
  {
    w == 8 || w == 16 || w == 32 || w == 64
  }

  /** The static assertions of the policies: unsigned types, and no byte swap of a one-byte type. */
  predicate ValidConfig(cfg: Config)
  {
    IsUnsignedWidth(cfg.blockBits) && IsUnsignedWidth(cfg.resultBits)
    && (cfg.swap == BigEndianByteSwap ==> cfg.blockBits > 8)
  }

  /** Width of the type a block is promoted to before shifting: `int` or the block type itself. */
  function PromotedWidth(cfg: Config): (w: nat)
    ensures w >= 32 && w >= cfg.blockBits
  {
    if cfg.blockBits < 32 then 32 else cfg.blockBits
  }

  // ---------------------------------------------------------------------------
  // Byte-swap policies
  // ---------------------------------------------------------------------------

  /** The bytes of x as they lie in memory on a little-endian machine (lowest first). */
  function LittleEndianBytes(x: nat, count: nat): (r: seq<nat>)
    ensures |r| == count
  {
    if count == 0 then [] else [x % 256] + LittleEndianBytes(x / 256, count - 1)
  }

  predicate AreBytes(b: seq<nat>)
  {
    forall i :: 0 <= i < |b| ==> b[i] < 256
  }

  lemma {:induction false} LittleEndianBytesAreBytes(x: nat, count: nat)
    ensures AreBytes(LittleEndianBytes(x, count))
    decreases count
  {
    if count > 0 {
      LittleEndianBytesAreBytes(x / 256, count - 1);
      var r := LittleEndianBytes(x, count);
      assert r == [x % 256] + LittleEndianBytes(x / 256, count - 1);
      forall i | 0 <= i < |r|
        ensures r[i] < 256
      {
        if i > 0 {
          assert r[i] == LittleEndianBytes(x / 256, count - 1)[i - 1];
        }
      }
    }
  }

  /** The value stored by a little-endian byte sequence. */
  function FromLittleEndian(b: seq<nat>): nat
  {
    if |b| == 0 then 0 else b[0] + 256 * FromLittleEndian(b[1..])
  }

  function Reverse<T>(s: seq<T>): (r: seq<T>)
    ensures |r| == |s|
  {
    if |s| == 0 then [] else Reverse(s[1..]) + [s[0]]
  }

  /** Element i of the reversed sequence is element |s| - 1 - i of the original. */
  lemma {:induction false} ReverseAt<T>(s: seq<T>, i: nat)
    requires i < |s|
    ensures Reverse(s)[i] == s[|s| - 1 - i]
    decreases |s|
  {
    if i < |s| - 1 {
      ReverseAt(s[1..], i);
      assert Reverse(s)[i] == Reverse(s[1..])[i];
    }
  }

  /** `big_endian_byte_swap::swap` on a value of `count` bytes: the byte array read backwards. */
  function ReverseBytes(x: nat, count: nat): nat
  {
    FromLittleEndian(Reverse(LittleEndianBytes(x, count)))
  }

  /** The swap policy applied to a freshly loaded block. */
  function SwapBlock(cfg: Config, x: nat): nat
  {
    match cfg.swap
    case NoByteSwap => x
    case BigEndianByteSwap => ReverseBytes(x, cfg.blockBits / 8)
  }

  lemma {:induction false} Pow2Byte(count: nat)
    requires count >= 1
    ensures Pow2(8 * count) == 256 * Pow2(8 * (count - 1))
  {
    Pow2Add(8, 8 * (count - 1));
    assert Pow2(8) == 256;
  }

  lemma {:induction false} FromLittleEndianBound(b: seq<nat>)
    requires forall i :: 0 <= i < |b| ==> b[i] < 256
    ensures FromLittleEndian(b) < Pow2(8 * |b|)
    decreases |b|
  {
    if |b| > 0 {
      FromLittleEndianBound(b[1..]);
      Pow2Byte(|b|);
      var rest := FromLittleEndian(b[1..]);
      assert rest <= Pow2(8 * (|b| - 1)) - 1;
      assert 256 * rest <= 256 * Pow2(8 * (|b| - 1)) - 256;
    }
  }

  /** Storing the bytes of x and reading them back keeps the low 8*count bits of x. */
  lemma {:induction false} FromLittleEndianBytes(x: nat, count: nat)
    ensures FromLittleEndian(LittleEndianBytes(x, count)) == x % Pow2(8 * count)
    decreases count
  {
    if count > 0 {
      var b := LittleEndianBytes(x, count);
      assert b[1..] == LittleEndianBytes(x / 256, count - 1);
      FromLittleEndianBytes(x / 256, count - 1);
      Pow2Byte(count);
      ModSplit(x, 256, Pow2(8 * (count - 1)));
    }
  }

  /** Reading a byte sequence as a value and storing it again gives back the same bytes. */
  lemma {:induction false} LittleEndianBytesFrom(b: seq<nat>)
    requires forall i :: 0 <= i < |b| ==> b[i] < 256
    ensures LittleEndianBytes(FromLittleEndian(b), |b|) == b
    decreases |b|
  {
    if |b| > 0 {
      var rest := FromLittleEndian(b[1..]);
      var v := FromLittleEndian(b);
      assert v == rest * 256 + b[0];
      SplitAt(rest, b[0], 256);
      LittleEndianBytesFrom(b[1..]);
      assert LittleEndianBytes(v, |b|) == [b[0]] + LittleEndianBytes(rest, |b| - 1);
    }
  }

  lemma {:induction false} ReverseReverse<T>(s: seq<T>)
    ensures Reverse(Reverse(s)) == s
  {
    var r := Reverse(Reverse(s));
    forall i | 0 <= i < |s|
      ensures r[i] == s[i]
    {
      ReverseAt(Reverse(s), i);
      ReverseAt(s, |s| - 1 - i);
    }
  }

  /** `big_endian_byte_swap` reverses the byte order of the value. */
  lemma {:induction false} ReverseBytesReverses(x: nat, count: nat)
    ensures ReverseBytes(x, count) < Pow2(8 * count)
    ensures LittleEndianBytes(ReverseBytes(x, count), count) == Reverse(LittleEndianBytes(x, count))
  {
    var bytes := LittleEndianBytes(x, count);
    var rev := Reverse(bytes);
    LittleEndianBytesAreBytes(x, count);
    forall i | 0 <= i < |rev|
      ensures rev[i] < 256
    {
      ReverseAt(bytes, i);
    }
    FromLittleEndianBound(rev);
    LittleEndianBytesFrom(rev);
  }

  /** Swapping twice restores a value of `count` bytes. */
  lemma {:induction false} ReverseBytesInvolution(x: nat, count: nat)
    requires x < Pow2(8 * count)
    ensures ReverseBytes(ReverseBytes(x, count), count) == x
  {
    ReverseBytesReverses(x, count);
    ReverseReverse(LittleEndianBytes(x, count));
    FromLittleEndianBytes(x, count);
    ModSmall(x, Pow2(8 * count));
  }

  /** Both swap policies keep a block in range, and applying the policy twice is the identity. */
  lemma {:induction false} SwapBlockInvolution(cfg: Config, x: nat)
    requires ValidConfig(cfg)
    requires x < Pow2(cfg.blockBits)
    ensures SwapBlock(cfg, x) < Pow2(cfg.blockBits)
    ensures SwapBlock(cfg, SwapBlock(cfg, x)) == x
  {
    var bits := cfg.blockBits;
    if cfg.swap == BigEndianByteSwap {
      var count := bits / 8;
      assert 8 * count == bits by {
        WholeBytes(bits);
      }
      SwapBytesInvolution(x, count, bits);
    }
  }

  lemma WholeBytes(w: nat)
    requires IsUnsignedWidth(w)
    ensures 8 * (w / 8) == w
  {
  }

  /** Byte-swapping a value of `bits` = 8 * count bits keeps it in range and undoes itself. */
  lemma {:induction false} SwapBytesInvolution(x: nat, count: nat, bits: nat)
    requires bits == 8 * count && x < Pow2(bits)
    ensures ReverseBytes(x, count) < Pow2(bits)
    ensures ReverseBytes(ReverseBytes(x, count), count) == x
  {
    ReverseBytesReverses(x, count);
    ReverseBytesInvolution(x, count);
  }

  // ---------------------------------------------------------------------------
  // Masking policies
  // ---------------------------------------------------------------------------

  /** `bit_masking` needs `(1 << num_bits) - 1` to stay inside `int`. */
  predicate MaskDefined(cfg: Config, n: nat)
  {
    cfg.mask == BitMasking ==> n <= 30
  }

  /** The mask policy applied to a result: `bit_masking` ANDs with `(1 << n) - 1`, `no_masking` does nothing. */
  function ApplyMask(cfg: Config, v: nat, n: nat): (r: nat)
    requires MaskDefined(cfg, n)
    ensures cfg.mask == BitMasking ==> r == v % Pow2(n) && r < Pow2(n)
    ensures cfg.mask == NoMasking ==> r == v
    ensures r <= v
  {
    if cfg.mask == BitMasking then
      AndLowMask(v, n);
      ModAtMost(v, Pow2(n));
      BitAnd(v, Pow2(n) - 1)
    else v
  }

  // ---------------------------------------------------------------------------
  // The stream of bits a reader walks
  // ---------------------------------------------------------------------------

  predicate BlocksFit(cfg: Config, source: seq<nat>)
  {
    forall i :: 0 <= i < |source| ==> source[i] < Pow2(cfg.blockBits)
  }

  /** Stream position of the first bit of block b (that is, b * blockBits). */
  function Offset(cfg: Config, b: nat): nat
  {
    if b == 0 then 0 else Offset(cfg, b - 1) + cfg.blockBits
  }

  lemma {:induction false} OffsetIsProduct(cfg: Config, b: nat)
    ensures Offset(cfg, b) == b * cfg.blockBits
    decreases b
  {
    if b > 0 {
      OffsetIsProduct(cfg, b - 1);
    }
  }

  /** A later block starts at least one block width later. */
  lemma {:induction false} OffsetMonotone(cfg: Config, a: nat, b: nat)
    requires a < b
    ensures Offset(cfg, a) + cfg.blockBits <= Offset(cfg, b)
    decreases b
  {
    if a + 1 < b {
      OffsetMonotone(cfg, a, b - 1);
    }
  }

  /** The swapped blocks laid end to end, each most significant bit first. */
  function StreamBits(cfg: Config, source: seq<nat>): (r: seq<nat>)
    ensures |r| == Offset(cfg, |source|)
  {
    if |source| == 0 then []
    else
      var head := BlockBits(SwapBlock(cfg, source[0]), cfg.blockBits);
      var tail := StreamBits(cfg, source[1..]);
      OffsetShift(cfg, |source|);
      head + tail
  }

  /** Dropping the first block shifts every offset down by one block. */
  lemma {:induction false} OffsetShift(cfg: Config, b: nat)
    requires b >= 1
    ensures Offset(cfg, b) == cfg.blockBits + Offset(cfg, b - 1)
  {
  }

  /** Block i of the source occupies bits Offset(i) .. Offset(i) + bpb of the stream. */
  lemma {:induction false} StreamBitsBlock(cfg: Config, source: seq<nat>, i: nat)
    requires i < |source|
    ensures Offset(cfg, i) + cfg.blockBits <= Offset(cfg, |source|)
    ensures StreamBits(cfg, source)[Offset(cfg, i) .. Offset(cfg, i) + cfg.blockBits]
         == BlockBits(SwapBlock(cfg, source[i]), cfg.blockBits)
    decreases i
  {
    var bpb := cfg.blockBits;
    OffsetMonotone(cfg, i, |source|);
    var head := BlockBits(SwapBlock(cfg, source[0]), bpb);
    var tail := StreamBits(cfg, source[1..]);
    assert StreamBits(cfg, source) == head + tail;
    if i == 0 {
      assert (head + tail)[0..bpb] == head;
    } else {
      var base := Offset(cfg, i - 1);
      assert Offset(cfg, i) == base + bpb;
      assert tail[base .. base + bpb] == BlockBits(SwapBlock(cfg, source[i]), bpb) by {
        StreamBitsBlock(cfg, source[1..], i - 1);
        assert source[1..][i - 1] == source[i];
      }
      ConcatSlice(head, tail, base, base + bpb);
    }
  }

  /** A slice lying wholly in the second part of a concatenation. */
  lemma {:induction false} ConcatSlice<T>(a: seq<T>, b: seq<T>, i: nat, j: nat)
    requires i <= j <= |b|
    ensures (a + b)[|a| + i .. |a| + j] == b[i..j]
  {
    var l := (a + b)[|a| + i .. |a| + j];
    assert |l| == |b[i..j]|;
    forall t | 0 <= t < |l|
      ensures l[t] == b[i..j][t]
    {
      assert l[t] == (a + b)[|a| + i + t];
    }
  }

  /** The number spelled by the n stream bits starting at bit p. */
  function Window(cfg: Config, source: seq<nat>, p: nat, n: nat): nat
    requires p + n <= Offset(cfg, |source|)
  {
    ValueOf(StreamBits(cfg, source)[p .. p + n])
  }

  lemma {:induction false} SliceOfSlice<T>(s: seq<T>, a: nat, b: nat, i: nat, j: nat)
    requires a <= b <= |s|
    requires i <= j <= b - a
    ensures s[a..b][i..j] == s[a + i .. a + j]
  {
    var l := s[a..b][i..j];
    var r := s[a + i .. a + j];
    assert |l| == |r|;
    forall t | 0 <= t < |l|
      ensures l[t] == r[t]
    {
      assert l[t] == s[a..b][i + t] == s[a + i + t];
    }
  }

  lemma {:induction false} SliceSplit<T>(s: seq<T>, a: nat, m: nat, b: nat)
    requires a <= m <= b <= |s|
    ensures s[a..b] == s[a..m] + s[m..b]
  {
  }

  /** A window inside block b, off bits in: (block >> (bpb - off - n)) mod 2^n. */
  lemma {:induction false} WindowInBlock(cfg: Config, source: seq<nat>, b: nat, off: nat, n: nat)
    requires b < |source|
    requires off + n <= cfg.blockBits
    ensures Offset(cfg, b) + off + n <= Offset(cfg, |source|)
    ensures Window(cfg, source, Offset(cfg, b) + off, n)
         == Shr(SwapBlock(cfg, source[b]), cfg.blockBits - off - n) % Pow2(n)
  {
    StreamBitsBlock(cfg, source, b);
    SliceOfBlockValue(StreamBits(cfg, source), Offset(cfg, b), cfg.blockBits, SwapBlock(cfg, source[b]), off, n, Offset(cfg, b) + off);
  }

  /** n bits at offset off of a w-bit block laid at position base of a bit string. */
  lemma {:induction false} SliceOfBlockValue(bits: seq<nat>, base: nat, w: nat, x: nat, off: nat, n: nat, from: nat)
    requires base + w <= |bits| && bits[base .. base + w] == BlockBits(x, w)
    requires off + n <= w && from == base + off
    ensures from + n <= |bits|
    ensures ValueOf(bits[from .. from + n]) == Shr(x, w - off - n) % Pow2(n)
  {
    SliceOfSlice(bits, base, base + w, off, off + n);
    BlockBitsSlice(x, w, off, off + n);
  }

  /** The bits from offset off to the end of block b spell the low bpb - off bits of that block. */
  lemma {:induction false} BlockTail(cfg: Config, source: seq<nat>, b: nat, off: nat, len: nat, from: nat, to: nat)
    requires b < |source|
    requires off + len == cfg.blockBits
    requires from == Offset(cfg, b) + off && to == Offset(cfg, b) + cfg.blockBits
    ensures to <= Offset(cfg, |source|)
    ensures ValueOf(StreamBits(cfg, source)[from .. to]) == SwapBlock(cfg, source[b]) % Pow2(len)
  {
    var cur := SwapBlock(cfg, source[b]);
    StreamBitsBlock(cfg, source, b);
    SliceOfBlockValue(StreamBits(cfg, source), Offset(cfg, b), cfg.blockBits, cur, off, len, from);
    assert Shr(cur, 0) == cur;
  }

  /** The first k bits of block b spell the block shifted right by bpb - k. */
  lemma {:induction false} BlockHead(cfg: Config, source: seq<nat>, b: nat, k: nat, at: nat)
    requires b < |source|
    requires k <= cfg.blockBits
    requires at == Offset(cfg, b)
    ensures at + cfg.blockBits <= Offset(cfg, |source|)
    ensures ValueOf(StreamBits(cfg, source)[at .. at + k]) == Shr(SwapBlock(cfg, source[b]), cfg.blockBits - k) % Pow2(k)
  {
    StreamBitsBlock(cfg, source, b);
    SliceOfBlockValue(StreamBits(cfg, source), at, cfg.blockBits, SwapBlock(cfg, source[b]), 0, k, at);
  }

  /**
   * A window that takes the last rem bits of block b and the first k bits of
   * block b+1: the low rem bits of block b followed by the top k bits of block b+1.
   */
  lemma {:induction false} WindowAcross(cfg: Config, source: seq<nat>, b: nat, rem: nat, k: nat, p: nat, n: nat)
    requires b + 1 < |source|
    requires rem <= cfg.blockBits && k <= cfg.blockBits
    requires p == Offset(cfg, b) + (cfg.blockBits - rem) && n == rem + k
    ensures p + n <= Offset(cfg, |source|)
    ensures Window(cfg, source, p, n)
         == (SwapBlock(cfg, source[b]) % Pow2(rem)) * Pow2(k)
            + Shr(SwapBlock(cfg, source[b + 1]), cfg.blockBits - k) % Pow2(k)
  {
    var bpb := cfg.blockBits;
    var mid := Offset(cfg, b + 1);
    var bits := StreamBits(cfg, source);
    assert p + n == mid + k;
    BlockTail(cfg, source, b, bpb - rem, rem, p, mid);
    BlockHead(cfg, source, b + 1, k, mid);
    ValueOfSplit(bits, p, mid, k, SwapBlock(cfg, source[b]) % Pow2(rem), Shr(SwapBlock(cfg, source[b + 1]), bpb - k) % Pow2(k));
  }

  /** The value of a slice split in two: the first part shifted past the second. */
  lemma {:induction false} ValueOfSplit(bits: seq<nat>, p: nat, m: nat, k: nat, hi: nat, lo: nat)
    requires p <= m && m + k <= |bits|
    requires ValueOf(bits[p..m]) == hi && ValueOf(bits[m..m + k]) == lo
    ensures ValueOf(bits[p..m + k]) == hi * Pow2(k) + lo
  {
    SliceSplit(bits, p, m, m + k);
    ValueOfConcat(bits[p..m], bits[m..m + k]);
  }

  // ---------------------------------------------------------------------------
  // The reader
  // ---------------------------------------------------------------------------

  /** Reader state: the source blocks, the block cursor, the swapped current block and its unread bit count. */
  datatype Stream = Stream(source: seq<nat>, block: nat, current: nat, remaining: nat)

  predicate Valid(cfg: Config, s: Stream)
  {
    && ValidConfig(cfg)
    && BlocksFit(cfg, s.source)
    && s.block <= |s.source|
    && (s.block < |s.source| ==> s.current == SwapBlock(cfg, s.source[s.block]))
    && s.remaining <= cfg.blockBits
  }

  /** Bits of the stream already handed out. */
  function Consumed(cfg: Config, s: Stream): nat
    requires s.remaining <= cfg.blockBits
  {
    Offset(cfg, s.block) + (cfg.blockBits - s.remaining)
  }

  /** How the consumed-bit count moves when the cursor and the remaining count change. */
  lemma {:induction false} ConsumedAfter(cfg: Config, block: nat, remaining: nat, block': nat, remaining': nat, n: nat)
    requires remaining <= cfg.blockBits && remaining' <= cfg.blockBits
    requires (block' == block && remaining' + n == remaining)
          || (block' == block + 1 && remaining' + n == cfg.blockBits + remaining)
    ensures Offset(cfg, block') + (cfg.blockBits - remaining')
         == Offset(cfg, block) + (cfg.blockBits - remaining) + n
  {
  }

  /** The constructor: loads and swaps block 0, with every bit of it unread. */
  function Open(cfg: Config, source: seq<nat>): (s: Stream)
    requires ValidConfig(cfg)
    requires BlocksFit(cfg, source)
    requires |source| >= 1
    ensures Valid(cfg, s)
    ensures s.source == source && s.block == 0
    ensures Consumed(cfg, s) == 0
  {
    Stream(source, 0, SwapBlock(cfg, source[0]), cfg.blockBits)
  }

  datatype ReadResult = Empty | Read(value: nat, next: Stream)

  /** Reads the low 32 bits of a value as a two's complement `int`. */
  function WrapInt32(x: nat): int
  {
    var low := x % Pow2(32);
    if low >= Pow2(31) then low - Pow2(32) else low
  }

  /** `current << amount` in the promoted type: a 32-bit two's complement `int`, or the block type. */
  function ShiftLeftPromoted(cfg: Config, x: nat, amount: nat): int
  {
    var wide := x * Pow2(amount);
    if cfg.blockBits < 32 then WrapInt32(wide) else wide % Pow2(cfg.blockBits)
  }

  /** Conversion of an integer to the unsigned result type. */
  function ToResult(cfg: Config, v: int): (r: nat)
    ensures r < Pow2(cfg.resultBits)
  {
    v % Pow2(cfg.resultBits)
  }

  /** Every shift `read_bits` performs has an amount below the promoted width (and not negative). */
  predicate ShiftsDefined(cfg: Config, s: Stream, n: nat)
  {
    var w := PromotedWidth(cfg);
    if s.remaining > n then s.remaining - n < w
    else
      var k := n - s.remaining;
      k < w && k <= cfg.blockBits && cfg.blockBits - k < w
  }

  /** A read that crosses into the next block needs that block to exist. */
  predicate InBounds(s: Stream, n: nat)
  {
    s.block < |s.source| && s.remaining <= n ==> s.block + 1 < |s.source|
  }

  /** Everything `read_bits` demands of its caller besides the bounds of the block array. */
  predicate ReadDefined(cfg: Config, s: Stream, n: nat)
  {
    Valid(cfg, s) && n <= cfg.resultBits && ShiftsDefined(cfg, s, n) && MaskDefined(cfg, n)
  }

  /** `read_bits(n, &result)` as written. */
  function ReadBits(cfg: Config, s: Stream, n: nat): (r: ReadResult)
    requires ReadDefined(cfg, s, n)
    requires InBounds(s, n)
    ensures r.Empty? <==> s.block == |s.source|
    ensures r.Read? ==> Valid(cfg, r.next) && r.next.source == s.source
    ensures r.Read? ==> Consumed(cfg, r.next) == Consumed(cfg, s) + n
    ensures r.Read? ==> r.value < Pow2(cfg.resultBits)
    ensures r.Read? && s.remaining > n ==> r.next.block == s.block
    ensures r.Read? && s.remaining <= n ==> r.next.block == s.block + 1
  {
    if s.block == |s.source| then Empty
    else if s.remaining > n then
      ConsumedAfter(cfg, s.block, s.remaining, s.block, s.remaining - n, n);
      Read(ApplyMask(cfg, InsideValue(cfg, s.current, s.remaining, n), n), s.(remaining := s.remaining - n))
    else
      var k := n - s.remaining;
      var loaded := SwapBlock(cfg, s.source[s.block + 1]);
      ConsumedAfter(cfg, s.block, s.remaining, s.block + 1, cfg.blockBits - k, n);
      Read(ApplyMask(cfg, AcrossValue(cfg, s.current, loaded, k), n),
           Stream(s.source, s.block + 1, loaded, cfg.blockBits - k))
  }

  /** `*result = current >> (remaining - n)`: a read inside the current block, before masking. */
  function InsideValue(cfg: Config, cur: nat, remaining: nat, n: nat): nat
    requires n < remaining
  {
    ToResult(cfg, Shr(cur, remaining - n))
  }

  /**
   * `*result = current << k`, then `*result |= loaded >> (bpb - k)` once the
   * next block is loaded: a read across the block boundary, before masking.
   */
  function AcrossValue(cfg: Config, cur: nat, loaded: nat, k: nat): nat
    requires k <= cfg.blockBits
  {
    var left := ToResult(cfg, ShiftLeftPromoted(cfg, cur, k));
    ToResult(cfg, BitOr(left, Shr(loaded, cfg.blockBits - k)))
  }

  // ---------------------------------------------------------------------------
  // What a read returns
  // ---------------------------------------------------------------------------

  /** The mask policies never disturb the n bits being read. */
  lemma {:induction false} MaskKeepsLowBits(cfg: Config, v: nat, n: nat)
    requires MaskDefined(cfg, n)
    ensures ApplyMask(cfg, v, n) % Pow2(n) == v % Pow2(n)
  {
    if cfg.mask == BitMasking {
      ModMod(v, n, n);
    }
  }

  /** Wrapping to a 32-bit `int` keeps the low m <= 32 bits. */
  lemma {:induction false} WrapInt32LowBits(x: nat, m: nat)
    requires m <= 32
    ensures WrapInt32(x) % Pow2(m) == x % Pow2(m)
  {
    var low := x % Pow2(32);
    ModMod(x, 32, m);
    if low >= Pow2(31) {
      Pow2Add(32 - m, m);
      ModSubMultiple(low, Pow2(32 - m), Pow2(m));
    }
  }

  /** The low m bits of the shifted block survive promotion whenever m fits the promoted type. */
  lemma {:induction false} ShiftLeftPromotedLowBits(cfg: Config, x: nat, k: nat, m: nat)
    requires m <= PromotedWidth(cfg)
    ensures ShiftLeftPromoted(cfg, x, k) % Pow2(m) == (x * Pow2(k)) % Pow2(m)
  {
    if cfg.blockBits < 32 {
      WrapInt32LowBits(x * Pow2(k), m);
    } else {
      ModMod(x * Pow2(k), cfg.blockBits, m);
    }
  }

  /** ... and survive the conversion to the result type whenever m fits that too. */
  lemma {:induction false} ShiftLeftLowBits(cfg: Config, x: nat, k: nat, m: nat)
    requires m <= PromotedWidth(cfg) && m <= cfg.resultBits
    ensures ToResult(cfg, ShiftLeftPromoted(cfg, x, k)) % Pow2(m) == (x * Pow2(k)) % Pow2(m)
  {
    ModMod(ShiftLeftPromoted(cfg, x, k), cfg.resultBits, m);
    ShiftLeftPromotedLowBits(cfg, x, k, m);
  }

  /** The converted left part of a boundary read: k zero bits below the rem unread bits of the block. */
  lemma {:induction false} LeftPart(cfg: Config, cur: nat, rem: nat, k: nat, n: nat)
    requires n == rem + k && n <= PromotedWidth(cfg) && n <= cfg.resultBits
    ensures ToResult(cfg, ShiftLeftPromoted(cfg, cur, k)) % Pow2(k) == 0
    ensures ToResult(cfg, ShiftLeftPromoted(cfg, cur, k)) % Pow2(n) == (cur % Pow2(rem)) * Pow2(k)
  {
    ShiftLeftLowBits(cfg, cur, k, n);
    ShiftLeftLowBits(cfg, cur, k, k);
    ModOfShifted(cur, 0, k, rem);
    ModOfShifted(cur, 0, k, 0);
  }

  /** Joining the two parts of a boundary read: OR of aligned parts, truncated, keeps the window. */
  lemma {:induction false} JoinParts(cfg: Config, v: nat, left: nat, low: nat, hi: nat, rem: nat, k: nat, n: nat)
    requires v == ToResult(cfg, BitOr(left, low))
    requires n == rem + k && n <= cfg.resultBits
    requires left % Pow2(k) == 0
    requires left % Pow2(n) == hi * Pow2(k)
    requires hi < Pow2(rem) && low < Pow2(k)
    ensures v % Pow2(n) == hi * Pow2(k) + low % Pow2(k)
  {
    ModSmall(low, Pow2(k));
    var window := hi * Pow2(k) + low;
    OrOfAligned(left, low, k);
    assert BitOr(left, low) == left + low;
    ModMod(left + low, cfg.resultBits, n);
    assert ToResult(cfg, left + low) % Pow2(n) == (left + low) % Pow2(n);
    AddMod(left, low, Pow2(n));
    assert (left + low) % Pow2(n) == window % Pow2(n);
    ShiftedFits(hi, low, rem, k);
    ModSmall(window, Pow2(n));
  }

  /** Preconditions of a read that does not cross into the next block. */
  predicate InsideBlock(cfg: Config, s: Stream, n: nat)
  {
    ReadDefined(cfg, s, n) && s.block < |s.source| && s.remaining > n
  }

  /** Preconditions of a read that crosses into the next block. */
  predicate CrossesBlock(cfg: Config, s: Stream, n: nat)
  {
    ReadDefined(cfg, s, n) && s.block + 1 < |s.source| && s.remaining <= n
  }

  /** Inside a block the shifted value's low n bits are the next n stream bits. */
  lemma {:induction false} ReadInsideBlockWindow(cfg: Config, s: Stream, n: nat)
    requires InsideBlock(cfg, s, n)
    ensures Consumed(cfg, s) + n <= Offset(cfg, |s.source|)
    ensures InsideValue(cfg, s.current, s.remaining, n) % Pow2(n) == Window(cfg, s.source, Consumed(cfg, s), n)
  {
    InsideWindow(cfg, s.source, s.block, s.current, s.remaining, n);
  }

  /** ReadInsideBlockWindow with the block, the current value and the unread count spelled out. */
  lemma {:induction false} InsideWindow(cfg: Config, source: seq<nat>, b: nat, cur: nat, rem: nat, n: nat)
    requires b < |source| && cur == SwapBlock(cfg, source[b])
    requires n < rem <= cfg.blockBits && n <= cfg.resultBits
    ensures Offset(cfg, b) + (cfg.blockBits - rem) + n <= Offset(cfg, |source|)
    ensures InsideValue(cfg, cur, rem, n) % Pow2(n) == Window(cfg, source, Offset(cfg, b) + (cfg.blockBits - rem), n)
  {
    WindowInBlock(cfg, source, b, cfg.blockBits - rem, n);
    ModMod(Shr(cur, rem - n), cfg.resultBits, n);
  }

  /** The value a boundary read computes, before masking: the low rem bits of cur, then the top k bits of loaded. */
  lemma {:induction false} BoundaryValue(cfg: Config, cur: nat, loaded: nat, rem: nat, k: nat, n: nat)
    requires loaded < Pow2(cfg.blockBits) && k <= cfg.blockBits
    requires n == rem + k && n <= PromotedWidth(cfg) && n <= cfg.resultBits
    ensures AcrossValue(cfg, cur, loaded, k) % Pow2(n)
         == (cur % Pow2(rem)) * Pow2(k) + Shr(loaded, cfg.blockBits - k) % Pow2(k)
  {
    var v := AcrossValue(cfg, cur, loaded, k);
    var left := ToResult(cfg, ShiftLeftPromoted(cfg, cur, k));
    var low := Shr(loaded, cfg.blockBits - k);
    LowPartFits(loaded, cfg.blockBits, k, low);
    LeftPart(cfg, cur, rem, k, n);
    JoinParts(cfg, v, left, low, cur % Pow2(rem), rem, k, n);
  }

  /** The top k bits of a w-bit value, shifted down, fit in k bits. */
  lemma {:induction false} LowPartFits(x: nat, w: nat, k: nat, low: nat)
    requires x < Pow2(w) && k <= w && low == Shr(x, w - k)
    ensures low < Pow2(k) && low % Pow2(k) == low
  {
    ShrBound(x, w, w - k);
    assert w - (w - k) == k;
    ModSmall(low, Pow2(k));
  }

  /** Across a boundary at block b: (cur << k) | (next >> (bpb - k)) spells the stream from the rem-th last bit of block b. */
  lemma {:induction false} AcrossWindowAt(cfg: Config, source: seq<nat>, b: nat, cur: nat, rem: nat, k: nat, p: nat, n: nat)
    requires ValidConfig(cfg) && BlocksFit(cfg, source) && b + 1 < |source|
    requires cur == SwapBlock(cfg, source[b])
    requires rem <= cfg.blockBits && k <= cfg.blockBits && n == rem + k
    requires n <= PromotedWidth(cfg) && n <= cfg.resultBits
    requires p == Offset(cfg, b) + (cfg.blockBits - rem)
    ensures p + n <= Offset(cfg, |source|)
    ensures AcrossValue(cfg, cur, SwapBlock(cfg, source[b + 1]), k) % Pow2(n) == Window(cfg, source, p, n)
  {
    SwapBlockInvolution(cfg, source[b + 1]);
    WindowAcross(cfg, source, b, rem, k, p, n);
    BoundaryValue(cfg, cur, SwapBlock(cfg, source[b + 1]), rem, k, n);
  }

  /** Across a boundary the combined value's low n bits are the next n stream bits. */
  lemma {:induction false} ReadAcrossBlockWindow(cfg: Config, s: Stream, n: nat)
    requires CrossesBlock(cfg, s, n)
    requires n <= PromotedWidth(cfg)
    ensures Consumed(cfg, s) + n <= Offset(cfg, |s.source|)
    ensures AcrossValue(cfg, s.current, SwapBlock(cfg, s.source[s.block + 1]), n - s.remaining) % Pow2(n)
         == Window(cfg, s.source, Consumed(cfg, s), n)
  {
    assert n - s.remaining <= cfg.blockBits;
    AcrossWindowAt(cfg, s.source, s.block, s.current, s.remaining, n - s.remaining, Consumed(cfg, s), n);
  }

  /**
   * `read_bits` hands out the next n bits of the stream: the low n bits of the
   * result are the window at the consumed position, whenever n fits the
   * promoted shift width.
   */
  lemma {:induction false} ReadBitsWindow(cfg: Config, s: Stream, n: nat)
    requires ReadDefined(cfg, s, n) && InBounds(s, n)
    requires s.block < |s.source|
    requires n <= PromotedWidth(cfg)
    ensures Consumed(cfg, s) + n <= Offset(cfg, |s.source|)
    ensures ReadBits(cfg, s, n).value % Pow2(n) == Window(cfg, s.source, Consumed(cfg, s), n)
  {
    if s.remaining > n {
      ReadInsideBlockWindow(cfg, s, n);
      MaskKeepsLowBits(cfg, InsideValue(cfg, s.current, s.remaining, n), n);
    } else {
      var loaded := SwapBlock(cfg, s.source[s.block + 1]);
      ReadAcrossBlockWindow(cfg, s, n);
      MaskKeepsLowBits(cfg, AcrossValue(cfg, s.current, loaded, n - s.remaining), n);
    }
  }

  /** Under `bit_masking` the result is exactly the next n bits of the stream. */
  lemma {:induction false} ReadBitsMasked(cfg: Config, s: Stream, n: nat)
    requires ReadDefined(cfg, s, n) && InBounds(s, n)
    requires s.block < |s.source|
    requires cfg.mask == BitMasking
    ensures Consumed(cfg, s) + n <= Offset(cfg, |s.source|)
    ensures ReadBits(cfg, s, n).value == Window(cfg, s.source, Consumed(cfg, s), n)
  {
    ReadBitsWindow(cfg, s, n);
    ModSmall(ReadBits(cfg, s, n).value, Pow2(n));
  }

  /** Inside block b, cur >> (rem - n) is the block's bits from its start to the end of the window. */
  lemma {:induction false} PrefixAt(cfg: Config, source: seq<nat>, b: nat, cur: nat, rem: nat, n: nat)
    requires ValidConfig(cfg) && BlocksFit(cfg, source) && b < |source|
    requires cur == SwapBlock(cfg, source[b])
    requires n < rem <= cfg.blockBits
    ensures Offset(cfg, b) + (cfg.blockBits - rem + n) <= Offset(cfg, |source|)
    ensures InsideValue(cfg, cur, rem, n)
         == Window(cfg, source, Offset(cfg, b), cfg.blockBits - rem + n) % Pow2(cfg.resultBits)
  {
    var bpb := cfg.blockBits;
    var len := bpb - rem + n;
    WindowInBlock(cfg, source, b, 0, len);
    assert bpb - 0 - len == rem - n;
    SwapBlockInvolution(cfg, source[b]);
    ShrBound(cur, bpb, rem - n);
    assert bpb - (rem - n) == len;
    ModSmall(Shr(cur, rem - n), Pow2(len));
  }

  /**
   * Under `no_masking` a read inside a block also returns the bits of the block
   * read before it: the result spells everything from the block's start to the
   * end of the window, truncated to the result type.
   */
  lemma {:induction false} ReadBitsUnmaskedKeepsPrefix(cfg: Config, s: Stream, n: nat)
    requires InsideBlock(cfg, s, n)
    requires cfg.mask == NoMasking
    ensures Offset(cfg, s.block) + (Consumed(cfg, s) + n - Offset(cfg, s.block)) <= Offset(cfg, |s.source|)
    ensures ReadBits(cfg, s, n).value
         == Window(cfg, s.source, Offset(cfg, s.block), Consumed(cfg, s) + n - Offset(cfg, s.block))
            % Pow2(cfg.resultBits)
  {
    assert Consumed(cfg, s) + n - Offset(cfg, s.block) == cfg.blockBits - s.remaining + n;
    PrefixAt(cfg, s.source, s.block, s.current, s.remaining, n);
  }

  // ---------------------------------------------------------------------------
  // A reader that never reads past the last block
  // ---------------------------------------------------------------------------

  /**
   * Shifts the corrected reader performs: a read ending exactly at a block
   * boundary takes the whole current block and shifts nothing in from the next.
   */
  predicate CheckedShiftsDefined(cfg: Config, s: Stream, n: nat)
  {
    var w := PromotedWidth(cfg);
    if s.remaining > n then s.remaining - n < w
    else n - s.remaining < w && n - s.remaining <= cfg.blockBits
  }

  predicate CheckedReadDefined(cfg: Config, s: Stream, n: nat)
  {
    Valid(cfg, s) && n <= cfg.resultBits && CheckedShiftsDefined(cfg, s, n) && MaskDefined(cfg, n)
  }

  /** The value of a boundary read in the corrected reader, before masking. */
  function CheckedAcrossValue(cfg: Config, cur: nat, loaded: nat, k: nat): nat
    requires k <= cfg.blockBits
  {
    if k == 0 then ToResult(cfg, cur) else AcrossValue(cfg, cur, loaded, k)
  }

  /** The state after a boundary read that takes k bits of block b + 1. */
  function NextBlock(cfg: Config, source: seq<nat>, b: nat, k: nat): Stream
    requires b < |source| && k <= cfg.blockBits
  {
    if b + 1 < |source| then Stream(source, b + 1, SwapBlock(cfg, source[b + 1]), cfg.blockBits - k)
    else Stream(source, b + 1, 0, cfg.blockBits)
  }

  /**
   * `read_bits` with the out-of-range load removed: the read fails exactly
   * when fewer than n bits are left, and the next block is loaded only when
   * it exists.
   */
  function ReadBitsChecked(cfg: Config, s: Stream, n: nat): (r: ReadResult)
    requires CheckedReadDefined(cfg, s, n)
    ensures r.Empty? <==> s.block == |s.source| || Consumed(cfg, s) + n > Offset(cfg, |s.source|)
    ensures r.Read? ==> Valid(cfg, r.next) && r.next.source == s.source
    ensures r.Read? ==> Consumed(cfg, r.next) == Consumed(cfg, s) + n
    ensures r.Read? ==> r.value < Pow2(cfg.resultBits)
  {
    if s.block == |s.source| then Empty
    else if s.remaining > n then
      InsideStep(cfg, s, n);
      Read(ApplyMask(cfg, InsideValue(cfg, s.current, s.remaining, n), n), s.(remaining := s.remaining - n))
    else
      var k := n - s.remaining;
      if s.block + 1 == |s.source| && k > 0 then
        assert Consumed(cfg, s) + n == Offset(cfg, s.block + 1) + k;
        Empty
      else
        var next := NextBlock(cfg, s.source, s.block, k);
        AcrossStep(cfg, s, n);
        Read(ApplyMask(cfg, CheckedAcrossValue(cfg, s.current, next.current, k), n), next)
  }

  /** A read inside the current block keeps the state valid and stays within the source. */
  lemma {:induction false} InsideStep(cfg: Config, s: Stream, n: nat)
    requires Valid(cfg, s) && s.block < |s.source| && s.remaining > n
    ensures Valid(cfg, s.(remaining := s.remaining - n))
    ensures Consumed(cfg, s.(remaining := s.remaining - n)) == Consumed(cfg, s) + n
    ensures Consumed(cfg, s) + n <= Offset(cfg, |s.source|)
  {
    ConsumedAfter(cfg, s.block, s.remaining, s.block, s.remaining - n, n);
    OffsetMonotone(cfg, s.block, |s.source|);
  }

  /** A boundary read that the corrected reader serves lands on a valid state within the source. */
  lemma {:induction false} AcrossStep(cfg: Config, s: Stream, n: nat)
    requires Valid(cfg, s) && s.block < |s.source| && s.remaining <= n
    requires n - s.remaining <= cfg.blockBits
    requires s.block + 1 < |s.source| || n == s.remaining
    ensures var next := NextBlock(cfg, s.source, s.block, n - s.remaining);
      && Valid(cfg, next) && next.source == s.source
      && Consumed(cfg, next) == Consumed(cfg, s) + n
      && Consumed(cfg, s) + n <= Offset(cfg, |s.source|)
  {
    var k := n - s.remaining;
    var next := NextBlock(cfg, s.source, s.block, k);
    assert next.block == s.block + 1 && next.remaining == cfg.blockBits - k;
    var before := Offset(cfg, s.block) + (cfg.blockBits - s.remaining);
    var after := Offset(cfg, s.block + 1) + k;
    assert after == before + n by {
      ConsumedAfter(cfg, s.block, s.remaining, s.block + 1, cfg.blockBits - k, n);
    }
    assert after <= Offset(cfg, |s.source|) by {
      if s.block + 1 < |s.source| {
        OffsetMonotone(cfg, s.block + 1, |s.source|);
      }
    }
  }

  /** A boundary read of zero bits from the next block, as written, returns the current block unchanged. */
  /** A value that fits in 31 bits is its own 32-bit two's complement reading. */
  lemma {:induction false} WrapInt32Small(x: nat)
    requires x < Pow2(31)
    ensures WrapInt32(x) == x
  {
    assert Pow2(32) == 2 * Pow2(31);
    ModSmall(x, Pow2(32));
  }

  /** Shifting a block left by nothing leaves it unchanged. */
  lemma {:induction false} ShiftLeftPromotedZero(cfg: Config, x: nat)
    requires ValidConfig(cfg) && x < Pow2(cfg.blockBits)
    ensures ShiftLeftPromoted(cfg, x, 0) == x
  {
    assert x * Pow2(0) == x by {
      assert Pow2(0) == 1;
      MulOne(x, Pow2(0));
    }
    if cfg.blockBits < 32 {
      assert x < Pow2(31) by {
        Pow2Monotone(cfg.blockBits, 31);
      }
      WrapInt32Small(x);
    } else {
      ModSmall(x, Pow2(cfg.blockBits));
    }
  }

  lemma {:induction false} AcrossValueZero(cfg: Config, cur: nat, loaded: nat)
    requires ValidConfig(cfg)
    requires cur < Pow2(cfg.blockBits) && loaded < Pow2(cfg.blockBits)
    ensures AcrossValue(cfg, cur, loaded, 0) == ToResult(cfg, cur)
  {
    var left := ToResult(cfg, cur);
    assert ToResult(cfg, ShiftLeftPromoted(cfg, cur, 0)) == left by {
      ShiftLeftPromotedZero(cfg, cur);
    }
    assert Shr(loaded, cfg.blockBits) == 0 by {
      ShrBound(loaded, cfg.blockBits, cfg.blockBits);
      assert Pow2(0) == 1;
    }
    assert BitOr(left, 0) == left;
    assert ToResult(cfg, left) == left by {
      ModSmall(left, Pow2(cfg.resultBits));
    }
  }

  /**
   * Wherever the reader as written is defined and stays inside the block
   * array, the corrected reader returns the same value and state.
   */
  lemma {:induction false} ReadBitsCheckedAgrees(cfg: Config, s: Stream, n: nat)
    requires ReadDefined(cfg, s, n) && InBounds(s, n)
    ensures CheckedReadDefined(cfg, s, n)
    ensures ReadBitsChecked(cfg, s, n) == ReadBits(cfg, s, n)
  {
    if s.block < |s.source| && s.remaining <= n {
      var k := n - s.remaining;
      var loaded := SwapBlock(cfg, s.source[s.block + 1]);
      assert NextBlock(cfg, s.source, s.block, k) == Stream(s.source, s.block + 1, loaded, cfg.blockBits - k);
      assert CheckedAcrossValue(cfg, s.current, loaded, k) == AcrossValue(cfg, s.current, loaded, k) by {
        if k == 0 {
          SwapBlockInvolution(cfg, s.source[s.block]);
          SwapBlockInvolution(cfg, s.source[s.block + 1]);
          AcrossValueZero(cfg, s.current, loaded);
        }
      }
    }
  }

  /** A read ending exactly at the end of block b spells the last rem bits of that block. */
  lemma {:induction false} BlockEndWindow(cfg: Config, source: seq<nat>, b: nat, cur: nat, rem: nat)
    requires b < |source| && cur == SwapBlock(cfg, source[b])
    requires rem <= cfg.blockBits && rem <= cfg.resultBits
    ensures Offset(cfg, b) + (cfg.blockBits - rem) + rem <= Offset(cfg, |source|)
    ensures ToResult(cfg, cur) % Pow2(rem) == Window(cfg, source, Offset(cfg, b) + (cfg.blockBits - rem), rem)
  {
    WindowInBlock(cfg, source, b, cfg.blockBits - rem, rem);
    assert cfg.blockBits - (cfg.blockBits - rem) - rem == 0;
    assert Shr(cur, 0) == cur;
    ModMod(cur, cfg.resultBits, rem);
  }

  /**
   * The corrected reader hands out the next n bits of the stream whenever it
   * does not fail, n fitting the promoted shift width.
   */
  lemma {:induction false} ReadBitsCheckedWindow(cfg: Config, s: Stream, n: nat)
    requires CheckedReadDefined(cfg, s, n)
    requires n <= PromotedWidth(cfg)
    ensures var r := ReadBitsChecked(cfg, s, n);
            r.Read? ==>
              Consumed(cfg, s) + n <= Offset(cfg, |s.source|)
              && r.value % Pow2(n) == Window(cfg, s.source, Consumed(cfg, s), n)
  {
    var r := ReadBitsChecked(cfg, s, n);
    if r.Read? {
      var v;
      if s.remaining > n {
        v := InsideValue(cfg, s.current, s.remaining, n);
        ReadInsideBlockWindow(cfg, s, n);
      } else if n == s.remaining {
        v := ToResult(cfg, s.current);
        assert CheckedAcrossValue(cfg, s.current, NextBlock(cfg, s.source, s.block, 0).current, 0) == v;
        BlockEndWindow(cfg, s.source, s.block, s.current, n);
      } else {
        v := AcrossValue(cfg, s.current, SwapBlock(cfg, s.source[s.block + 1]), n - s.remaining);
        ReadAcrossBlockWindow(cfg, s, n);
      }
      assert r.value == ApplyMask(cfg, v, n);
      MaskKeepsLowBits(cfg, v, n);
    }
  }

  /** Under `bit_masking` the corrected reader returns exactly the next n bits, or fails when fewer are left. */
  lemma {:induction false} ReadBitsCheckedMasked(cfg: Config, s: Stream, n: nat)
    requires CheckedReadDefined(cfg, s, n)
    requires cfg.mask == BitMasking
    ensures ReadBitsChecked(cfg, s, n).Read? <==> s.block < |s.source| && Consumed(cfg, s) + n <= Offset(cfg, |s.source|)
    ensures ReadBitsChecked(cfg, s, n).Read? ==>
              ReadBitsChecked(cfg, s, n).value == Window(cfg, s.source, Consumed(cfg, s), n)
  {
    if ReadBitsChecked(cfg, s, n).Read? {
      ReadBitsCheckedWindow(cfg, s, n);
      ModSmall(ReadBitsChecked(cfg, s, n).value, Pow2(n));
    }
  }

  // ---------------------------------------------------------------------------
  // The sample stream: two 16-bit blocks, big-endian swap, masked 16-bit reads
  // ---------------------------------------------------------------------------

  const SampleConfig := Config(16, 32, BigEndianByteSwap, BitMasking)
  const SampleData: seq<nat> := [0x1234, 0x5678]

  lemma SampleSwaps()
    ensures SwapBlock(SampleConfig, 0x1234) == 0x3412
    ensures SwapBlock(SampleConfig, 0x5678) == 0x7856
  {
    assert LittleEndianBytes(0x1234, 2) == [0x34, 0x12];
    assert Reverse([0x34, 0x12]) == [0x12, 0x34];
    assert LittleEndianBytes(0x5678, 2) == [0x78, 0x56];
    assert Reverse([0x78, 0x56]) == [0x56, 0x78];
  }

  lemma SampleFits()
    ensures ValidConfig(SampleConfig) && BlocksFit(SampleConfig, SampleData)
  {
    assert Pow2(8) == 256;
    Pow2Add(8, 8);
    assert Pow2(16) == 0x10000;
  }

  /** The reader states the sample program passes through. */
  const SampleStart := Stream(SampleData, 0, 0x3412, 16)
  const SampleAfterFirst := Stream(SampleData, 1, 0x7856, 16)
  const SampleAfterSecond := Stream(SampleData, 2, 0, 16)

  lemma SampleOpen()
    ensures BlocksFit(SampleConfig, SampleData)
    ensures Open(SampleConfig, SampleData) == SampleStart
  {
    SampleFits();
    SampleSwaps();
  }

  lemma SampleStatesValid()
    ensures Valid(SampleConfig, SampleStart)
    ensures Valid(SampleConfig, SampleAfterFirst)
    ensures Valid(SampleConfig, SampleAfterSecond)
  {
    SampleFits();
    SampleSwaps();
  }

  /**
   * Reading the sample 16 bits at a time as written: the first read returns
   * 0x3412, and the second already needs the block after the last one.
   */
  lemma SampleReadsPastEnd()
    ensures ReadDefined(SampleConfig, SampleStart, 16) && InBounds(SampleStart, 16)
    ensures ReadBits(SampleConfig, SampleStart, 16) == Read(0x3412, SampleAfterFirst)
    ensures ReadDefined(SampleConfig, SampleAfterFirst, 16) && !InBounds(SampleAfterFirst, 16)
  {
    SampleStatesValid();
    SampleReadsChecked();
    ReadBitsCheckedAgrees(SampleConfig, SampleStart, 16);
  }

  /** The corrected reader returns both blocks of the sample and then reports the stream empty. */
  lemma SampleReadsChecked()
    ensures CheckedReadDefined(SampleConfig, SampleStart, 16)
    ensures ReadBitsChecked(SampleConfig, SampleStart, 16) == Read(0x3412, SampleAfterFirst)
    ensures CheckedReadDefined(SampleConfig, SampleAfterFirst, 16)
    ensures ReadBitsChecked(SampleConfig, SampleAfterFirst, 16) == Read(0x7856, SampleAfterSecond)
    ensures CheckedReadDefined(SampleConfig, SampleAfterSecond, 16)
    ensures ReadBitsChecked(SampleConfig, SampleAfterSecond, 16).Empty?
  {
    SampleFits();
    SampleSwaps();
    assert SampleStart == BlockStart(SampleConfig, SampleData, 0);
    assert SampleAfterFirst == BlockStart(SampleConfig, SampleData, 1);
    assert SampleAfterSecond == BlockStart(SampleConfig, SampleData, 2);
    BlockStartRead(SampleConfig, SampleData, 0);
    BlockStartRead(SampleConfig, SampleData, 1);
    BlockStartDefined(SampleConfig, SampleData, 2);
  }

  /**
   * For blocks as wide as the promoted type (`uint32_t`, `uint64_t`), a read
   * that ends exactly at the end of the current block shifts the freshly
   * loaded block right by its full width, which C++ leaves undefined; the
   * corrected reader performs no such shift.
   */
  lemma BoundaryShiftUndefinedForWideBlocks(cfg: Config, s: Stream, n: nat)
    requires ValidConfig(cfg) && cfg.blockBits >= 32
    requires s.remaining == n && n <= cfg.blockBits
    ensures !ShiftsDefined(cfg, s, n)
    ensures CheckedShiftsDefined(cfg, s, n)
  {
  }

  /** A 32-bit stream read a byte at a time: the fourth read is undefined as written. */
  const WideConfig := Config(32, 32, NoByteSwap, BitMasking)
  const WideAfterThreeBytes := Stream([0xAABBCCDD, 0x11223344], 0, 0xAABBCCDD, 8)

  lemma WideFacts()
    ensures Pow2(8) == 256 && Pow2(32) == 0x1_0000_0000
    ensures Valid(WideConfig, WideAfterThreeBytes)
    ensures ToResult(WideConfig, 0xAABBCCDD) == 0xAABBCCDD
  {
    assert Pow2(8) == 256;
    Pow2Add(8, 8);
    Pow2Add(16, 16);
    assert Pow2(32) == 0x1_0000_0000;
    ModSmall(0xAABBCCDD, Pow2(32));
  }

  lemma WideFourthByte()
    ensures Consumed(WideConfig, WideAfterThreeBytes) == 24
    ensures !ReadDefined(WideConfig, WideAfterThreeBytes, 8)
    ensures CheckedReadDefined(WideConfig, WideAfterThreeBytes, 8)
    ensures ReadBitsChecked(WideConfig, WideAfterThreeBytes, 8)
         == Read(0xDD, Stream([0xAABBCCDD, 0x11223344], 1, 0x11223344, 32))
  {
    WideFacts();
    assert CheckedReadDefined(WideConfig, WideAfterThreeBytes, 8);
    var v := CheckedAcrossValue(WideConfig, 0xAABBCCDD, 0x11223344, 0);
    assert v == 0xAABBCCDD;
    assert ApplyMask(WideConfig, v, 8) == 0xDD;
    var src := WideAfterThreeBytes.source;
    assert NextBlock(WideConfig, src, 0, 0) == Stream(src, 1, 0x11223344, 32);
    assert ReadBitsChecked(WideConfig, WideAfterThreeBytes, 8)
        == Read(ApplyMask(WideConfig, v, 8), NextBlock(WideConfig, src, 0, 0));
  }

  /** A read of a whole block from a block boundary returns that block, swapped, and moves to the next block. */
  lemma {:induction false} WholeBlockRead(cfg: Config, s: Stream)
    requires CheckedReadDefined(cfg, s, cfg.blockBits)
    requires s.block < |s.source| && s.remaining == cfg.blockBits
    ensures ReadBitsChecked(cfg, s, cfg.blockBits)
         == Read(SwapBlock(cfg, s.source[s.block]), NextBlock(cfg, s.source, s.block, 0))
  {
    var cur := s.current;
    var bpb := cfg.blockBits;
    assert cur < Pow2(bpb) by {
      SwapBlockInvolution(cfg, s.source[s.block]);
    }
    assert ToResult(cfg, cur) == cur by {
      Pow2Monotone(bpb, cfg.resultBits);
      ModSmall(cur, Pow2(cfg.resultBits));
    }
    assert ApplyMask(cfg, cur, bpb) == cur by {
      ModSmall(cur, Pow2(bpb));
    }
    var next := NextBlock(cfg, s.source, s.block, 0);
    assert CheckedAcrossValue(cfg, cur, next.current, 0) == cur;
  }

  /** The reader state at the start of block b: nothing of it read yet. */
  function BlockStart(cfg: Config, source: seq<nat>, b: nat): Stream
    requires b <= |source|
  {
    if b < |source| then Stream(source, b, SwapBlock(cfg, source[b]), cfg.blockBits)
    else Stream(source, b, 0, cfg.blockBits)
  }

  /** Whole-block reads are defined at every block start when a block fits the result and the mask. */
  lemma {:induction false} BlockStartDefined(cfg: Config, source: seq<nat>, b: nat)
    requires ValidConfig(cfg) && BlocksFit(cfg, source) && b <= |source|
    requires cfg.blockBits <= cfg.resultBits && MaskDefined(cfg, cfg.blockBits)
    ensures CheckedReadDefined(cfg, BlockStart(cfg, source, b), cfg.blockBits)
  {
  }

  /** After a whole-block read the reader stands at the start of the next block. */
  lemma {:induction false} NextBlockStart(cfg: Config, source: seq<nat>, b: nat)
    requires b < |source|
    ensures NextBlock(cfg, source, b, 0) == BlockStart(cfg, source, b + 1)
  {
  }

  /** Reading a whole block at block b returns the swapped block and moves to the start of block b + 1. */
  lemma {:induction false} BlockStartRead(cfg: Config, source: seq<nat>, b: nat)
    requires ValidConfig(cfg) && BlocksFit(cfg, source) && b < |source|
    requires cfg.blockBits <= cfg.resultBits && MaskDefined(cfg, cfg.blockBits)
    ensures CheckedReadDefined(cfg, BlockStart(cfg, source, b), cfg.blockBits)
    ensures ReadBitsChecked(cfg, BlockStart(cfg, source, b), cfg.blockBits)
         == Read(SwapBlock(cfg, source[b]), BlockStart(cfg, source, b + 1))
  {
    var s := BlockStart(cfg, source, b);
    assert s.source == source && s.block == b && s.remaining == cfg.blockBits;
    BlockStartDefined(cfg, source, b);
    WholeBlockRead(cfg, s);
    NextBlockStart(cfg, source, b);
  }

  /** Appending the next swapped block keeps a prefix of swapped blocks. */
  lemma {:induction false} AppendSwapped(cfg: Config, source: seq<nat>, values: seq<nat>, block: nat)
    requires ValidConfig(cfg) && |values| < |source|
    requires forall i :: 0 <= i < |values| ==> values[i] == SwapBlock(cfg, source[i])
    requires block == SwapBlock(cfg, source[|values|])
    ensures forall i :: 0 <= i < |values| + 1 ==> (values + [block])[i] == SwapBlock(cfg, source[i])
  {
    var extended := values + [block];
    forall i | 0 <= i < |extended|
      ensures extended[i] == SwapBlock(cfg, source[i])
    {
      if i < |values| {
        assert extended[i] == values[i];
      }
    }
  }

  /**
   * The sample program's loop: read one block's worth of bits until the
   * reader reports the stream empty. With the corrected reader it yields every
   * block, swapped, in order.
   */
  method ReadAllBlocks(cfg: Config, source: seq<nat>) returns (values: seq<nat>)
    requires ValidConfig(cfg) && BlocksFit(cfg, source) && |source| >= 1
    requires cfg.blockBits <= cfg.resultBits && MaskDefined(cfg, cfg.blockBits)
    ensures |values| == |source|
    ensures forall i :: 0 <= i < |source| ==> values[i] == SwapBlock(cfg, source[i])
  {
    var s := Open(cfg, source);
    assert s == BlockStart(cfg, source, 0);
    BlockStartDefined(cfg, source, 0);
    values := [];
    var r := ReadBitsChecked(cfg, s, cfg.blockBits);
    while r.Read?
      invariant |values| <= |source| && s == BlockStart(cfg, source, |values|)
      invariant forall i :: 0 <= i < |values| ==> values[i] == SwapBlock(cfg, source[i])
      invariant CheckedReadDefined(cfg, s, cfg.blockBits) && r == ReadBitsChecked(cfg, s, cfg.blockBits)
      decreases |source| - |values|
    {
      BlockStartRead(cfg, source, |values|);
      var block := SwapBlock(cfg, source[|values|]);
      assert r == Read(block, BlockStart(cfg, source, |values| + 1));
      AppendSwapped(cfg, source, values, block);
      values := values + [block];
      s := r.next;
      BlockStartDefined(cfg, source, |values|);
      r := ReadBitsChecked(cfg, s, cfg.blockBits);
    }
  }
}
