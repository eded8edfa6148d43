/**
 * The rzlib Huffman decoder (`huffman_decoder::decode_next`) and the node
 * table layout it expects, next to the layout the encoder writes.
 *
 * The decoder starts at entry 0 and follows one child per bit until it meets
 * a negative reference, which names a leaf by its negated index; a reference
 * of 0 means "no child". The stream is modelled by the values its one-bit
 * reads return, in order; running out of values is a failed read.
 */
module HuffmanDecoder {
  import opened HuffmanTree
  import opened HuffmanEncoder

  /** The outcome of one `decode_next` call. */
  datatype DecodeResult<D> =
    | Decoded(data: D, rest: seq<nat>)  // a symbol, and the bits left in the stream
    | EmptyTable                        // the table has no entries
    | StreamEnded                       // a one-bit read failed
    | MissingChild                      // the walk met a child reference of 0
    | Undefined                         // the walk read outside the table, or `child[bits]` with bits > 1

  /**
   * How each member of the `huffman_node` union reads through the other.
   * `store_node` writes a leaf as `{ n.data }`, which initialises the union's
   * first member: `child[0]` is the symbol converted to `int32_t` and
   * `child[1]` is 0. Reading `data` from an entry written as a branch
   * reinterprets its `child[0]`. Both conversions depend on `TData`.
   */
  datatype UnionReads<!D> = UnionReads(childOfData: D -> int, dataOfChild: int -> D)

  /** `child[bit]` of an entry, for bit 0 or 1. */
  function ChildOf<D>(u: UnionReads<D>, e: TableNode<D>, bit: nat): int
  {
    match e
    case Branch(z, o) => if bit == 0 then z else o
    case Leaf(d) => if bit == 0 then u.childOfData(d) else 0
  }

  /** `data` of an entry. */
  function DataOf<D>(u: UnionReads<D>, e: TableNode<D>): D
  {
    match e
    case Leaf(d) => d
    case Branch(z, _) => u.dataOfChild(z)
  }

  /** A bit sequence that ends with `rest`, which is strictly shorter. */
  predicate ProperSuffix(rest: seq<nat>, bits: seq<nat>)
  {
    |rest| < |bits| && rest == bits[|bits| - |rest|..]
  }

  /** A bit sequence that ends with `rest`. */
  predicate Suffix(rest: seq<nat>, bits: seq<nat>)
  {
    |rest| <= |bits| && rest == bits[|bits| - |rest|..]
  }

  /** The `do ... while (node > 0)` loop, starting at entry `node`: read a bit and take that child. */
  function Walk<D>(u: UnionReads<D>, nodes: seq<TableNode<D>>, node: int, bits: seq<nat>): (r: DecodeResult<D>)
    ensures r.Decoded? ==> ProperSuffix(r.rest, bits)
    ensures r.Decoded? ==> exists k :: 0 < k < |nodes| && r.data == DataOf(u, nodes[k])
    ensures r != EmptyTable
    decreases |bits|, 0
  {
    if |bits| == 0 then StreamEnded
    else if !(0 <= node < |nodes|) || bits[0] > 1 then Undefined
    else
      var r := Follow(u, nodes, ChildOf(u, nodes[node], bits[0]), bits[1..]);
      assert r.Decoded? ==> r.rest == bits[1..][|bits| - 1 - |r.rest|..];
      r
  }

  /**
   * The rest of the loop once `node` holds the child just read: 0 is no
   * child, a positive reference goes round again, and a negative one ends the
   * loop with the `data` of the entry it names.
   */
  function Follow<D>(u: UnionReads<D>, nodes: seq<TableNode<D>>, next: int, rest: seq<nat>): (r: DecodeResult<D>)
    ensures r.Decoded? ==> Suffix(r.rest, rest)
    ensures r.Decoded? ==> exists k :: 0 < k < |nodes| && r.data == DataOf(u, nodes[k])
    ensures r != EmptyTable
    decreases |rest|, 1
  {
    if next == 0 then MissingChild
    else if next > 0 then Walk(u, nodes, next, rest)
    else if -next < |nodes| then Decoded(DataOf(u, nodes[-next]), rest)
    else Undefined
  }

  /** `decode_next`: an empty table fails at once, any other is walked from entry 0. */
  function DecodeNext<D>(u: UnionReads<D>, nodes: seq<TableNode<D>>, bits: seq<nat>): (r: DecodeResult<D>)
    ensures r == EmptyTable <==> |nodes| == 0
    ensures r.Decoded? ==> ProperSuffix(r.rest, bits)
    ensures r.Decoded? ==> exists k :: 0 < k < |nodes| && r.data == DataOf(u, nodes[k])
  {
    if |nodes| == 0 then EmptyTable else Walk(u, nodes, 0, bits)
  }

  // ---------------------------------------------------------------------------
  // The layout the encoder writes does not decode
  // ---------------------------------------------------------------------------

  /**
   * Entry 0 of the encoder's post-order table is the first symbol it stored,
   * not the root. The decoder reads that symbol's child pair: a first bit 1
   * meets `child[1] == 0`, no child, and a first bit 0 takes the symbol's own
   * value as a child reference.
   */
  lemma {:induction false} EncodedTableStartsAtSymbol<D>(u: UnionReads<D>, symbols: seq<Symbol<D>>, rest: seq<nat>)
    requires |symbols| >= 2
    ensures var table := Encode(symbols);
      && table[0].Leaf?
      && DecodeNext(u, table, [1] + rest) == MissingChild
      && DecodeNext(u, table, [0] + rest) == Follow(u, table, u.childOfData(table[0].data), rest)
  {
    EncodeLayout(symbols);
    WalkFromLeaf(u, Encode(symbols), rest);
  }

  /** A walk from a leaf entry 0 reads the leaf's child pair: its data converted, then 0. */
  lemma {:induction false} WalkFromLeaf<D>(u: UnionReads<D>, nodes: seq<TableNode<D>>, rest: seq<nat>)
    requires |nodes| > 0 && nodes[0].Leaf?
    ensures DecodeNext(u, nodes, [1] + rest) == MissingChild
    ensures DecodeNext(u, nodes, [0] + rest) == Follow(u, nodes, u.childOfData(nodes[0].data), rest)
  {
    assert ([1] + rest)[0] == 1 && ([1] + rest)[1..] == rest;
    assert ChildOf(u, nodes[0], 1) == 0;
    assert Follow(u, nodes, 0, rest) == MissingChild;
    assert ([0] + rest)[0] == 0 && ([0] + rest)[1..] == rest;
  }

  /**
   * Two `int` symbols, -1 with frequency 1 and 5 with frequency 2, for which
   * both union readings are the identity. The code of -1 is 0 and that of 5
   * is 1, yet the encoder's table decodes the bit 0 to 5 and fails on the
   * bit 1.
   */
  lemma EncodedTableMisdecodes()
    ensures var symbols := [Symbol(-1, 1), Symbol(5, 2)];
      var u := UnionReads(x => x, x => x);
      && CodeOf(CodeTree(symbols), -1) == [0]
      && CodeOf(CodeTree(symbols), 5) == [1]
      && DecodeNext(u, Encode(symbols), [0]) == Decoded(5, [])
      && DecodeNext(u, Encode(symbols), [1]) == MissingChild
  {
    TwoSymbolsEncoded();
    var table := [Leaf(-1), Leaf(5), Branch(0, -1)];
    var u := UnionReads(x => x, x => x);
    assert Follow(u, table, -1, []) == Decoded(5, []);
    WalkFromLeaf(u, table, []);
  }

  /** The merge loop on the two symbols above: one parent over -1 (the 0 side) and 5. */
  lemma TwoSymbolsMerged()
    ensures MergeAll(Start([Symbol(-1, 1), Symbol(5, 2)]))
         == EncoderState([NodeItem(3, 2)], [BuiltLeaf(1, -1), BuiltLeaf(2, 5), BuiltInner(3, 0, 1)])
  {
    var symbols := [Symbol(-1, 1), Symbol(5, 2)];
    var items := [LeafItem(1, -1), LeafItem(2, 5)];
    assert SymbolItems(symbols) == items;
    assert SortByFrequency(items) == items by {
      assert SortByFrequency(items[1..]) == [LeafItem(2, 5)];
    }
    assert MergeStep(Start(symbols)) == EncoderState([NodeItem(3, 2)], [BuiltLeaf(1, -1), BuiltLeaf(2, 5), BuiltInner(3, 0, 1)]);
  }

  /** The code tree and the post-order table the encoder writes for the two symbols above. */
  lemma TwoSymbolsEncoded()
    ensures CodeTree([Symbol(-1, 1), Symbol(5, 2)]) == Fork(Tip(-1), Tip(5))
    ensures Encode([Symbol(-1, 1), Symbol(5, 2)]) == [Leaf(-1), Leaf(5), Branch(0, -1)]
  {
    TwoSymbolsMerged();
    var built := [BuiltLeaf(1, -1), BuiltLeaf(2, 5), BuiltInner(3, 0, 1)];
    assert StoreNode(built, 0, []) == Stored([Leaf(-1)], 0);
    assert StoreNode(built, 1, [Leaf(-1)]) == Stored([Leaf(-1), Leaf(5)], -1);
  }

  /**
   * Even a walk started at the right branch cannot reach the symbol at entry
   * 0: the branch above it names it by 0, which the decoder reads as no child.
   */
  lemma {:induction false} EncodedZeroChild<D>(u: UnionReads<D>, symbols: seq<Symbol<D>>)
    requires |symbols| >= 2
    ensures var table := Encode(symbols);
      exists k :: 0 <= k < |table| && table[k].Branch? && Walk(u, table, k, [0]) == MissingChild
  {
    EncodeLayout(symbols);
    var table := Encode(symbols);
    var k :| 0 <= k < |table| && table[k].Branch? && table[k].zero == 0;
    assert Walk(u, table, k, [0]) == MissingChild;
  }

  // ---------------------------------------------------------------------------
  // The layout the decoder expects: pre-order, root at entry 0
  // ---------------------------------------------------------------------------

  /** The reference to a subtree laid out at `at`: a leaf is named by its negated index. */
  function ChildRef<D(==)>(t: Tree<D>, at: int): int
  {
    if t.Tip? then -at else at
  }

  /** A tree laid out in pre-order from entry `base`: the node, then its zero side, then its one side. */
  function PreOrder<D(==)>(t: Tree<D>, base: int): (table: seq<TableNode<D>>)
    ensures |table| == Size(t)
  {
    match t
    case Tip(d) => [Leaf(d)]
    case Fork(z, o) =>
      [Branch(ChildRef(z, base + 1), ChildRef(o, base + 1 + Size(z)))]
        + PreOrder(z, base + 1) + PreOrder(o, base + 1 + Size(z))
  }

  /**
   * The table holds tree t in pre-order from entry `at`: the node's entry,
   * then its zero side from `at + 1`, then its one side right after that.
   */
  predicate Laid<D(==)>(nodes: seq<TableNode<D>>, t: Tree<D>, at: int)
  {
    0 <= at < |nodes| &&
    match t
    case Tip(d) => nodes[at] == Leaf(d)
    case Fork(z, o) =>
      && nodes[at] == Branch(ChildRef(z, at + 1), ChildRef(o, at + 1 + Size(z)))
      && Laid(nodes, z, at + 1)
      && Laid(nodes, o, at + 1 + Size(z))
  }

  /** A table whose entries from `at` on are the pre-order layout of t holds t there. */
  lemma {:induction false} PreOrderLaid<D>(nodes: seq<TableNode<D>>, t: Tree<D>, at: int)
    requires 0 <= at && at + Size(t) <= |nodes|
    requires forall k :: 0 <= k < Size(t) ==> nodes[at + k] == PreOrder(t, at)[k]
    ensures Laid(nodes, t, at)
  {
    LayoutLaid(nodes, t, at, PreOrder(t, at));
  }

  /** PreOrderLaid with the layout named: `whole` is the pre-order layout of t from `at`. */
  lemma {:induction false} LayoutLaid<D>(nodes: seq<TableNode<D>>, t: Tree<D>, at: int, whole: seq<TableNode<D>>)
    requires 0 <= at && at + |whole| <= |nodes| && whole == PreOrder(t, at)
    requires forall k :: 0 <= k < |whole| ==> nodes[at + k] == whole[k]
    ensures Laid(nodes, t, at)
    decreases t
  {
    assert nodes[at + 0] == whole[0];
    match t
    case Tip(_) =>
    case Fork(z, o) =>
      var mid := at + 1 + Size(z);
      var zs := PreOrder(z, at + 1);
      var os := PreOrder(o, mid);
      PreOrderFork(z, o, at, whole, zs, os);
      PartAgrees(nodes, whole, at, zs, 1, at + 1);
      LayoutLaid(nodes, z, at + 1, zs);
      PartAgrees(nodes, whole, at, os, 1 + Size(z), mid);
      LayoutLaid(nodes, o, mid, os);
      LaidFork(nodes, z, o, at);
  }

  /** The pre-order layout of a fork: its entry, then the zero side, then the one side, each part agreeing entry by entry. */
  lemma {:induction false} PreOrderFork<D>(z: Tree<D>, o: Tree<D>, at: int, whole: seq<TableNode<D>>, zs: seq<TableNode<D>>, os: seq<TableNode<D>>)
    requires whole == PreOrder(Fork(z, o), at) && zs == PreOrder(z, at + 1) && os == PreOrder(o, at + 1 + Size(z))
    ensures |whole| == 1 + |zs| + |os|
    ensures whole[0] == Branch(ChildRef(z, at + 1), ChildRef(o, at + 1 + Size(z)))
    ensures forall k :: 0 <= k < |zs| ==> whole[1 + k] == zs[k]
    ensures forall k :: 0 <= k < |os| ==> whole[1 + Size(z) + k] == os[k]
  {
    assert whole == [Branch(ChildRef(z, at + 1), ChildRef(o, at + 1 + Size(z)))] + zs + os;
  }

  /** A fork is laid out at `at` once its entry is there and both sides are laid out after it. */
  lemma {:induction false} LaidFork<D>(nodes: seq<TableNode<D>>, z: Tree<D>, o: Tree<D>, at: int)
    requires 0 <= at < |nodes|
    requires nodes[at] == Branch(ChildRef(z, at + 1), ChildRef(o, at + 1 + Size(z)))
    requires Laid(nodes, z, at + 1) && Laid(nodes, o, at + 1 + Size(z))
    ensures Laid(nodes, Fork(z, o), at)
  {
  }

  /** Where a table agrees with a sequence, it agrees with every part of that sequence. */
  lemma {:induction false} PartAgrees<T>(nodes: seq<T>, whole: seq<T>, at: int, part: seq<T>, off: nat, start: int)
    requires 0 <= at && at + |whole| <= |nodes| && start == at + off
    requires forall k :: 0 <= k < |whole| ==> nodes[at + k] == whole[k]
    requires off + |part| <= |whole| && forall k :: 0 <= k < |part| ==> whole[off + k] == part[k]
    ensures forall k :: 0 <= k < |part| ==> nodes[start + k] == part[k]
  {
    forall k | 0 <= k < |part|
      ensures nodes[start + k] == part[k]
    {
      assert nodes[at + (off + k)] == whole[off + k];
    }
  }

  /** One step of the walk from a laid-out fork along bit `bit` to side `side`. */
  lemma {:induction false} WalkStep<D>(u: UnionReads<D>, nodes: seq<TableNode<D>>, z: Tree<D>, o: Tree<D>, at: int, bits: seq<nat>)
    requires Laid(nodes, Fork(z, o), at) && |bits| > 0 && bits[0] <= 1
    ensures var side := if bits[0] == 0 then z else o;
      var sideAt := if bits[0] == 0 then at + 1 else at + 1 + Size(z);
      && Laid(nodes, side, sideAt) && 0 < sideAt
      && Walk(u, nodes, at, bits)
         == (if side.Fork? then Walk(u, nodes, sideAt, bits[1..]) else Decoded(side.data, bits[1..]))
  {
  }

  /** Decoding a code from a laid-out fork yields its symbol and leaves the bits after it. */
  lemma {:induction false} WalkFindsCode<D>(u: UnionReads<D>, nodes: seq<TableNode<D>>, t: Tree<D>, at: int, path: seq<nat>, rest: seq<nat>)
    requires t.Fork? && Laid(nodes, t, at) && Lookup(t, path).Some?
    ensures Walk(u, nodes, at, path + rest) == Decoded(Lookup(t, path).value, rest)
    decreases |path|
  {
    var bits := path + rest;
    assert bits[0] == path[0] && bits[1..] == path[1..] + rest;
    WalkStep(u, nodes, t.zero, t.one, at, bits);
    var side := if path[0] == 0 then t.zero else t.one;
    var sideAt := if path[0] == 0 then at + 1 else at + 1 + Size(t.zero);
    if side.Fork? {
      WalkFindsCode(u, nodes, side, sideAt, path[1..], rest);
    } else {
      assert path[1..] == [];
    }
  }

  /** A symbol decoded from a laid-out fork is the one the consumed bits lead to. */
  lemma {:induction false} WalkReadsCode<D>(u: UnionReads<D>, nodes: seq<TableNode<D>>, t: Tree<D>, at: int, bits: seq<nat>)
    requires t.Fork? && Laid(nodes, t, at) && Walk(u, nodes, at, bits).Decoded?
    ensures var r := Walk(u, nodes, at, bits);
      Lookup(t, bits[..|bits| - |r.rest|]) == Some(r.data)
    decreases |bits|
  {
    var r := Walk(u, nodes, at, bits);
    var used := bits[..|bits| - |r.rest|];
    WalkStep(u, nodes, t.zero, t.one, at, bits);
    var side := if bits[0] == 0 then t.zero else t.one;
    var sideAt := if bits[0] == 0 then at + 1 else at + 1 + Size(t.zero);
    assert used[0] == bits[0];
    if side.Fork? {
      WalkReadsCode(u, nodes, side, sideAt, bits[1..]);
      assert used[1..] == bits[1..][..|bits| - 1 - |r.rest|];
    } else {
      assert used[1..] == [];
    }
  }

  /** From a laid-out fork, a stream of 0 and 1 bits only ever decodes a symbol or runs out. */
  lemma {:induction false} WalkNeverMisses<D>(u: UnionReads<D>, nodes: seq<TableNode<D>>, t: Tree<D>, at: int, bits: seq<nat>)
    requires t.Fork? && Laid(nodes, t, at)
    requires forall i :: 0 <= i < |bits| ==> bits[i] <= 1
    ensures Walk(u, nodes, at, bits).Decoded? || Walk(u, nodes, at, bits) == StreamEnded
    decreases |bits|
  {
    if |bits| > 0 {
      WalkStep(u, nodes, t.zero, t.one, at, bits);
      var side := if bits[0] == 0 then t.zero else t.one;
      var sideAt := if bits[0] == 0 then at + 1 else at + 1 + Size(t.zero);
      if side.Fork? {
        assert forall i :: 0 <= i < |bits[1..]| ==> bits[1..][i] == bits[i + 1];
        WalkNeverMisses(u, nodes, side, sideAt, bits[1..]);
      }
    }
  }

  /** The corrected encoder: the same code tree, laid out in pre-order with the root at entry 0. */
  function EncodePreOrder<D(==)>(symbols: seq<Symbol<D>>): (table: seq<TableNode<D>>)
    requires |symbols| >= 2
    ensures |table| == 2 * |symbols| - 1
    ensures table[0].Branch?
  {
    var t := CodeTree(symbols);
    SizeOfLeaves(t);
    SymbolDataSize(symbols);
    PreOrder(t, 0)
  }

  /** The corrected table is the code tree laid out from entry 0. */
  lemma {:induction false} EncodePreOrderLaid<D>(symbols: seq<Symbol<D>>)
    requires |symbols| >= 2
    ensures Laid(EncodePreOrder(symbols), CodeTree(symbols), 0)
  {
    PreOrderLaid(EncodePreOrder(symbols), CodeTree(symbols), 0);
  }

  /** Every symbol's code decodes back to that symbol from the corrected table, and the rest of the stream is untouched. */
  lemma {:induction false} EncodePreOrderRoundTrip<D>(u: UnionReads<D>, symbols: seq<Symbol<D>>, d: D, rest: seq<nat>)
    requires |symbols| >= 2 && d in SymbolData(symbols)
    ensures DecodeNext(u, EncodePreOrder(symbols), CodeOf(CodeTree(symbols), d) + rest) == Decoded(d, rest)
  {
    EncodePreOrderLaid(symbols);
    var t := CodeTree(symbols);
    WalkFindsCode(u, EncodePreOrder(symbols), t, 0, CodeOf(t, d), rest);
  }

  /**
   * Whatever the corrected table decodes is one of the symbols, reached by
   * exactly the bits the call consumed.
   */
  lemma {:induction false} EncodePreOrderSound<D>(u: UnionReads<D>, symbols: seq<Symbol<D>>, bits: seq<nat>)
    requires |symbols| >= 2 && DecodeNext(u, EncodePreOrder(symbols), bits).Decoded?
    ensures var r := DecodeNext(u, EncodePreOrder(symbols), bits);
      var used := bits[..|bits| - |r.rest|];
      && bits == used + r.rest
      && Lookup(CodeTree(symbols), used) == Some(r.data)
      && r.data in SymbolData(symbols)
  {
    EncodePreOrderLaid(symbols);
    var t := CodeTree(symbols);
    var r := DecodeNext(u, EncodePreOrder(symbols), bits);
    WalkReadsCode(u, EncodePreOrder(symbols), t, 0, bits);
    LookupFindsLeaf(t, bits[..|bits| - |r.rest|]);
  }

  /** On a stream of 0 and 1 bits the corrected table never meets a missing child or an undefined read. */
  lemma {:induction false} EncodePreOrderTotal<D>(u: UnionReads<D>, symbols: seq<Symbol<D>>, bits: seq<nat>)
    requires |symbols| >= 2
    requires forall i :: 0 <= i < |bits| ==> bits[i] <= 1
    ensures DecodeNext(u, EncodePreOrder(symbols), bits).Decoded? || DecodeNext(u, EncodePreOrder(symbols), bits) == StreamEnded
  {
    EncodePreOrderLaid(symbols);
    WalkNeverMisses(u, EncodePreOrder(symbols), CodeTree(symbols), 0, bits);
  }
}
