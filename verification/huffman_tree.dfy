/**
 * The shapes shared by the rzlib Huffman encoder and decoder: the code tree
 * they describe, and the flat node table (`huffman_node`) both sides index.
 */
module HuffmanTree {

  datatype Option<T> = None | Some(value: T)

  /** A code tree: a symbol at a tip, or a fork whose `zero` and `one` sides follow a 0 or a 1 bit. */
  datatype Tree<D> = Tip(data: D) | Fork(zero: Tree<D>, one: Tree<D>)

  /**
   * One entry of the node table. The C++ entry is a union of two child
   * references and the symbol data; the model records which member an entry
   * was written through, and the decoder's `UnionReads` says what reading the
   * other member gives.
   * A child reference that is negative names a leaf by its negated index,
   * a positive one an inner entry.
   */
  datatype TableNode<D> = Branch(zero: int, one: int) | Leaf(data: D)

  /** The symbols at the tips of a tree, with repetition. */
  function Leaves<D(==)>(t: Tree<D>): (r: multiset<D>)
    ensures |r| >= 1
  {
    match t
    case Tip(d) => multiset{d}
    case Fork(z, o) => Leaves(z) + Leaves(o)
  }

  /** Number of entries a tree occupies in a node table: every tip and every fork. */
  function Size<D>(t: Tree<D>): (r: nat)
    ensures r >= 1
  {
    match t
    case Tip(_) => 1
    case Fork(z, o) => 1 + Size(z) + Size(o)
  }

  /** A tree with k tips has k - 1 forks, so it takes 2k - 1 entries. */
  lemma {:induction false} SizeOfLeaves<D>(t: Tree<D>)
    ensures Size(t) == 2 * |Leaves(t)| - 1
  {
    match t
    case Tip(_) =>
    case Fork(z, o) =>
      SizeOfLeaves(z);
      SizeOfLeaves(o);
  }

  /** The symbol reached by following a bit path from the root, if the path ends exactly at a tip. */
  function Lookup<D>(t: Tree<D>, path: seq<nat>): Option<D>
    decreases |path|
  {
    match t
    case Tip(d) => if |path| == 0 then Some(d) else None
    case Fork(z, o) =>
      if |path| == 0 then None
      else if path[0] == 0 then Lookup(z, path[1..])
      else if path[0] == 1 then Lookup(o, path[1..])
      else None
  }

  /** The code of a symbol: the bit path to its leftmost tip. */
  function CodeOf<D(==)>(t: Tree<D>, d: D): (path: seq<nat>)
    requires d in Leaves(t)
    ensures Lookup(t, path) == Some(d)
  {
    match t
    case Tip(_) => []
    case Fork(z, o) =>
      if d in Leaves(z) then
        var p := CodeOf(z, d);
        assert ([0] + p)[1..] == p;
        [0] + p
      else
        var p := CodeOf(o, d);
        assert ([1] + p)[1..] == p;
        [1] + p
  }

  /** A path only ever names symbols that sit at some tip of the tree. */
  lemma {:induction false} LookupFindsLeaf<D>(t: Tree<D>, path: seq<nat>)
    requires Lookup(t, path).Some?
    ensures Lookup(t, path).value in Leaves(t)
    decreases |path|
  {
    match t
    case Tip(_) =>
    case Fork(z, o) =>
      if path[0] == 0 {
        LookupFindsLeaf(z, path[1..]);
      } else {
        LookupFindsLeaf(o, path[1..]);
      }
  }

  /** Codes are prefix free: a path that reaches a tip has no proper extension that reaches one. */
  lemma {:induction false} CodesPrefixFree<D>(t: Tree<D>, path: seq<nat>, more: seq<nat>)
    requires Lookup(t, path).Some? && |more| > 0
    ensures Lookup(t, path + more).None?
    decreases |path|
  {
    match t
    case Tip(_) =>
    case Fork(z, o) =>
      assert (path + more)[0] == path[0];
      assert (path + more)[1..] == path[1..] + more;
      if path[0] == 0 {
        CodesPrefixFree(z, path[1..], more);
      } else {
        CodesPrefixFree(o, path[1..], more);
      }
  }
}
