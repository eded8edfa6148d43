/**
 * `huffman_encoder::encode` and `store_node` (rzlib_huffman.h): the symbols are
 * sorted by frequency into a work list, the two lowest entries are merged until
 * one is left, and the resulting tree is flattened into the node table in
 * post-order.
 */
module HuffmanEncoder {
  import opened HuffmanTree

  /** `huffman_symbol`: a symbol and its frequency (a C++ `int`). */
  datatype Symbol<D> = Symbol(data: D, frequency: int)

  /**
   * An entry of the work list (`node` in the source): a symbol that has not been
   * stored in the scratch vector yet, or a merged node already stored at `index`.
   */
  datatype WorkItem<D> = LeafItem(frequency: int, data: D) | NodeItem(frequency: int, index: nat)

  /** An entry of the scratch vector `the_nodes`: a stored symbol, or a merged node and its two children. */
  datatype Built<D> = BuiltLeaf(frequency: int, data: D) | BuiltInner(frequency: int, left: nat, right: nat)

  /** The work list together with the scratch vector, between two merges. */
  datatype EncoderState<D> = EncoderState(list: seq<WorkItem<D>>, built: seq<Built<D>>)

  // ---------------------------------------------------------------------------
  // The sorted work list
  // ---------------------------------------------------------------------------

  /** The work list order: by frequency, as the `less_than` lambda compares. */
  predicate SortedByFrequency<D>(l: seq<WorkItem<D>>)
  {
    forall i, j :: 0 <= i < j < |l| ==> l[i].frequency <= l[j].frequency
  }

  /** `std::lower_bound` with `less_than`: the first position whose frequency is not below f. */
  function LowerBound<D>(l: seq<WorkItem<D>>, f: int): (i: nat)
    ensures i <= |l|
  {
    if |l| == 0 || l[0].frequency >= f then 0 else 1 + LowerBound(l[1..], f)
  }

  /** In a sorted list the lower bound splits the entries below f from the rest. */
  lemma {:induction false} LowerBoundSplits<D>(l: seq<WorkItem<D>>, f: int)
    requires SortedByFrequency(l)
    ensures forall j :: 0 <= j < LowerBound(l, f) ==> l[j].frequency < f
    ensures forall j :: LowerBound(l, f) <= j < |l| ==> f <= l[j].frequency
    decreases |l|
  {
    if |l| > 0 && l[0].frequency < f {
      var t := l[1..];
      LowerBoundSplits(t, f);
      forall j | 0 <= j < LowerBound(l, f)
        ensures l[j].frequency < f
      {
        if j > 0 {
          assert l[j] == t[j - 1];
        }
      }
      forall j | LowerBound(l, f) <= j < |l|
        ensures f <= l[j].frequency
      {
        assert l[j] == t[j - 1];
      }
    }
  }

  /** `list.emplace(lower_bound(...), x)`: x goes in front of the entries of equal or higher frequency. */
  function InsertSorted<D>(l: seq<WorkItem<D>>, x: WorkItem<D>): (r: seq<WorkItem<D>>)
    ensures |r| == |l| + 1
  {
    var i := LowerBound(l, x.frequency);
    l[..i] + [x] + l[i..]
  }

  /** Where each entry of an insertion comes from. */
  lemma {:induction false} InsertSortedAt<D>(l: seq<WorkItem<D>>, x: WorkItem<D>, j: nat)
    requires j < |l| + 1
    ensures var i := LowerBound(l, x.frequency);
      InsertSorted(l, x)[j] == if j < i then l[j] else if j == i then x else l[j - 1]
  {
  }

  /** Inserting puts x in front of every entry of equal or higher frequency and behind the rest. */
  lemma {:induction false} InsertSortedPlaces<D>(l: seq<WorkItem<D>>, x: WorkItem<D>)
    requires SortedByFrequency(l)
    ensures var i := LowerBound(l, x.frequency);
      && InsertSorted(l, x)[i] == x
      && (forall j :: 0 <= j < i ==> InsertSorted(l, x)[j].frequency < x.frequency)
      && (forall j :: i < j < |l| + 1 ==> x.frequency <= InsertSorted(l, x)[j].frequency)
  {
    var i := LowerBound(l, x.frequency);
    var r := InsertSorted(l, x);
    LowerBoundSplits(l, x.frequency);
    forall j | 0 <= j < |r|
      ensures r[j] == if j < i then l[j] else if j == i then x else l[j - 1]
    {
      InsertSortedAt(l, x, j);
    }
  }

  /** Inserting keeps the list sorted. */
  lemma {:induction false} InsertSortedKeepsOrder<D>(l: seq<WorkItem<D>>, x: WorkItem<D>)
    requires SortedByFrequency(l)
    ensures SortedByFrequency(InsertSorted(l, x))
  {
    var i := LowerBound(l, x.frequency);
    var r := InsertSorted(l, x);
    InsertSortedPlaces(l, x);
    forall j, k | 0 <= j < k < |r|
      ensures r[j].frequency <= r[k].frequency
    {
      InsertSortedAt(l, x, j);
      InsertSortedAt(l, x, k);
    }
  }

  /** Inserting adds exactly x to the contents. */
  lemma {:induction false} InsertSortedPermutes<D>(l: seq<WorkItem<D>>, x: WorkItem<D>)
    ensures multiset(InsertSorted(l, x)) == multiset(l) + multiset{x}
  {
    var i := LowerBound(l, x.frequency);
    assert l == l[..i] + l[i..];
  }

  /** The work list sort. `std::sort` leaves the order of equal frequencies open; this one keeps input order. */
  function SortByFrequency<D>(l: seq<WorkItem<D>>): (r: seq<WorkItem<D>>)
    ensures |r| == |l|
  {
    if |l| == 0 then [] else InsertSorted(SortByFrequency(l[1..]), l[0])
  }

  /** The sort yields a sorted permutation of its input. */
  lemma {:induction false} SortByFrequencySorts<D>(l: seq<WorkItem<D>>)
    ensures SortedByFrequency(SortByFrequency(l))
    ensures multiset(SortByFrequency(l)) == multiset(l)
  {
    if |l| > 0 {
      SortByFrequencySorts(l[1..]);
      InsertSortedKeepsOrder(SortByFrequency(l[1..]), l[0]);
      InsertSortedPermutes(SortByFrequency(l[1..]), l[0]);
      assert l == [l[0]] + l[1..];
    }
  }

  // ---------------------------------------------------------------------------
  // The merge loop
  // ---------------------------------------------------------------------------

  /** Children of a stored merged node come before it, so the scratch vector describes finite trees. */
  predicate Acyclic<D>(built: seq<Built<D>>)
  {
    forall i :: 0 <= i < |built| && built[i].BuiltInner? ==> built[i].left < i && built[i].right < i
  }

  /** A merged work entry names a merged node of the scratch vector. */
  predicate ItemPlaced<D>(built: seq<Built<D>>, x: WorkItem<D>)
  {
    x.NodeItem? ==> x.index < |built| && built[x.index].BuiltInner?
  }

  predicate ItemsPlaced<D>(list: seq<WorkItem<D>>, built: seq<Built<D>>)
  {
    forall j :: 0 <= j < |list| ==> ItemPlaced(built, list[j])
  }

  /** The tree a scratch vector entry stands for. */
  function TreeOf<D>(built: seq<Built<D>>, i: nat): Tree<D>
    requires Acyclic(built) && i < |built|
    decreases i
  {
    match built[i]
    case BuiltLeaf(_, d) => Tip(d)
    case BuiltInner(_, l, r) => Fork(TreeOf(built, l), TreeOf(built, r))
  }

  /** The tree a work entry stands for. */
  function ItemTree<D>(built: seq<Built<D>>, x: WorkItem<D>): Tree<D>
    requires Acyclic(built) && ItemPlaced(built, x)
  {
    match x
    case LeafItem(_, d) => Tip(d)
    case NodeItem(_, i) => TreeOf(built, i)
  }

  /** All symbols under the entries of a work list. */
  function ListLeaves<D(==)>(built: seq<Built<D>>, list: seq<WorkItem<D>>): multiset<D>
    requires Acyclic(built) && ItemsPlaced(list, built)
  {
    if |list| == 0 then multiset{}
    else Leaves(ItemTree(built, list[0])) + ListLeaves(built, list[1..])
  }

  /** The frequencies of a work list, added up. */
  function SumFrequency<D>(list: seq<WorkItem<D>>): int
  {
    if |list| == 0 then 0 else list[0].frequency + SumFrequency(list[1..])
  }

  /** How many work entries are symbols that have not been stored yet. */
  function LeafItemCount<D>(list: seq<WorkItem<D>>): nat
  {
    if |list| == 0 then 0 else (if list[0].LeafItem? then 1 else 0) + LeafItemCount(list[1..])
  }

  /** The sum of the frequencies and the count of symbol entries split over a concatenation. */
  lemma {:induction false} ConcatCounts<D>(a: seq<WorkItem<D>>, b: seq<WorkItem<D>>)
    ensures SumFrequency(a + b) == SumFrequency(a) + SumFrequency(b)
    ensures LeafItemCount(a + b) == LeafItemCount(a) + LeafItemCount(b)
    decreases |a|
  {
    if |a| > 0 {
      assert (a + b)[1..] == a[1..] + b;
      ConcatCounts(a[1..], b);
    } else {
      assert a + b == b;
    }
  }

  /** The symbols under a list split over a concatenation. */
  lemma {:induction false} ConcatLeaves<D>(built: seq<Built<D>>, a: seq<WorkItem<D>>, b: seq<WorkItem<D>>)
    requires Acyclic(built) && ItemsPlaced(a, built) && ItemsPlaced(b, built)
    ensures ItemsPlaced(a + b, built)
    ensures ListLeaves(built, a + b) == ListLeaves(built, a) + ListLeaves(built, b)
    decreases |a|
  {
    if |a| > 0 {
      assert (a + b)[1..] == a[1..] + b;
      ConcatLeaves(built, a[1..], b);
    } else {
      assert a + b == b;
    }
  }

  /** An insertion adds exactly the inserted entry to the sum and the count. */
  lemma {:induction false} InsertSortedCounts<D>(l: seq<WorkItem<D>>, x: WorkItem<D>)
    ensures SumFrequency(InsertSorted(l, x)) == SumFrequency(l) + x.frequency
    ensures LeafItemCount(InsertSorted(l, x)) == LeafItemCount(l) + (if x.LeafItem? then 1 else 0)
  {
    var i := LowerBound(l, x.frequency);
    var front := l[..i];
    var back := l[i..];
    var single := [x];
    assert SumFrequency(single) == x.frequency && LeafItemCount(single) == (if x.LeafItem? then 1 else 0) by {
      assert single[1..] == [];
    }
    assert l == front + back;
    assert InsertSorted(l, x) == front + (single + back);
    ConcatCounts(single, back);
    ConcatCounts(front, single + back);
    ConcatCounts(front, back);
  }

  /** An insertion adds exactly the symbols under the inserted entry. */
  lemma {:induction false} InsertSortedLeaves<D>(built: seq<Built<D>>, l: seq<WorkItem<D>>, x: WorkItem<D>)
    requires Acyclic(built) && ItemsPlaced(l, built) && ItemPlaced(built, x)
    ensures ItemsPlaced(InsertSorted(l, x), built)
    ensures ListLeaves(built, InsertSorted(l, x)) == ListLeaves(built, l) + Leaves(ItemTree(built, x))
  {
    var i := LowerBound(l, x.frequency);
    var front := l[..i];
    var back := l[i..];
    var single := [x];
    assert ItemsPlaced(front, built) && ItemsPlaced(back, built) && ItemsPlaced(single, built) by {
      assert forall j :: 0 <= j < |front| ==> front[j] == l[j];
      assert forall j :: 0 <= j < |back| ==> back[j] == l[i + j];
    }
    assert ListLeaves(built, single) == Leaves(ItemTree(built, x)) by {
      assert single[1..] == [];
    }
    assert l == front + back;
    assert InsertSorted(l, x) == front + (single + back);
    ConcatLeaves(built, single, back);
    ConcatLeaves(built, front, single + back);
    ConcatLeaves(built, front, back);
  }

  /** The scratch vector only grows: trees of entries already there do not change. */
  lemma {:induction false} TreeOfExtend<D>(built: seq<Built<D>>, extra: seq<Built<D>>, i: nat)
    requires Acyclic(built) && Acyclic(built + extra) && i < |built|
    ensures TreeOf(built + extra, i) == TreeOf(built, i)
    decreases i
  {
    assert (built + extra)[i] == built[i];
    match built[i]
    case BuiltLeaf(_, _) =>
    case BuiltInner(_, l, r) =>
      TreeOfExtend(built, extra, l);
      TreeOfExtend(built, extra, r);
  }

  /** Growing the scratch vector leaves the contents of a placed work list alone. */
  lemma {:induction false} ListLeavesExtend<D>(built: seq<Built<D>>, extra: seq<Built<D>>, list: seq<WorkItem<D>>)
    requires Acyclic(built) && Acyclic(built + extra) && ItemsPlaced(list, built)
    ensures ItemsPlaced(list, built + extra)
    ensures ListLeaves(built + extra, list) == ListLeaves(built, list)
    decreases |list|
  {
    assert ItemsPlaced(list, built + extra) by {
      forall j | 0 <= j < |list|
        ensures ItemPlaced(built + extra, list[j])
      {
        if list[j].NodeItem? {
          assert (built + extra)[list[j].index] == built[list[j].index];
        }
      }
    }
    if |list| > 0 {
      ListLeavesExtend(built, extra, list[1..]);
      if list[0].NodeItem? {
        TreeOfExtend(built, extra, list[0].index);
      }
    }
  }

  /** A work entry moved into the scratch vector: a symbol is appended, a merged node stays where it is. */
  datatype Placement<D> = Placement(built: seq<Built<D>>, ref: nat)

  function Place<D>(built: seq<Built<D>>, x: WorkItem<D>): (p: Placement<D>)
  {
    match x
    case LeafItem(f, d) => Placement(built + [BuiltLeaf(f, d)], |built|)
    case NodeItem(_, i) => Placement(built, i)
  }

  /** After placing, the entry's tree is the tree at the returned index, and nothing before it moved. */
  lemma {:induction false} PlaceKeepsTrees<D>(built: seq<Built<D>>, x: WorkItem<D>)
    requires Acyclic(built) && ItemPlaced(built, x)
    ensures var p := Place(built, x);
      && Acyclic(p.built) && p.ref < |p.built|
      && p.built[..|built|] == built
      && |p.built| == |built| + (if x.LeafItem? then 1 else 0)
      && TreeOf(p.built, p.ref) == ItemTree(built, x)
  {
  }

  /** The scratch vector after storing the two lowest entries a and b and then their parent. */
  function StoreTwo<D>(built: seq<Built<D>>, a: WorkItem<D>, b: WorkItem<D>): (next: seq<Built<D>>)
    ensures |next| == |built| + (if a.LeafItem? then 1 else 0) + (if b.LeafItem? then 1 else 0) + 1
  {
    var pa := Place(built, a);
    var pb := Place(pa.built, b);
    pb.built + [BuiltInner(a.frequency + b.frequency, pa.ref, pb.ref)]
  }

  /** One pass of the `while (list.size() > 1)` body. */
  function MergeStep<D>(st: EncoderState<D>): (r: EncoderState<D>)
    requires |st.list| >= 2
    ensures |r.list| == |st.list| - 1
  {
    var a := st.list[0];
    var b := st.list[1];
    var next := StoreTwo(st.built, a, b);
    var parent := NodeItem(a.frequency + b.frequency, |next| - 1);
    EncoderState(InsertSorted(st.list[2..], parent), next)
  }

  /** The merge loop: merge the two lowest entries until at most one is left. */
  function MergeAll<D>(st: EncoderState<D>): (r: EncoderState<D>)
    ensures |r.list| == if |st.list| == 0 then 0 else 1
    decreases |st.list|
  {
    if |st.list| <= 1 then st else MergeAll(MergeStep(st))
  }

  /** The multiset of symbol data. */
  function SymbolData<D(==)>(symbols: seq<Symbol<D>>): multiset<D>
  {
    if |symbols| == 0 then multiset{} else multiset{symbols[0].data} + SymbolData(symbols[1..])
  }

  /** The frequencies of the input, added up. */
  function SymbolFrequency<D>(symbols: seq<Symbol<D>>): int
  {
    if |symbols| == 0 then 0 else symbols[0].frequency + SymbolFrequency(symbols[1..])
  }

  /**
   * What holds between two merges of an n-symbol input: the scratch vector is
   * acyclic and holds the merged nodes the list names, the list is sorted,
   * its trees hold every symbol once and its frequencies add up to the input's,
   * and the scratch vector has one entry per stored symbol and per merge.
   * Until the first merge every entry is a symbol; after it at least one is not.
   */
  predicate Invariant<D(==)>(st: EncoderState<D>, symbols: seq<Symbol<D>>)
  {
    var n := |symbols|;
    && Acyclic(st.built) && ItemsPlaced(st.list, st.built)
    && SortedByFrequency(st.list)
    && 1 <= |st.list| <= n
    && ListLeaves(st.built, st.list) == SymbolData(symbols)
    && SumFrequency(st.list) == SymbolFrequency(symbols)
    && LeafItemCount(st.list) <= n
    && |st.built| == (n - LeafItemCount(st.list)) + (n - |st.list|)
    && (|st.list| == n || LeafItemCount(st.list) < |st.list|)
  }

  /** The sum and count of a list split as head, second and the rest. */
  lemma {:induction false} SplitTwoCounts<D>(l: seq<WorkItem<D>>)
    requires |l| >= 2
    ensures SumFrequency(l) == l[0].frequency + l[1].frequency + SumFrequency(l[2..])
    ensures LeafItemCount(l) == (if l[0].LeafItem? then 1 else 0) + (if l[1].LeafItem? then 1 else 0) + LeafItemCount(l[2..])
  {
    assert l[1..][1..] == l[2..];
    assert l[1..][0] == l[1];
  }

  /** The symbols under a list split as head, second and the rest. */
  lemma {:induction false} SplitTwoLeaves<D>(built: seq<Built<D>>, l: seq<WorkItem<D>>)
    requires |l| >= 2 && Acyclic(built) && ItemsPlaced(l, built)
    ensures ItemsPlaced(l[2..], built)
    ensures ListLeaves(built, l)
         == Leaves(ItemTree(built, l[0])) + Leaves(ItemTree(built, l[1])) + ListLeaves(built, l[2..])
  {
    assert l[1..][1..] == l[2..];
    assert l[1..][0] == l[1];
  }

  /** A tail of a sorted list is sorted. */
  lemma {:induction false} SortedTail<D>(l: seq<WorkItem<D>>, k: nat)
    requires SortedByFrequency(l) && k <= |l|
    ensures SortedByFrequency(l[k..])
  {
    forall i, j | 0 <= i < j < |l| - k
      ensures l[k..][i].frequency <= l[k..][j].frequency
    {
      assert l[k..][i] == l[k + i] && l[k..][j] == l[k + j];
    }
  }

  /**
   * Storing two placed entries and their parent: symbols are appended, merged
   * nodes stay in place, the parent comes last, and its tree joins the two
   * entries' trees.
   */
  lemma {:induction false} StoreTwoBuilds<D>(built: seq<Built<D>>, a: WorkItem<D>, b: WorkItem<D>)
    requires Acyclic(built) && ItemPlaced(built, a) && ItemPlaced(built, b)
    ensures var next := StoreTwo(built, a, b);
      && Acyclic(next)
      && next[..|built|] == built
      && next[|next| - 1].BuiltInner?
      && TreeOf(next, |next| - 1) == Fork(ItemTree(built, a), ItemTree(built, b))
  {
    var pa := Place(built, a);
    var pb := Place(pa.built, b);
    var next := pb.built + [BuiltInner(a.frequency + b.frequency, pa.ref, pb.ref)];
    assert StoreTwo(built, a, b) == next;
    PlaceTwo(built, a, b);
    AppendParent(pb.built, a.frequency + b.frequency, pa.ref, pb.ref);
    assert next[..|built|] == built by {
      assert next[..|built|] == next[..|pb.built|][..|built|];
    }
  }

  /** Placing a and then b: both trees are found, unchanged, in the grown scratch vector. */
  lemma {:induction false} PlaceTwo<D>(built: seq<Built<D>>, a: WorkItem<D>, b: WorkItem<D>)
    requires Acyclic(built) && ItemPlaced(built, a) && ItemPlaced(built, b)
    ensures var pa := Place(built, a); var pb := Place(pa.built, b);
      && Acyclic(pb.built) && pa.ref < |pb.built| && pb.ref < |pb.built|
      && pb.built[..|built|] == built
      && TreeOf(pb.built, pa.ref) == ItemTree(built, a)
      && TreeOf(pb.built, pb.ref) == ItemTree(built, b)
  {
    var pa := Place(built, a);
    PlaceKeepsTrees(built, a);
    assert ItemPlaced(pa.built, b) by {
      if b.NodeItem? {
        assert pa.built[b.index] == pa.built[..|built|][b.index];
      }
    }
    var pb := Place(pa.built, b);
    PlaceKeepsTrees(pa.built, b);
    assert pb.built[..|built|] == built by {
      assert pb.built[..|built|] == pb.built[..|pa.built|][..|built|];
    }
    assert TreeOf(pb.built, pa.ref) == ItemTree(built, a) by {
      assert pb.built == pa.built + pb.built[|pa.built|..];
      TreeOfExtend(pa.built, pb.built[|pa.built|..], pa.ref);
    }
    assert ItemTree(pa.built, b) == ItemTree(built, b) by {
      if b.NodeItem? {
        assert pa.built == built + pa.built[|built|..];
        TreeOfExtend(built, pa.built[|built|..], b.index);
      }
    }
  }

  /** Appending a parent of two existing entries keeps the vector acyclic and joins their trees. */
  lemma {:induction false} AppendParent<D>(built: seq<Built<D>>, f: int, l: nat, r: nat)
    requires Acyclic(built) && l < |built| && r < |built|
    ensures var next := built + [BuiltInner(f, l, r)];
      && Acyclic(next)
      && next[..|built|] == built
      && TreeOf(next, |built|) == Fork(TreeOf(built, l), TreeOf(built, r))
  {
    var next := built + [BuiltInner(f, l, r)];
    assert Acyclic(next) by {
      forall i | 0 <= i < |next| && next[i].BuiltInner?
        ensures next[i].left < i && next[i].right < i
      {
        if i < |built| {
          assert next[i] == built[i];
        }
      }
    }
    assert next[..|built|] == built;
    TreeOfExtend(built, [BuiltInner(f, l, r)], l);
    TreeOfExtend(built, [BuiltInner(f, l, r)], r);
  }


  /**
   * What one merge does to the scratch vector: the two lowest entries are
   * stored (symbols appended, merged nodes left in place), the parent is
   * appended after them, and the parent's tree joins the two entries' trees.
   */
  lemma {:induction false} MergeStepBuilds<D>(st: EncoderState<D>)
    requires |st.list| >= 2 && Acyclic(st.built) && ItemPlaced(st.built, st.list[0]) && ItemPlaced(st.built, st.list[1])
    ensures var r := MergeStep(st);
      var a := st.list[0];
      var b := st.list[1];
      var parent := NodeItem(a.frequency + b.frequency, |r.built| - 1);
      && Acyclic(r.built)
      && |r.built| == |st.built| + (if a.LeafItem? then 1 else 0) + (if b.LeafItem? then 1 else 0) + 1
      && r.built[..|st.built|] == st.built
      && r.list == InsertSorted(st.list[2..], parent)
      && ItemPlaced(r.built, parent)
      && ItemTree(r.built, parent) == Fork(ItemTree(st.built, a), ItemTree(st.built, b))
  {
    StoreTwoBuilds(st.built, st.list[0], st.list[1]);
  }

  /** One merge keeps the list sorted. */
  lemma {:induction false} MergeStepSorted<D>(st: EncoderState<D>)
    requires |st.list| >= 2 && SortedByFrequency(st.list)
    ensures SortedByFrequency(MergeStep(st).list)
  {
    var r := MergeStep(st);
    var rest := st.list[2..];
    assert r.list == InsertSorted(rest, NodeItem(st.list[0].frequency + st.list[1].frequency, |r.built| - 1));
    assert SortedByFrequency(rest) by {
      SortedTail(st.list, 2);
    }
    InsertSortedKeepsOrder(rest, NodeItem(st.list[0].frequency + st.list[1].frequency, |r.built| - 1));
  }

  /**
   * Replacing the first two entries of a list by one entry whose tree joins
   * theirs, in a scratch vector that only grew, keeps the symbols under the list.
   */
  lemma {:induction false} JoinFirstTwo<D>(built: seq<Built<D>>, extra: seq<Built<D>>, l: seq<WorkItem<D>>, parent: WorkItem<D>)
    requires |l| >= 2 && Acyclic(built) && ItemsPlaced(l, built)
    requires Acyclic(built + extra) && ItemPlaced(built + extra, parent)
    requires ItemTree(built + extra, parent) == Fork(ItemTree(built, l[0]), ItemTree(built, l[1]))
    ensures ItemsPlaced(InsertSorted(l[2..], parent), built + extra)
    ensures ListLeaves(built + extra, InsertSorted(l[2..], parent)) == ListLeaves(built, l)
  {
    var rest := l[2..];
    var next := built + extra;
    SplitTwoLeaves(built, l);
    ListLeavesExtend(built, extra, rest);
    InsertSortedLeaves(next, rest, parent);
  }

  /** One merge keeps the symbols under the list: the new entry stands for the two it took. */
  lemma {:induction false} MergeStepLeaves<D>(st: EncoderState<D>)
    requires |st.list| >= 2 && Acyclic(st.built) && ItemsPlaced(st.list, st.built)
    ensures var r := MergeStep(st);
      && Acyclic(r.built) && ItemsPlaced(r.list, r.built)
      && ListLeaves(r.built, r.list) == ListLeaves(st.built, st.list)
  {
    var r := MergeStep(st);
    var parent := NodeItem(st.list[0].frequency + st.list[1].frequency, |r.built| - 1);
    MergeStepBuilds(st);
    var extra := r.built[|st.built|..];
    assert r.built == st.built + extra by {
      PrefixSplit(r.built, |st.built|);
    }
    JoinFirstTwo(st.built, extra, st.list, parent);
  }

  /**
   * One merge keeps the sum of the frequencies, turns the symbol entries it
   * took into stored ones, and leaves at least one entry that is not a symbol.
   */
  lemma {:induction false} MergeStepCounts<D>(st: EncoderState<D>)
    requires |st.list| >= 2 && Acyclic(st.built) && ItemsPlaced(st.list, st.built)
    ensures var r := MergeStep(st);
      var taken := (if st.list[0].LeafItem? then 1 else 0) + (if st.list[1].LeafItem? then 1 else 0);
      && SumFrequency(r.list) == SumFrequency(st.list)
      && LeafItemCount(r.list) + taken == LeafItemCount(st.list)
      && LeafItemCount(r.list) < |r.list|
      && |r.built| == |st.built| + taken + 1
  {
    var l := st.list;
    var r := MergeStep(st);
    var parent := NodeItem(l[0].frequency + l[1].frequency, |r.built| - 1);
    var rest := l[2..];
    MergeStepBuilds(st);
    SplitTwoCounts(l);
    InsertSortedCounts(rest, parent);
    LeafItemCountBound(rest);
  }

  lemma {:induction false} PrefixSplit<T>(s: seq<T>, k: nat)
    requires k <= |s|
    ensures s == s[..k] + s[k..]
  {
  }

  /** There are no more symbol entries than entries. */
  lemma {:induction false} LeafItemCountBound<D>(l: seq<WorkItem<D>>)
    ensures LeafItemCount(l) <= |l|
  {
    if |l| > 0 {
      LeafItemCountBound(l[1..]);
    }
  }

  /** One merge keeps the invariant. */
  lemma {:induction false} MergeStepKeeps<D>(st: EncoderState<D>, symbols: seq<Symbol<D>>)
    requires Invariant(st, symbols) && |st.list| >= 2
    ensures Invariant(MergeStep(st), symbols)
  {
    MergeStepSorted(st);
    MergeStepLeaves(st);
    MergeStepCounts(st);
  }

  /** The whole loop keeps the invariant. */
  lemma {:induction false} MergeAllKeeps<D>(st: EncoderState<D>, symbols: seq<Symbol<D>>)
    requires Invariant(st, symbols)
    ensures Invariant(MergeAll(st), symbols)
    decreases |st.list|
  {
    if |st.list| > 1 {
      MergeStepKeeps(st, symbols);
      MergeAllKeeps(MergeStep(st), symbols);
    }
  }

  /** The work list before the loop: one entry per symbol, in input order. */
  function SymbolItems<D>(symbols: seq<Symbol<D>>): (r: seq<WorkItem<D>>)
    ensures |r| == |symbols|
  {
    if |symbols| == 0 then [] else [LeafItem(symbols[0].frequency, symbols[0].data)] + SymbolItems(symbols[1..])
  }

  /** The list of symbol entries, before and after sorting, carries every symbol and every frequency once. */
  lemma {:induction false} SymbolItemsContents<D>(symbols: seq<Symbol<D>>)
    ensures ItemsPlaced(SymbolItems(symbols), [])
    ensures ListLeaves([], SymbolItems(symbols)) == SymbolData(symbols)
    ensures SumFrequency(SymbolItems(symbols)) == SymbolFrequency(symbols)
    ensures LeafItemCount(SymbolItems(symbols)) == |symbols|
  {
    if |symbols| > 0 {
      SymbolItemsContents(symbols[1..]);
      var x := LeafItem(symbols[0].frequency, symbols[0].data);
      assert ([x] + SymbolItems(symbols[1..]))[1..] == SymbolItems(symbols[1..]);
    }
  }

  lemma {:induction false} SortKeepsContents<D>(l: seq<WorkItem<D>>)
    requires ItemsPlaced(l, [])
    ensures ItemsPlaced(SortByFrequency(l), [])
    ensures ListLeaves([], SortByFrequency(l)) == ListLeaves([], l)
    ensures SumFrequency(SortByFrequency(l)) == SumFrequency(l)
    ensures LeafItemCount(SortByFrequency(l)) == LeafItemCount(l)
  {
    if |l| > 0 {
      SortKeepsContents(l[1..]);
      InsertSortedLeaves([], SortByFrequency(l[1..]), l[0]);
      InsertSortedCounts(SortByFrequency(l[1..]), l[0]);
    }
  }

  /** The state the loop starts from: the sorted symbol entries and an empty scratch vector. */
  function Start<D>(symbols: seq<Symbol<D>>): EncoderState<D>
  {
    EncoderState(SortByFrequency(SymbolItems(symbols)), [])
  }

  lemma {:induction false} StartInvariant<D>(symbols: seq<Symbol<D>>)
    requires |symbols| >= 1
    ensures Invariant(Start(symbols), symbols)
  {
    SymbolItemsContents(symbols);
    SortKeepsContents(SymbolItems(symbols));
    SortByFrequencySorts(SymbolItems(symbols));
  }

  /**
   * The loop's outcome on two or more symbols: a single merged entry, its
   * frequency the sum of all input frequencies, and a scratch vector of
   * 2n - 1 entries (n symbols and n - 1 merged nodes).
   */
  lemma {:induction false} MergeLoopResult<D>(symbols: seq<Symbol<D>>)
    requires |symbols| >= 2
    ensures var st := MergeAll(Start(symbols));
      && |st.list| == 1 && st.list[0].NodeItem?
      && Acyclic(st.built) && st.list[0].index < |st.built|
      && st.list[0].frequency == SymbolFrequency(symbols)
      && |st.built| == 2 * |symbols| - 1
      && Leaves(TreeOf(st.built, st.list[0].index)) == SymbolData(symbols)
  {
    StartInvariant(symbols);
    MergeAllKeeps(Start(symbols), symbols);
    var st := MergeAll(Start(symbols));
    var tail := st.list[1..];
    assert tail == [];
    assert SumFrequency(st.list) == st.list[0].frequency + SumFrequency(tail);
    assert ListLeaves(st.built, st.list) == Leaves(ItemTree(st.built, st.list[0])) + ListLeaves(st.built, tail);
    assert LeafItemCount(st.list) == 0;
  }

  // ---------------------------------------------------------------------------
  // Flattening the tree into the node table
  // ---------------------------------------------------------------------------

  /** What `store_node` returns: the grown table and the reference to the stored entry. */
  datatype Stored<D> = Stored(table: seq<TableNode<D>>, ref: int)

  /**
   * `store_node(the_nodes, index)`: both children first (zero side, then one
   * side), then the node itself; a symbol is referenced by its negated index.
   */
  function StoreNode<D>(built: seq<Built<D>>, index: nat, table: seq<TableNode<D>>): (r: Stored<D>)
    requires Acyclic(built) && index < |built|
    ensures |r.table| > |table| && r.table[..|table|] == table
    decreases index
  {
    match built[index]
    case BuiltInner(_, l, rt) =>
      var left := StoreNode(built, l, table);
      var right := StoreNode(built, rt, left.table);
      assert right.table[..|table|] == left.table[..|table|];
      Stored(right.table + [Branch(left.ref, right.ref)], |right.table|)
    case BuiltLeaf(_, d) => Stored(table + [Leaf(d)], -|table|)
  }

  /** A child reference as the encoder writes it: a branch at a positive index, a leaf at a negated one. */
  predicate RefBelow<D>(table: seq<TableNode<D>>, c: int, bound: int)
  {
    if c > 0 then c < bound && c < |table| && table[c].Branch?
    else -c < bound && -c < |table| && table[-c].Leaf?
  }

  /**
   * The encoder's table layout: every branch refers only to entries stored
   * before it (post-order).
   */
  predicate PostOrder<D>(table: seq<TableNode<D>>)
  {
    forall i :: 0 <= i < |table| ==> EntryPostOrder(table, i)
  }

  /** Entry i is a leaf, or a branch whose children are stored before it. */
  predicate EntryPostOrder<D>(table: seq<TableNode<D>>, i: nat)
    requires i < |table|
  {
    table[i].Branch? ==> RefBelow(table, table[i].zero, i) && RefBelow(table, table[i].one, i)
  }

  /** The tree a reference names in a post-order table. */
  function ReadRef<D>(table: seq<TableNode<D>>, c: int): Tree<D>
    requires PostOrder(table) && RefBelow(table, c, |table|)
    decreases if c > 0 then c else 0
  {
    if c <= 0 then Tip(table[-c].data)
    else
      assert EntryPostOrder(table, c);
      Fork(ReadRef(table, table[c].zero), ReadRef(table, table[c].one))
  }

  /** Appending entries does not change what a reference already in the table names. */
  lemma {:induction false} ReadRefExtend<D>(table: seq<TableNode<D>>, extra: seq<TableNode<D>>, c: int)
    requires PostOrder(table) && PostOrder(table + extra) && RefBelow(table, c, |table|)
    ensures RefBelow(table + extra, c, |table + extra|)
    ensures ReadRef(table + extra, c) == ReadRef(table, c)
    decreases if c > 0 then c else 0
  {
    var t := table + extra;
    if c > 0 {
      assert t[c] == table[c];
      assert EntryPostOrder(table, c);
      ReadRefExtend(table, extra, table[c].zero);
      ReadRefExtend(table, extra, table[c].one);
    } else {
      assert t[-c] == table[-c];
    }
  }

  /** The symbols at the leaf entries of a table. */
  function LeafData<D(==)>(table: seq<TableNode<D>>): multiset<D>
  {
    if |table| == 0 then multiset{}
    else LeafData(table[..|table| - 1]) + (if table[|table| - 1].Leaf? then multiset{table[|table| - 1].data} else multiset{})
  }

  lemma {:induction false} LeafDataConcat<D>(a: seq<TableNode<D>>, b: seq<TableNode<D>>)
    ensures LeafData(a + b) == LeafData(a) + LeafData(b)
    decreases |b|
  {
    if |b| == 0 {
      assert a + b == a;
    } else {
      var b' := b[..|b| - 1];
      assert (a + b)[..|a + b| - 1] == a + b';
      LeafDataConcat(a, b');
    }
  }

  /** A reference that is good in a table stays good when entries are appended. */
  lemma {:induction false} RefBelowExtend<D>(table: seq<TableNode<D>>, extra: seq<TableNode<D>>, c: int, bound: int)
    requires RefBelow(table, c, bound)
    ensures RefBelow(table + extra, c, bound)
  {
    if c > 0 {
      assert (table + extra)[c] == table[c];
    } else {
      assert (table + extra)[-c] == table[-c];
    }
  }

  /** Appending a leaf, or a branch whose references point into the table, keeps it post-order. */
  lemma {:induction false} PostOrderAppend<D>(table: seq<TableNode<D>>, x: TableNode<D>)
    requires PostOrder(table)
    requires x.Branch? ==> RefBelow(table, x.zero, |table|) && RefBelow(table, x.one, |table|)
    ensures PostOrder(table + [x])
  {
    var t := table + [x];
    forall i | 0 <= i < |t|
      ensures EntryPostOrder(t, i)
    {
      if i < |table| {
        assert t[i] == table[i];
        assert EntryPostOrder(table, i);
        if t[i].Branch? {
          RefBelowExtend(table, [x], table[i].zero, i);
          RefBelowExtend(table, [x], table[i].one, i);
        }
      } else if x.Branch? {
        assert t[i] == x;
        RefBelowExtend(table, [x], x.zero, i);
        RefBelowExtend(table, [x], x.one, i);
      }
    }
  }

  /**
   * `store_node` appends the subtree at `index` in post-order: the table grows
   * by exactly the subtree's size, the first entry written is a leaf, and a
   * merged node is written last and referenced by its index while a symbol is
   * referenced by its negated index.
   */
  lemma {:induction false} StoreNodeShape<D>(built: seq<Built<D>>, index: nat, table: seq<TableNode<D>>)
    requires Acyclic(built) && index < |built|
    ensures var r := StoreNode(built, index, table);
      && |r.table| == |table| + Size(TreeOf(built, index))
      && r.table[|table|].Leaf?
      && (built[index].BuiltInner? ==> r.ref == |r.table| - 1 && r.table[r.ref].Branch?)
      && (built[index].BuiltLeaf? ==> r.ref == -|table| && r.table[|table|] == Leaf(built[index].data))
    decreases index
  {
    match built[index]
    case BuiltLeaf(_, _) =>
    case BuiltInner(_, l, rt) =>
      var left := StoreNode(built, l, table);
      StoreNodeShape(built, l, table);
      StoreNodeShape(built, rt, left.table);
      var right := StoreNode(built, rt, left.table);
      assert right.table[..|left.table|] == left.table;
      assert right.table[|table|] == left.table[|table|];
  }

  /** Some branch of the table has a zero side reference of 0. */
  predicate HasZeroChild<D>(table: seq<TableNode<D>>)
  {
    exists k :: 0 <= k < |table| && table[k].Branch? && table[k].zero == 0
  }

  /**
   * Storing a merged node into an empty table puts its leftmost symbol at
   * entry 0, so some branch names that symbol by the reference -0, that is 0.
   */
  lemma {:induction false} StoreNodeZeroRef<D>(built: seq<Built<D>>, index: nat)
    requires Acyclic(built) && index < |built| && built[index].BuiltInner?
    ensures HasZeroChild(StoreNode(built, index, []).table)
    decreases index
  {
    var l := built[index].left;
    var left := StoreNode(built, l, []);
    var right := StoreNode(built, built[index].right, left.table);
    var r := StoreNode(built, index, []);
    assert r.table == right.table + [Branch(left.ref, right.ref)];
    var k: int;
    if built[l].BuiltLeaf? {
      assert left.ref == 0;
      k := |right.table|;
    } else {
      StoreNodeZeroRef(built, l);
      k :| 0 <= k < |left.table| && left.table[k].Branch? && left.table[k].zero == 0;
      assert right.table[..|left.table|] == left.table;
      assert right.table[k] == left.table[k];
    }
    assert 0 <= k < |r.table| && r.table[k].Branch? && r.table[k].zero == 0;
  }

  /** The reference `store_node` returns reads back as the subtree, and the table stays post-order. */
  lemma {:induction false} StoreNodeReadsBack<D>(built: seq<Built<D>>, index: nat, table: seq<TableNode<D>>)
    requires Acyclic(built) && index < |built| && PostOrder(table)
    ensures var r := StoreNode(built, index, table);
      && PostOrder(r.table)
      && RefBelow(r.table, r.ref, |r.table|)
      && ReadRef(r.table, r.ref) == TreeOf(built, index)
    decreases index
  {
    var r := StoreNode(built, index, table);
    StoreNodeShape(built, index, table);
    match built[index]
    case BuiltLeaf(_, d) =>
      PostOrderAppend(table, Leaf(d));
    case BuiltInner(_, l, rt) =>
      var left := StoreNode(built, l, table);
      StoreNodeReadsBack(built, l, table);
      var right := StoreNode(built, rt, left.table);
      StoreNodeReadsBack(built, rt, left.table);
      var node := Branch(left.ref, right.ref);
      assert right.table == left.table + right.table[|left.table|..] by {
        assert right.table[..|left.table|] == left.table;
      }
      ReadRefExtend(left.table, right.table[|left.table|..], left.ref);
      PostOrderAppend(right.table, node);
      ReadRefExtend(right.table, [node], left.ref);
      ReadRefExtend(right.table, [node], right.ref);
      assert r.table == right.table + [node];
      assert r.table[r.ref] == node;
  }

  /** The leaves `store_node` writes are the symbols of the subtree. */
  lemma {:induction false} StoreNodeLeaves<D>(built: seq<Built<D>>, index: nat, table: seq<TableNode<D>>)
    requires Acyclic(built) && index < |built|
    ensures LeafData(StoreNode(built, index, table).table) == LeafData(table) + Leaves(TreeOf(built, index))
    decreases index
  {
    match built[index]
    case BuiltLeaf(_, d) =>
      assert LeafData(table + [Leaf(d)]) == LeafData(table) + multiset{d} by {
        assert (table + [Leaf(d)])[..|table|] == table;
      }
    case BuiltInner(_, l, rt) =>
      var left := StoreNode(built, l, table);
      var right := StoreNode(built, rt, left.table);
      var node := Branch(left.ref, right.ref);
      var zeros := Leaves(TreeOf(built, l));
      var ones := Leaves(TreeOf(built, rt));
      assert LeafData(left.table) == LeafData(table) + zeros by {
        StoreNodeLeaves(built, l, table);
      }
      assert LeafData(right.table) == LeafData(left.table) + ones by {
        StoreNodeLeaves(built, rt, left.table);
      }
      assert LeafData(right.table + [node]) == LeafData(right.table) by {
        assert (right.table + [node])[..|right.table|] == right.table;
      }
      assert StoreNode(built, index, table).table == right.table + [node];
      assert Leaves(TreeOf(built, index)) == zeros + ones;
  }

  // ---------------------------------------------------------------------------
  // encode
  // ---------------------------------------------------------------------------

  /** The code tree the merge loop builds: the tree of the one entry left on the work list. */
  function CodeTree<D(==)>(symbols: seq<Symbol<D>>): (t: Tree<D>)
    requires |symbols| >= 2
    ensures t.Fork? && Leaves(t) == SymbolData(symbols)
  {
    MergeLoopResult(symbols);
    var st := MergeAll(Start(symbols));
    TreeOf(st.built, st.list[0].index)
  }

  /**
   * `encode` as written: `nodes` is cleared and refilled by `store_node` from
   * the last list entry. It needs two symbols: with none `list.front()` reads an
   * empty deque; with one, no merge runs, the scratch vector `the_nodes` stays
   * empty, and `store_node` indexes it with `list.front().index`, which is the
   * symbol's value read through the union as an `int`.
   */
  function Encode<D(==)>(symbols: seq<Symbol<D>>): (table: seq<TableNode<D>>)
    requires |symbols| >= 2
  {
    MergeLoopResult(symbols);
    var st := MergeAll(Start(symbols));
    StoreNode(st.built, st.list[0].index, []).table
  }

  /**
   * The encoded table: 2n - 1 entries in post-order, the root last, every
   * symbol in exactly one leaf, and the root reference reading back the code
   * tree. The first entry is a leaf, so the reference to it is -0, that is 0.
   */
  lemma {:induction false} EncodeLayout<D>(symbols: seq<Symbol<D>>)
    requires |symbols| >= 2
    ensures var table := Encode(symbols);
      && |table| == 2 * |symbols| - 1
      && PostOrder(table)
      && table[|table| - 1].Branch?
      && table[0].Leaf?
      && LeafData(table) == SymbolData(symbols)
      && RefBelow(table, |table| - 1, |table|)
      && ReadRef(table, |table| - 1) == CodeTree(symbols)
      && HasZeroChild(table)
  {
    MergeLoopResult(symbols);
    var st := MergeAll(Start(symbols));
    var t := TreeOf(st.built, st.list[0].index);
    StoreNodeShape(st.built, st.list[0].index, []);
    StoreNodeReadsBack(st.built, st.list[0].index, []);
    StoreNodeLeaves(st.built, st.list[0].index, []);
    StoreNodeZeroRef(st.built, st.list[0].index);
    assert PostOrder<D>([]);
    assert LeafData<D>([]) == multiset{};
    SizeOfLeaves(t);
    SymbolDataSize(symbols);
  }

  lemma {:induction false} SymbolDataSize<D>(symbols: seq<Symbol<D>>)
    ensures |SymbolData(symbols)| == |symbols|
  {
    if |symbols| > 0 {
      SymbolDataSize(symbols[1..]);
    }
  }
}
