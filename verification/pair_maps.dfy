/**
 * The `std::map<PairKey, Manifold>` the physics world keeps: a list of
 * entries strictly ascending by key, so that each key occurs at most once
 * and iteration visits the keys in `operator<` order.
 */
module PairMaps {
  import opened Contacts

  datatype Entry<V> = Entry(key: PairKey, value: V)

  /** The map's invariant: keys strictly ascending. */
  predicate Sorted<V>(m: seq<Entry<V>>)
  {
    forall i, j :: 0 <= i < j < |m| ==> Less(m[i].key, m[j].key)
  }

  function Keys<V>(m: seq<Entry<V>>): set<PairKey>
  {
    set i | 0 <= i < |m| :: m[i].key
  }

  /** The keys of a non-empty map are its first key and the keys after it. */
  lemma KeysCons<V>(m: seq<Entry<V>>)
    requires |m| > 0
    ensures Keys(m) == {m[0].key} + Keys(m[1..])
  {
    forall k | k in Keys(m)
      ensures k in {m[0].key} + Keys(m[1..])
    {
      var i :| 0 <= i < |m| && m[i].key == k;
      if i > 0 {
        assert m[1..][i - 1].key == k;
      }
    }
    forall k | k in Keys(m[1..])
      ensures k in Keys(m)
    {
      var i :| 0 <= i < |m[1..]| && m[1..][i].key == k;
      assert m[i + 1].key == k;
    }
  }

  /** What `find` returns: `end()`, or the entry's value. */
  datatype Lookup<V> = Missing | Found(value: V)

  /** `find`: the value stored under k, if any. */
  function Find<V>(m: seq<Entry<V>>, k: PairKey): (r: Lookup<V>)
    ensures r.Found? <==> k in Keys(m)
    ensures r.Found? ==> Entry(k, r.value) in m
  {
    if |m| == 0 then Missing
    else if m[0].key == k then Found(m[0].value)
    else
      KeysCons(m);
      Find(m[1..], k)
  }

  /** In a sorted map every entry is what `find` returns for its key. */
  lemma {:induction false} FindEntry<V>(m: seq<Entry<V>>, i: nat)
    requires Sorted(m) && i < |m|
    ensures Find(m, m[i].key) == Found(m[i].value)
  {
    if i > 0 {
      assert m[0].key != m[i].key by {
        assert Less(m[0].key, m[i].key);
        LessTrichotomy(m[0].key, m[i].key);
      }
      FindEntry(m[1..], i - 1);
    }
  }

  /** Every key of a sorted map but the first lies above the first. */
  lemma {:induction false} AboveFirst<V>(m: seq<Entry<V>>, k: PairKey)
    requires Sorted(m) && |m| > 0 && k in Keys(m[1..])
    ensures Less(m[0].key, k)
  {
    var i :| 0 <= i < |m[1..]| && m[1..][i].key == k;
    assert m[i + 1].key == k;
  }

  /**
   * `insert`: adds k with v when k is absent; when k is present the map is
   * left as it was, as `std::map::insert` does. No other key is touched.
   */
  function Insert<V>(m: seq<Entry<V>>, k: PairKey, v: V): (r: seq<Entry<V>>)
    requires Sorted(m)
    ensures Sorted(r)
    ensures Keys(r) == Keys(m) + {k}
    ensures Find(r, k) == if k in Keys(m) then Find(m, k) else Found(v)
    ensures forall k' :: k' != k ==> Find(r, k') == Find(m, k')
  {
    if |m| == 0 then
      assert Keys([Entry(k, v)]) == {k} by { KeysCons([Entry(k, v)]); }
      [Entry(k, v)]
    else if m[0].key == k then m
    else if Less(k, m[0].key) then
      var r := [Entry(k, v)] + m;
      KeysCons(r);
      assert r[1..] == m;
      assert k !in Keys(m) by {
        KeysCons(m);
        if k in Keys(m[1..]) {
          AboveFirst(m, k);
        }
      }
      assert Sorted(r) by {
        forall i, j | 0 <= i < j < |r|
          ensures Less(r[i].key, r[j].key)
        {
          if i == 0 && j > 1 {
            LessIsStrictOrder(k, m[0].key, m[j - 1].key);
          }
        }
      }
      r
    else
      LessTrichotomy(k, m[0].key);
      KeysCons(m);
      var rest := Insert(m[1..], k, v);
      var r := [m[0]] + rest;
      KeysCons(r);
      assert r[1..] == rest;
      assert Sorted(r) by {
        forall j | 0 < j < |r|
          ensures Less(r[0].key, r[j].key)
        {
          assert rest[j - 1].key in Keys(rest);
          if rest[j - 1].key != k {
            AboveFirst(m, rest[j - 1].key);
          }
        }
      }
      r
  }

  /**
   * `iter->second = v`: the value under k becomes v. The order of the keys
   * and every other key's value are kept.
   */
  function Assign<V>(m: seq<Entry<V>>, k: PairKey, v: V): (r: seq<Entry<V>>)
    requires Sorted(m)
    ensures Sorted(r)
    ensures Keys(r) == Keys(m)
    ensures Find(r, k) == if k in Keys(m) then Found(v) else Missing
    ensures forall k' :: k' != k ==> Find(r, k') == Find(m, k')
  {
    if |m| == 0 then m
    else
      KeysCons(m);
      var rest := Assign(m[1..], k, v);
      var r := [if m[0].key == k then Entry(k, v) else m[0]] + rest;
      KeysCons(r);
      assert r[1..] == rest;
      assert Sorted(r) by {
        forall j | 0 < j < |r|
          ensures Less(r[0].key, r[j].key)
        {
          assert rest[j - 1].key in Keys(rest);
          AboveFirst(m, rest[j - 1].key);
        }
      }
      r
  }

  /** `erase(k)`: removes k's entry, if any, and keeps every other entry. */
  function Erase<V>(m: seq<Entry<V>>, k: PairKey): (r: seq<Entry<V>>)
    requires Sorted(m)
    ensures Sorted(r)
    ensures Keys(r) == Keys(m) - {k}
    ensures Find(r, k) == Missing
    ensures forall k' :: k' != k ==> Find(r, k') == Find(m, k')
  {
    if |m| == 0 then m
    else if m[0].key == k then
      KeysCons(m);
      assert k !in Keys(m[1..]) by {
        if k in Keys(m[1..]) {
          AboveFirst(m, k);
        }
      }
      m[1..]
    else
      KeysCons(m);
      var rest := Erase(m[1..], k);
      var r := [m[0]] + rest;
      KeysCons(r);
      assert r[1..] == rest;
      assert Sorted(r) by {
        forall j | 0 < j < |r|
          ensures Less(r[0].key, r[j].key)
        {
          assert rest[j - 1].key in Keys(rest);
          AboveFirst(m, rest[j - 1].key);
        }
      }
      r
  }
}
