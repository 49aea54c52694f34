/**
 * Insertion-ordered dictionaries, as Python's `dict` behaves: a sequence of
 * (key, value) pairs whose keys appear in the order they were first written.
 */
module OrderedMaps {
  import opened Wrappers
  import opened Sequences

  type OrderedMap<K, V> = seq<(K, V)>

  /** The keys of `m`, in iteration order. */
  function Keys<K, V>(m: OrderedMap<K, V>): (ks: seq<K>)
    ensures |ks| == |m|
    ensures forall i :: 0 <= i < |m| ==> ks[i] == m[i].0
  {
    if |m| == 0 then [] else [m[0].0] + Keys(m[1..])
  }

  /** No key is written twice: the shape every Python dict has. */
  predicate DistinctKeys<K(==), V>(m: OrderedMap<K, V>)
  {
    forall i, j :: 0 <= i < j < |m| ==> m[i].0 != m[j].0
  }

  /** `m.get(k)`: the value stored under `k`, or `None` when `k` is absent. */
  function Lookup<K(==), V>(m: OrderedMap<K, V>, k: K): (r: Option<V>)
    ensures r.None? <==> k !in Keys(m)
  {
    if |m| == 0 then None
    else if m[0].0 == k then Some(m[0].1)
    else Lookup(m[1..], k)
  }

  /**
   * `m[k] = v`: an existing key keeps its position and takes the new value;
   * a new key is appended at the end.
   */
  function Put<K(==,!new), V>(m: OrderedMap<K, V>, k: K, v: V): (r: OrderedMap<K, V>)
    ensures k in Keys(m) ==> Keys(r) == Keys(m)
    ensures k !in Keys(m) ==> Keys(r) == Keys(m) + [k]
  {
    if |m| == 0 then [(k, v)]
    else if m[0].0 == k then
      var r := [(k, v)] + m[1..];
      assert r[1..] == m[1..];
      r
    else
      var rest := Put(m[1..], k, v);
      var r := [m[0]] + rest;
      assert r[1..] == rest;
      assert Keys(r) == [m[0].0] + Keys(rest);
      assert Keys(m) == [m[0].0] + Keys(m[1..]);
      assert k in Keys(m) <==> k in Keys(m[1..]);
      r
  }

  /** After `m[k] = v`, looking up `k` gives `v` and every other key is unaffected. */
  lemma {:induction false} PutLookup<K(!new), V>(m: OrderedMap<K, V>, k: K, v: V, k': K)
    ensures Lookup(Put(m, k, v), k') == if k' == k then Some(v) else Lookup(m, k')
  {
    if |m| > 0 && m[0].0 != k {
      PutLookup(m[1..], k, v, k');
      assert Put(m, k, v)[1..] == Put(m[1..], k, v);
    }
  }

  /** Every pair after a write is the written one or was there before. */
  lemma {:induction false} PutPairs<K(!new), V>(m: OrderedMap<K, V>, k: K, v: V)
    ensures forall i :: 0 <= i < |Put(m, k, v)| ==> Put(m, k, v)[i] == (k, v) || Put(m, k, v)[i] in m
  {
    if |m| > 0 && m[0].0 != k {
      PutPairs(m[1..], k, v);
      var r := Put(m, k, v);
      forall i | 0 <= i < |r|
        ensures r[i] == (k, v) || r[i] in m
      {
        if i > 0 {
          assert r[i] == Put(m[1..], k, v)[i - 1];
        }
      }
    }
  }

  /** Writing a key never duplicates it. */
  lemma PutKeepsKeysDistinct<K(!new), V>(m: OrderedMap<K, V>, k: K, v: V)
    requires DistinctKeys(m)
    ensures DistinctKeys(Put(m, k, v))
  {
    var r := Put(m, k, v);
    var ks := Keys(r);
    if k in Keys(m) {
      assert ks == Keys(m);
    } else {
      assert ks == Keys(m) + [k];
    }
    forall i, j | 0 <= i < j < |r|
      ensures r[i].0 != r[j].0
    {
      assert ks[i] == r[i].0 && ks[j] == r[j].0;
      assert Keys(m)[i] == m[i].0;
      if j < |m| {
        assert Keys(m)[j] == m[j].0;
      }
    }
  }

  /** In a dict, the value at position `i` is what a lookup of its key returns. */
  lemma {:induction false} LookupAt<K, V>(m: OrderedMap<K, V>, i: int)
    requires DistinctKeys(m)
    requires 0 <= i < |m|
    ensures Lookup(m, m[i].0) == Some(m[i].1)
  {
    if i > 0 {
      assert m[0].0 != m[i].0;
      assert m[1..][i - 1] == m[i];
      LookupAt(m[1..], i - 1);
    }
  }

  /** Appending a pair adds its key at the end of the key order. */
  lemma {:induction false} KeysAppend<K, V>(m: OrderedMap<K, V>, p: (K, V))
    ensures Keys(m + [p]) == Keys(m) + [p.0]
  {
    if |m| > 0 {
      assert (m + [p])[1..] == m[1..] + [p];
      KeysAppend(m[1..], p);
    }
  }

  /** Appending a pair only answers lookups that `m` could not answer. */
  lemma {:induction false} LookupAppend<K, V>(m: OrderedMap<K, V>, p: (K, V), k: K)
    ensures Lookup(m + [p], k) == (if k in Keys(m) then Lookup(m, k) else if k == p.0 then Some(p.1) else None)
  {
    if |m| > 0 {
      assert (m + [p])[1..] == m[1..] + [p];
      LookupAppend(m[1..], p, k);
    }
  }

  /** In a dict, the last key is new with respect to the ones before it. */
  lemma DistinctKeysLast<K, V>(m: OrderedMap<K, V>, p: (K, V))
    requires DistinctKeys(m + [p])
    ensures DistinctKeys(m)
    ensures p.0 !in Keys(m)
  {
    var mp := m + [p];
    assert forall i :: 0 <= i < |m| ==> mp[i] == m[i];
    forall i | 0 <= i < |m|
      ensures Keys(m)[i] != p.0
    {
      assert mp[i] == m[i] && mp[|m|] == p;
    }
  }

  /** A dict that maps exactly one key, and maps it to `v`, is the one pair `(k, v)`. */
  lemma SingletonByLookup<K, V>(m: OrderedMap<K, V>, k: K, v: V)
    requires DistinctKeys(m)
    requires forall c :: Lookup(m, c) == if c == k then Some(v) else None
    ensures m == [(k, v)]
  {
    var ks := Keys(m);
    forall c
      ensures c in ks <==> c == k
    {
      assert Lookup(m, c).None? <==> c != k;
    }
    SingletonByMembers(ks, k);
    LookupAt(m, 0);
  }
}
