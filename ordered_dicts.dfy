/**
 * A Python dict whose iteration order matters, as the sequence of its
 * items in insertion order. Assigning to a present key updates its value
 * in place; assigning to a new key appends an item.
 */
module OrderedDicts {
  import opened Results
  import opened Ranking

  function Key<K, V>(e: (K, V)): K { e.0 }

  /** `d.get(k)` */
  function Get<K(==), V>(d: seq<(K, V)>, k: K): Option<V>
    decreases |d|
  {
    if |d| == 0 then None
    else if d[0].0 == k then Some(d[0].1)
    else Get(d[1..], k)
  }

  /** `d[k] = v` */
  function Put<K(==), V>(d: seq<(K, V)>, k: K, v: V): (r: seq<(K, V)>)
    ensures |r| == if Get(d, k).None? then |d| + 1 else |d|
    decreases |d|
  {
    if |d| == 0 then [(k, v)]
    else if d[0].0 == k then [(k, v)] + d[1..]
    else [d[0]] + Put(d[1..], k, v)
  }

  /** After `d[k] = v`, `k` maps to `v` and every other key to what it mapped to before. */
  lemma {:induction false} PutGet<K, V>(d: seq<(K, V)>, k: K, v: V, x: K)
    ensures Get(Put(d, k, v), x) == if x == k then Some(v) else Get(d, x)
    decreases |d|
  {
    if |d| > 0 && d[0].0 != k {
      PutGet(d[1..], k, v, x);
    }
  }

  /** The items after `d[k] = v` are `(k, v)` and items that were there before. */
  lemma {:induction false} PutMembers<K, V>(d: seq<(K, V)>, k: K, v: V)
    ensures forall e :: e in Put(d, k, v) ==> e == (k, v) || e in d
    decreases |d|
  {
    if |d| > 0 && d[0].0 != k {
      PutMembers(d[1..], k, v);
    }
  }

  /** Keys stay distinct under `d[k] = v`. */
  lemma {:induction false} PutDistinct<K, V>(d: seq<(K, V)>, k: K, v: V)
    requires DistinctBy(d, Key)
    ensures DistinctBy(Put(d, k, v), Key)
    decreases |d|
  {
    if |d| > 0 {
      var r := Put(d, k, v);
      if d[0].0 == k {
        forall i, j | 0 <= i < j < |r| ensures r[i].0 != r[j].0 {
          assert r[j] == d[j];
          if i > 0 {
            assert r[i] == d[i];
          } else {
            assert Key(d[0]) != Key(d[j]);
          }
        }
      } else {
        var tail := d[1..];
        assert DistinctBy(tail, Key);
        PutDistinct(tail, k, v);
        PutMembers(tail, k, v);
        var r' := Put(tail, k, v);
        forall i, j | 0 <= i < j < |r| ensures r[i].0 != r[j].0 {
          assert r[j] == r'[j - 1];
          if i > 0 {
            assert r[i] == r'[i - 1];
          } else if r[j] != (k, v) {
            assert r'[j - 1] in r';
            var m :| 0 <= m < |tail| && tail[m] == r[j];
            assert Key(d[0]) != Key(d[m + 1]);
          }
        }
      }
    }
  }

  /** With distinct keys an item is present exactly when its key maps to its value. */
  lemma {:induction false} GetMember<K, V>(d: seq<(K, V)>, e: (K, V))
    requires DistinctBy(d, Key)
    ensures e in d <==> Get(d, e.0) == Some(e.1)
    decreases |d|
  {
    if |d| > 0 {
      assert DistinctBy(d[1..], Key);
      GetMember(d[1..], e);
    }
  }
}
