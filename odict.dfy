/** Python 3 dictionaries keep their keys in insertion order, and several
    scripts print or iterate them in that order. A dictionary is modelled as
    an association list with distinct keys: `d[k] = v` replaces the value in
    place for a key already present and appends a new key at the end. */
module ODict {
  import opened Py

  type Dict<K, V> = seq<(K, V)>

  /** The keys of `d`, in insertion order. */
  function Keys<K, V>(d: Dict<K, V>): (r: seq<K>)
    ensures |r| == |d|
    ensures forall i :: 0 <= i < |d| ==> r[i] == d[i].0
  {
    seq(|d|, i requires 0 <= i < |d| => d[i].0)
  }

  /** The values of `d`, in insertion order. */
  function Values<K, V>(d: Dict<K, V>): (r: seq<V>)
    ensures |r| == |d|
    ensures forall i :: 0 <= i < |d| ==> r[i] == d[i].1
  {
    seq(|d|, i requires 0 <= i < |d| => d[i].1)
  }

  predicate DistinctKeys<K(==), V>(d: Dict<K, V>)
  {
    forall i, j :: 0 <= i < j < |d| ==> d[i].0 != d[j].0
  }

  /** `d.get(k)`: the value stored under `k`, if any. */
  function Get<K(==), V>(d: Dict<K, V>, k: K): Option<V>
    decreases |d|
  {
    if |d| == 0 then None
    else if d[0].0 == k then Some(d[0].1)
    else Get(d[1..], k)
  }

  /** A key has a value exactly when it is one of the keys, and the value
      is the one paired with it. */
  lemma {:induction false} GetMeaning<K, V>(d: Dict<K, V>, k: K)
    ensures Get(d, k).Some? <==> k in Keys(d)
    ensures Get(d, k).Some? ==> exists i :: 0 <= i < |d| && d[i] == (k, Get(d, k).value)
    decreases |d|
  {
    if |d| > 0 && d[0].0 != k {
      GetMeaning(d[1..], k);
      assert Keys(d) == [d[0].0] + Keys(d[1..]);
      if Get(d, k).Some? {
        var i :| 0 <= i < |d[1..]| && d[1..][i] == (k, Get(d, k).value);
        assert d[i + 1] == d[1..][i];
      }
    }
  }

  /** `d[k] = v`. */
  function Set<K(==), V>(d: Dict<K, V>, k: K, v: V): Dict<K, V>
    decreases |d|
  {
    if |d| == 0 then [(k, v)]
    else if d[0].0 == k then [(k, v)] + d[1..]
    else [d[0]] + Set(d[1..], k, v)
  }

  /** Setting a key present keeps the keys; a new key is appended. */
  lemma {:induction false} SetKeys<K, V>(d: Dict<K, V>, k: K, v: V)
    ensures Keys(Set(d, k, v)) == if k in Keys(d) then Keys(d) else Keys(d) + [k]
    decreases |d|
  {
    if |d| > 0 {
      assert Keys(d) == [d[0].0] + Keys(d[1..]);
      if d[0].0 == k {
        assert Keys(Set(d, k, v)) == [k] + Keys(d[1..]);
      } else {
        SetKeys(d[1..], k, v);
        assert Keys(Set(d, k, v)) == [d[0].0] + Keys(Set(d[1..], k, v));
      }
    }
  }

  lemma {:induction false} GetSetSame<K, V>(d: Dict<K, V>, k: K, v: V)
    ensures Get(Set(d, k, v), k) == Some(v)
    decreases |d|
  {
    if |d| > 0 && d[0].0 != k {
      GetSetSame(d[1..], k, v);
    }
  }

  lemma {:induction false} GetSetOther<K, V>(d: Dict<K, V>, k: K, v: V, k': K)
    requires k' != k
    ensures Get(Set(d, k, v), k') == Get(d, k')
    decreases |d|
  {
    if |d| > 0 && d[0].0 != k {
      GetSetOther(d[1..], k, v, k');
    }
  }

  /** A second `d[k] = w` overrides the first and keeps its position. */
  lemma {:induction false} SetTwice<K, V>(d: Dict<K, V>, k: K, v: V, w: V)
    ensures Set(Set(d, k, v), k, w) == Set(d, k, w)
    decreases |d|
  {
    if |d| > 0 && d[0].0 != k {
      SetTwice(d[1..], k, v, w);
      assert Set(d, k, v)[1..] == Set(d[1..], k, v);
    }
  }

  /** Storing the value a key already has changes nothing. */
  lemma {:induction false} SetGet<K, V>(d: Dict<K, V>, k: K, v: V)
    requires Get(d, k) == Some(v)
    ensures Set(d, k, v) == d
    decreases |d|
  {
    if d[0].0 == k {
      assert d == [(k, v)] + d[1..];
    } else {
      SetGet(d[1..], k, v);
      assert d == [d[0]] + d[1..];
    }
  }

  lemma SetDistinct<K, V>(d: Dict<K, V>, k: K, v: V)
    requires DistinctKeys(d)
    ensures DistinctKeys(Set(d, k, v))
  {
    var r := Set(d, k, v);
    SetKeys(d, k, v);
    forall i, j | 0 <= i < j < |r| ensures r[i].0 != r[j].0 {
      assert r[i].0 == Keys(r)[i] && r[j].0 == Keys(r)[j];
      if j == |d| {
        assert k !in Keys(d);
        assert Keys(r)[i] == Keys(d)[i];
      }
    }
  }

  /** Setting a new key appends it at the end, as dict insertion order does. */
  lemma {:induction false} SetAppends<K, V>(d: Dict<K, V>, k: K, v: V)
    requires k !in Keys(d)
    ensures Set(d, k, v) == d + [(k, v)]
    decreases |d|
  {
    if |d| > 0 {
      assert Keys(d) == [d[0].0] + Keys(d[1..]);
      SetAppends(d[1..], k, v);
      assert d == [d[0]] + d[1..];
    }
  }

  /** Builds a dictionary from key/value pairs, later pairs overwriting
      earlier ones, as `dict(pairs)` and a dict comprehension do. */
  function FromPairs<K(==), V>(pairs: seq<(K, V)>): (r: Dict<K, V>)
    decreases |pairs|
  {
    if |pairs| == 0 then []
    else
      var p := pairs[|pairs| - 1];
      Set(FromPairs(pairs[..|pairs| - 1]), p.0, p.1)
  }

  lemma {:induction false} FromPairsDistinct<K, V>(pairs: seq<(K, V)>)
    ensures DistinctKeys(FromPairs(pairs))
    decreases |pairs|
  {
    if |pairs| > 0 {
      var p := pairs[|pairs| - 1];
      FromPairsDistinct(pairs[..|pairs| - 1]);
      SetDistinct(FromPairs(pairs[..|pairs| - 1]), p.0, p.1);
    }
  }

  /** The value stored for a key by `FromPairs` is the one in the last pair
      carrying that key. */
  lemma {:induction false} FromPairsLastWins<K, V>(pairs: seq<(K, V)>, i: nat)
    requires i < |pairs|
    requires forall j :: i < j < |pairs| ==> pairs[j].0 != pairs[i].0
    ensures Get(FromPairs(pairs), pairs[i].0) == Some(pairs[i].1)
    decreases |pairs|
  {
    var p := pairs[|pairs| - 1];
    var front := FromPairs(pairs[..|pairs| - 1]);
    if i < |pairs| - 1 {
      FromPairsLastWins(pairs[..|pairs| - 1], i);
      GetSetOther(front, p.0, p.1, pairs[i].0);
    } else {
      GetSetSame(front, p.0, p.1);
    }
  }

  /** A key absent from every pair is absent from the dictionary. */
  lemma {:induction false} FromPairsAbsent<K, V>(pairs: seq<(K, V)>, k: K)
    requires forall j :: 0 <= j < |pairs| ==> pairs[j].0 != k
    ensures Get(FromPairs(pairs), k) == None
    decreases |pairs|
  {
    if |pairs| > 0 {
      var p := pairs[|pairs| - 1];
      FromPairsAbsent(pairs[..|pairs| - 1], k);
      GetSetOther(FromPairs(pairs[..|pairs| - 1]), p.0, p.1, k);
    }
  }
}
