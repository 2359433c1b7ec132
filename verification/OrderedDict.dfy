/**
 A dictionary that keeps its keys in the order in which they came, as those of
 Python do: a sequence of pairs with distinct keys.
 */
module OrderedDict {
  import opened Wrappers

  type Dict<!K, !V> = seq<(K, V)>

  ghost predicate Distinct<K, V>(d: Dict<K, V>) {
    forall i, j | 0 <= i < j < |d| :: d[i].0 != d[j].0
  }

  function Keys<K(==), V>(d: Dict<K, V>): set<K> {
    set i | 0 <= i < |d| :: d[i].0
  }

  function Get<K(==), V>(d: Dict<K, V>, key: K): Option<V> {
    if d == [] then None
    else if d[0].0 == key then Some(d[0].1)
    else Get(d[1..], key)
  }

  function GetOr<K(==), V>(d: Dict<K, V>, key: K, default: V): V {
    var v := Get(d, key);
    if v.Some? then v.value else default
  }

  /** Sets the value of a key in place, or appends the key. */
  function Put<K(==), V>(d: Dict<K, V>, key: K, value: V): Dict<K, V> {
    if d == [] then [(key, value)]
    else if d[0].0 == key then [(key, value)] + d[1..]
    else [d[0]] + Put(d[1..], key, value)
  }

  lemma {:induction false} GetIsMember<K, V>(d: Dict<K, V>, key: K)
    ensures Get(d, key).Some? <==> key in Keys(d)
    ensures Distinct(d) ==> forall v :: (key, v) in d <==> Get(d, key) == Some(v)
  {
    if d != [] {
      GetIsMember(d[1..], key);
      assert d == [d[0]] + d[1..];
      KeysOfCons(d[0], d[1..]);
      if Distinct(d) && d[0].0 == key {
        assert forall i | 0 < i < |d| :: d[i].0 != key;
      }
    }
  }

  lemma {:induction false} PutKeys<K, V>(d: Dict<K, V>, key: K, value: V)
    requires Distinct(d)
    ensures Distinct(Put(d, key, value))
    ensures Keys(Put(d, key, value)) == Keys(d) + {key}
  {
    if d == [] {
      KeysOfCons((key, value), d);
    } else {
      var d' := Put(d, key, value);
      KeysOfCons(d[0], d[1..]);
      if d[0].0 == key {
        KeysOfCons((key, value), d[1..]);
        assert forall i | 0 < i < |d'| :: d'[i] == d[i];
      } else {
        PutKeys(d[1..], key, value);
        var rest := Put(d[1..], key, value);
        KeysOfCons(d[0], rest);
        assert d[0].0 !in Keys(d[1..]);
        forall i | 0 < i < |d'|
          ensures d'[i].0 != d[0].0
        {
          assert rest[i - 1].0 in Keys(rest);
        }
      }
    }
  }

  lemma {:induction false} KeysOfCons<K, V>(e: (K, V), d: Dict<K, V>)
    ensures Keys([e] + d) == {e.0} + Keys(d)
    ensures d == ([e] + d)[1..]
  {
    forall k | k in Keys(d)
      ensures k in Keys([e] + d)
    {
      var i :| 0 <= i < |d| && d[i].0 == k;
      assert ([e] + d)[i + 1].0 == k;
    }
    assert ([e] + d)[0].0 == e.0;
  }

  /** What was put is found again, and nothing else changes. */
  lemma {:induction false} PutGet<K, V>(d: Dict<K, V>, key: K, value: V, other: K)
    ensures Get(Put(d, key, value), other) == if other == key then Some(value) else Get(d, other)
  {
    if d != [] {
      var d' := Put(d, key, value);
      if d[0].0 == key {
        assert d'[1..] == d[1..];
      } else {
        assert d'[1..] == Put(d[1..], key, value);
        PutGet(d[1..], key, value, other);
      }
    }
  }

  /** The dictionary of a sequence of pairs: later pairs replace earlier values in place. */
  function FromPairs<K(==), V>(pairs: seq<(K, V)>): Dict<K, V> {
    if pairs == [] then []
    else
      var n := |pairs| - 1;
      Put(FromPairs(pairs[..n]), pairs[n].0, pairs[n].1)
  }

  /** The last value that the pairs give for a key. */
  function LastValue<K(==), V>(pairs: seq<(K, V)>, key: K): Option<V> {
    if pairs == [] then None
    else
      var n := |pairs| - 1;
      if pairs[n].0 == key then Some(pairs[n].1) else LastValue(pairs[..n], key)
  }

  lemma {:induction false} FromPairsIsLast<K, V>(pairs: seq<(K, V)>, key: K)
    ensures Distinct(FromPairs(pairs))
    ensures Get(FromPairs(pairs), key) == LastValue(pairs, key)
    ensures Keys(FromPairs(pairs)) == Keys(pairs)
  {
    if pairs != [] {
      var n := |pairs| - 1;
      FromPairsIsLast(pairs[..n], key);
      PutKeys(FromPairs(pairs[..n]), pairs[n].0, pairs[n].1);
      PutGet(FromPairs(pairs[..n]), pairs[n].0, pairs[n].1, key);
      assert pairs == pairs[..n] + [pairs[n]];
      assert Keys(pairs) == Keys(pairs[..n]) + {pairs[n].0} by {
        forall k | k in Keys(pairs[..n])
          ensures k in Keys(pairs)
        {
          var i :| 0 <= i < n && pairs[..n][i].0 == k;
          assert pairs[i].0 == k;
        }
        assert pairs[n].0 in Keys(pairs);
        forall i | 0 <= i < n
          ensures pairs[i].0 in Keys(pairs[..n])
        {
          assert pairs[..n][i] == pairs[i];
        }
      }
    }
  }
}
