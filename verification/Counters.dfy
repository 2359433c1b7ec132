/** Counters: dictionaries that count how often each key was seen. */
module Counters {
  import opened Wrappers
  import opened OrderedDict

  type Counter<!K> = Dict<K, int>

  /** How often a key was seen. */
  function Count<K(==)>(c: Counter<K>, key: K): int {
    GetOr(c, key, 0)
  }

  function Bump<K(==)>(c: Counter<K>, key: K): Counter<K> {
    Put(c, key, Count(c, key) + 1)
  }

  /** The counter of a sequence of keys. */
  function Tally<K(==)>(keys: seq<K>): Counter<K> {
    if keys == [] then []
    else
      var n := |keys| - 1;
      Bump(Tally(keys[..n]), keys[n])
  }

  function Occurrences<K(==)>(keys: seq<K>, key: K): nat {
    if keys == [] then 0
    else
      var n := |keys| - 1;
      Occurrences(keys[..n], key) + (if keys[n] == key then 1 else 0)
  }

  function Total<K>(c: Counter<K>): int {
    if c == [] then 0 else c[0].1 + Total(c[1..])
  }

  /** A counter tells, once for each key that was seen, how often it was seen. */
  lemma {:induction false} TallyCounts<K>(keys: seq<K>, key: K)
    ensures Get(Tally(keys), key) == if Occurrences(keys, key) == 0 then None else Some(Occurrences(keys, key))
  {
    if keys != [] {
      var n := |keys| - 1;
      var c := Tally(keys[..n]);
      TallyCounts(keys[..n], key);
      PutGet(c, keys[n], Count(c, keys[n]) + 1, key);
    }
  }

  lemma {:induction false} TallyIsDistinct<K>(keys: seq<K>)
    ensures Distinct(Tally(keys))
  {
    if keys != [] {
      var n := |keys| - 1;
      var c := Tally(keys[..n]);
      TallyIsDistinct(keys[..n]);
      PutKeys(c, keys[n], Count(c, keys[n]) + 1);
    }
  }

  lemma {:induction false} TotalOfPut<K>(c: Counter<K>, key: K, value: int)
    ensures Total(Put(c, key, value)) == Total(c) - Count(c, key) + value
  {
    if c != [] {
      var c' := Put(c, key, value);
      if c[0].0 == key {
        assert c'[1..] == c[1..];
      } else {
        assert c'[1..] == Put(c[1..], key, value);
        TotalOfPut(c[1..], key, value);
      }
    }
  }

  /** Nothing is lost and nothing is counted twice. */
  lemma {:induction false} TallyConserves<K>(keys: seq<K>)
    ensures Total(Tally(keys)) == |keys|
  {
    if keys != [] {
      var n := |keys| - 1;
      var c := Tally(keys[..n]);
      TallyConserves(keys[..n]);
      TotalOfPut(c, keys[n], Count(c, keys[n]) + 1);
    }
  }

  lemma {:induction false} OccurrencesOfSum<K>(a: seq<K>, b: seq<K>, key: K)
    ensures Occurrences(a + b, key) == Occurrences(a, key) + Occurrences(b, key)
  {
    if b == [] {
      assert a + b == a;
    } else {
      var n := |b| - 1;
      assert (a + b)[..|a| + n] == a + b[..n];
      OccurrencesOfSum(a, b[..n], key);
    }
  }

  lemma {:induction false} NoOccurrence<K>(keys: seq<K>, key: K)
    ensures Occurrences(keys, key) == 0 <==> key !in keys
  {
    if keys != [] {
      var n := |keys| - 1;
      assert keys == keys[..n] + [keys[n]];
      NoOccurrence(keys[..n], key);
    }
  }

  lemma {:induction false} TallyHolds<K>(keys: seq<K>, key: K, value: int)
    ensures (key, value) in Tally(keys) <==> value == Occurrences(keys, key) > 0
  {
    TallyIsDistinct(keys);
    TallyCounts(keys, key);
    GetIsMember(Tally(keys), key);
  }
}
