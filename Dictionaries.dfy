/**
  The dictionaries the scene keeps its shapes and lights in (Dictionary<long, ...> in
  raylib/Scene.cs). A dictionary that is only ever added to is its entries in insertion
  order; Values enumerates them in that order and TryGetValue finds a key's entry.
 */
module Dictionaries {
  import opened Wrappers

  function Keys<V>(d: seq<(int, V)>): (r: seq<int>)
    ensures |r| == |d| && forall i :: 0 <= i < |d| ==> r[i] == d[i].0
  {
    seq(|d|, i requires 0 <= i < |d| => d[i].0)
  }

  /** Values: the stored values, in insertion order. */
  function Values<V>(d: seq<(int, V)>): (r: seq<V>)
    ensures |r| == |d| && forall i :: 0 <= i < |d| ==> r[i] == d[i].1
  {
    seq(|d|, i requires 0 <= i < |d| => d[i].1)
  }

  /** TryGetValue: the value stored under key, or None when no entry has that key. */
  function TryGetValue<V>(d: seq<(int, V)>, key: int): (r: Option<V>)
    ensures r.Some? <==> key in Keys(d)
    ensures r.Some? ==> (key, r.value) in d
  {
    if d == [] then None
    else
      assert Keys(d) == [d[0].0] + Keys(d[1..]);
      if d[0].0 == key then Some(d[0].1) else TryGetValue(d[1..], key)
  }

  /** The indexer's setter d[key] = v: overwrite the entry with that key in place, or append
      a new entry. */
  function Set<V>(d: seq<(int, V)>, key: int, v: V): (r: seq<(int, V)>)
    ensures TryGetValue(r, key) == Some(v)
    ensures forall k :: k != key ==> TryGetValue(r, k) == TryGetValue(d, k)
    ensures key !in Keys(d) ==> r == d + [(key, v)]
  {
    if d == [] then [(key, v)]
    else
      assert Keys(d) == [d[0].0] + Keys(d[1..]);
      if d[0].0 == key then [(key, v)] + d[1..]
      else
        var rest := Set(d[1..], key, v);
        assert ([d[0]] + rest)[1..] == rest;
        assert key !in Keys(d) ==> [d[0]] + (d[1..] + [(key, v)]) == d + [(key, v)];
        [d[0]] + rest
  }

  /** With distinct keys, TryGetValue returns the value of the entry holding the key. */
  lemma {:induction false} TryGetValueAt<V>(d: seq<(int, V)>, i: int)
    requires 0 <= i < |d|
    requires forall j :: 0 <= j < i ==> d[j].0 != d[i].0
    ensures TryGetValue(d, d[i].0) == Some(d[i].1)
  {
    if i > 0 {
      assert d[1..][i - 1] == d[i];
      TryGetValueAt(d[1..], i - 1);
    }
  }
}
