/** A Python `dict`: a finite map that also remembers the order in which its keys were
    first inserted. Iteration follows that order; assigning to an existing key keeps its
    position, assigning to a new key puts it last, and `del` drops the key from the order. */
module Dicts {

  datatype Dict<K, V> = Dict(order: seq<K>, entries: map<K, V>) {

    /** The order lists every key of the map exactly once. */
    predicate Valid() {
      && Distinct(order)
      && (forall k :: k in order ==> k in entries)
      && (forall k :: k in entries ==> k in order)
    }
  }

  predicate Distinct<K(==)>(s: seq<K>) {
    forall i, j :: 0 <= i < j < |s| ==> s[i] != s[j]
  }

  function Empty<K, V>(): Dict<K, V> {
    Dict([], map[])
  }

  /** `d[k] = v` */
  function Put<K, V>(d: Dict<K, V>, k: K, v: V): (r: Dict<K, V>)
    requires d.Valid()
    ensures r.Valid()
    ensures r.entries == d.entries[k := v]
    ensures k in d.entries ==> r.order == d.order
    ensures k !in d.entries ==> r.order == d.order + [k]
  {
    if k in d.entries then Dict(d.order, d.entries[k := v])
    else Dict(d.order + [k], d.entries[k := v])
  }

  /** `s` with every occurrence of `k` removed, the rest in order. */
  function Without<K(==)>(s: seq<K>, k: K): (r: seq<K>)
    ensures forall x :: x in r ==> x in s && x != k
    ensures forall x :: x in s && x != k ==> x in r
    ensures Distinct(s) ==> Distinct(r)
    ensures k !in s ==> r == s
  {
    if s == [] then []
    else
      var w := Without(s[..|s| - 1], k);
      assert Distinct(s) ==> s[|s| - 1] !in s[..|s| - 1];
      if s[|s| - 1] == k then w else w + [s[|s| - 1]]
  }

  /** `if k in d: del d[k]` */
  function Delete<K, V>(d: Dict<K, V>, k: K): (r: Dict<K, V>)
    requires d.Valid()
    ensures r.Valid()
    ensures r.entries == d.entries - {k}
    ensures k !in d.entries ==> r == d
  {
    Dict(Without(d.order, k), d.entries - {k})
  }

  /** A valid dict has as many keys in its order as in its map. */
  lemma {:induction false} DistinctCardinality<K, V>(d: Dict<K, V>)
    requires d.Valid()
    ensures |d.order| == |d.entries|
  {
    DistinctSeqCardinality(d.order);
    assert (set k | k in d.order) == d.entries.Keys;
  }

  lemma {:induction false} DistinctSeqCardinality<K>(s: seq<K>)
    requires Distinct(s)
    ensures |set k | k in s| == |s|
  {
    if s != [] {
      var init := s[..|s| - 1];
      DistinctSeqCardinality(init);
      assert (set k | k in s) == (set k | k in init) + {s[|s| - 1]};
    }
  }
}
