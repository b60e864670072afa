/**
 * Listing the keys or values of a hash map. Rust's `HashMap` iterates
 * in an unspecified order, so the listing below picks keys in any
 * order; what is fixed is that every entry is listed exactly once.
 */
module Listing {

  predicate Distinct<T(==)>(s: seq<T>) {
    forall i, j :: 0 <= i < j < |s| ==> s[i] != s[j]
  }

  /** `map.keys().collect()`: every key once, in some order. */
  method Keys<K, V>(m: map<K, V>) returns (ks: seq<K>)
    ensures |ks| == |m|
    ensures Distinct(ks)
    ensures forall k :: k in ks <==> k in m
  {
    ks := [];
    var rest := m;
    while rest != map[]
      invariant rest.Keys !! set k | k in ks
      invariant forall k :: k in m <==> k in rest || k in ks
      invariant forall k :: k in rest ==> k in m
      invariant Distinct(ks)
      invariant |ks| + |rest| == |m|
      decreases |rest|
    {
      var k :| k in rest;
      ks := ks + [k];
      rest := rest - {k};
    }
  }

  /**
   * `map.values().collect()`: the value of every key once, following a
   * key order `order` that is chosen by the map.
   */
  method Values<K, V>(m: map<K, V>) returns (vs: seq<V>, ghost order: seq<K>)
    ensures |vs| == |order| == |m|
    ensures Distinct(order)
    ensures forall k :: k in order <==> k in m
    ensures forall i :: 0 <= i < |vs| ==> order[i] in m && vs[i] == m[order[i]]
  {
    var ks := Keys(m);
    order := ks;
    vs := [];
    var i := 0;
    while i < |ks|
      invariant 0 <= i <= |ks|
      invariant |vs| == i
      invariant forall j :: 0 <= j < i ==> vs[j] == m[ks[j]]
    {
      vs := vs + [m[ks[i]]];
      i := i + 1;
    }
  }
}
