/**
 * Insertion-ordered maps. The Java sources iterate over HashMaps whose order
 * depends on hashing; the model fixes that order explicitly by keeping a map as
 * the sequence of its entries, in the order in which keys were first put. A
 * put on a present key overwrites the entry where it stands.
 */
module OrderedMaps {
  import opened Wrappers

  type OrderedMap<K, V> = seq<(K, V)>

  /** The keys, in iteration order. */
  function Keys<K(==), V>(m: OrderedMap<K, V>): (ks: seq<K>)
    ensures |ks| == |m|
    ensures forall i :: 0 <= i < |m| ==> ks[i] == m[i].0
  {
    seq(|m|, i requires 0 <= i < |m| => m[i].0)
  }

  /** No key occurs twice (every map built with Put has this property). */
  predicate Distinct<K(==), V>(m: OrderedMap<K, V>)
  {
    forall i, j :: 0 <= i < j < |m| ==> m[i].0 != m[j].0
  }

  /** The position of the first occurrence of k in ks, or |ks| when it does not occur. */
  function Find<K(==)>(ks: seq<K>, k: K): (i: nat)
    ensures i <= |ks|
    ensures forall j :: 0 <= j < i ==> ks[j] != k
    ensures i < |ks| ==> ks[i] == k
  {
    if ks == [] then 0
    else if ks[0] == k then 0
    else
      var i := Find(ks[1..], k);
      assert forall j :: 1 <= j < |ks| ==> ks[j] == ks[1..][j - 1];
      1 + i
  }

  /** The first-occurrence property determines the position. */
  lemma FindUnique<K>(ks: seq<K>, k: K, i: nat)
    requires i <= |ks|
    requires forall j :: 0 <= j < i ==> ks[j] != k
    requires i < |ks| ==> ks[i] == k
    ensures Find(ks, k) == i
  {
  }

  /** Appending a key leaves every earlier position in place. */
  lemma FindAppend<K(!new)>(ks: seq<K>, x: K)
    ensures forall k ::
      Find(ks + [x], k) == (if Find(ks, k) < |ks| then Find(ks, k) else if x == k then |ks| else |ks| + 1)
  {
    forall k
      ensures Find(ks + [x], k) == (if Find(ks, k) < |ks| then Find(ks, k) else if x == k then |ks| else |ks| + 1)
    {
      var ks' := ks + [x];
      assert forall j :: 0 <= j < |ks| ==> ks'[j] == ks[j];
      FindUnique(ks', k, if Find(ks, k) < |ks| then Find(ks, k) else if x == k then |ks| else |ks| + 1);
    }
  }

  /** Java's get: the value of the key, or None (null) when it is absent. */
  function Get<K(==), V>(m: OrderedMap<K, V>, k: K): (r: Option<V>)
    ensures r.None? <==> forall i :: 0 <= i < |m| ==> m[i].0 != k
    ensures r.Some? ==> exists i :: 0 <= i < |m| && m[i] == (k, r.value)
    ensures Distinct(m) ==> forall i :: 0 <= i < |m| && m[i].0 == k ==> r == Some(m[i].1)
  {
    var i := Find(Keys(m), k);
    if i < |m| then Some(m[i].1) else None
  }

  /** Java's put: overwrite the entry of a present key in place, or append a new one. */
  function Put<K(==,!new), V>(m: OrderedMap<K, V>, k: K, v: V): (r: OrderedMap<K, V>)
    ensures forall k' :: Get(r, k') == if k' == k then Some(v) else Get(m, k')
    ensures k in Keys(m) ==> Keys(r) == Keys(m)
    ensures k !in Keys(m) ==> Keys(r) == Keys(m) + [k]
    ensures Distinct(m) ==> Distinct(r)
  {
    var ks := Keys(m);
    var i := Find(ks, k);
    if i < |m| then
      var r := m[i := (k, v)];
      assert Keys(r) == ks;
      r
    else
      var r := m + [(k, v)];
      assert Keys(r) == ks + [k];
      FindAppend(ks, k);
      r
  }

  /** Every entry of a map after a put is the new one or was there before. */
  lemma PutEntries<K(!new), V>(m: OrderedMap<K, V>, k: K, v: V)
    ensures forall i :: 0 <= i < |Put(m, k, v)| ==> Put(m, k, v)[i] == (k, v) || Put(m, k, v)[i] in m
  {
  }

  /** The sum of the values (Java's summing loop over an inner map of doubles). */
  function SumValues<K>(m: OrderedMap<K, real>): real
  {
    if m == [] then 0.0 else SumValues(m[..|m| - 1]) + m[|m| - 1].1
  }
}
