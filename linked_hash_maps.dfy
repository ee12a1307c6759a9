/**
 * java.util.LinkedHashMap in insertion order: an association list whose
 * keys are distinct, where `put` overwrites the value of a present key in
 * place and appends a new key at the end.
 */
module LinkedHashMaps {
  import opened Wrappers

  predicate Distinct<T(==)>(xs: seq<T>) {
    forall i, j :: 0 <= i < j < |xs| ==> xs[i] != xs[j]
  }

  /** The keys of an association list, in order. */
  function Keys<K, V>(es: seq<(K, V)>): seq<K> {
    seq(|es|, i requires 0 <= i < |es| => es[i].0)
  }

  /** `get`: the value of the first entry with key k, or null. */
  function Get<K(==), V>(es: seq<(K, V)>, k: K): (r: Option<V>)
    ensures r.Some? <==> k in Keys(es)
  {
    if es == [] then None
    else
      assert Keys(es) == [es[0].0] + Keys(es[1..]);
      if es[0].0 == k then Some(es[0].1) else Get(es[1..], k)
  }

  /** The entries after `put(k, v)`. */
  function AfterPut<K(==,!new), V>(es: seq<(K, V)>, k: K, v: V): (r: seq<(K, V)>)
    ensures k in Keys(es) ==> Keys(r) == Keys(es)
    ensures k !in Keys(es) ==> Keys(r) == Keys(es) + [k]
    ensures Get(r, k) == Some(v)
    ensures forall k' :: k' != k ==> Get(r, k') == Get(es, k')
  {
    if es == [] then [(k, v)]
    else
      assert Keys(es) == [es[0].0] + Keys(es[1..]);
      if es[0].0 == k then
        assert Keys([(k, v)] + es[1..]) == [k] + Keys(es[1..]);
        [(k, v)] + es[1..]
      else
        var tail := AfterPut(es[1..], k, v);
        assert Keys([es[0]] + tail) == [es[0].0] + Keys(tail);
        [es[0]] + tail
  }

  /** The index of the first occurrence of x in xs. */
  function FirstIndex<T(==)>(xs: seq<T>, x: T): (i: nat)
    requires x in xs
    ensures i < |xs| && xs[i] == x
    ensures forall j :: 0 <= j < i ==> xs[j] != x
  {
    if xs[0] == x then 0 else 1 + FirstIndex(xs[1..], x)
  }

  /** A distinct sequence has as many elements as its set. */
  lemma {:induction false} DistinctCardinality<T>(xs: seq<T>)
    requires Distinct(xs)
    ensures |set x | x in xs| == |xs|
  {
    if xs != [] {
      var init := xs[..|xs| - 1];
      assert Distinct(init);
      DistinctCardinality(init);
      assert (set x | x in xs) == (set x | x in init) + {xs[|xs| - 1]};
    }
  }

  class LinkedHashMap<K(==,!new), V> {
    var entries: seq<(K, V)>

    ghost predicate Valid()
      reads this
    {
      Distinct(Keys(entries))
    }

    /** `new LinkedHashMap<>()`. */
    constructor ()
      ensures Valid() && entries == []
    {
      entries := [];
    }

    /** `put(k, v)`. */
    method Put(k: K, v: V)
      requires Valid()
      modifies this
      ensures Valid()
      ensures entries == AfterPut(old(entries), k, v)
    {
      entries := AfterPut(entries, k, v);
    }
  }
}
