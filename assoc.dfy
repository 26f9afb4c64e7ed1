/**
 * An insertion-ordered dictionary: what a JavaScript `Map`, or a plain object
 * used as a dictionary, holds. Keys keep the position of their first
 * insertion; assigning to an existing key changes its value in place.
 */
module Assoc {
  import opened Base

  type Assoc<K(==,!new), V> = seq<(K, V)>

  /** The keys in iteration order. */
  function Keys<K(==,!new), V>(a: Assoc<K, V>): (ks: seq<K>)
    ensures |ks| == |a|
    ensures forall i :: 0 <= i < |a| ==> ks[i] == a[i].0
  {
    if a == [] then [] else [a[0].0] + Keys(a[1..])
  }

  /** No key occurs twice, as in every Map or object. */
  predicate DistinctKeys<K(==,!new), V>(a: Assoc<K, V>) {
    forall i, j :: 0 <= i < j < |a| ==> a[i].0 != a[j].0
  }

  /** `m.get(k)` / `o[k]`: the value stored under `k`, if any. */
  function Get<K(==,!new), V>(a: Assoc<K, V>, k: K): (r: Option<V>)
    ensures r.None? <==> k !in Keys(a)
  {
    if a == [] then None
    else if a[0].0 == k then Some(a[0].1)
    else
      assert Keys(a) == [a[0].0] + Keys(a[1..]);
      Get(a[1..], k)
  }

  /** `m.set(k, v)` / `o[k] = v`. */
  function Put<K(==,!new), V>(a: Assoc<K, V>, k: K, v: V): (r: Assoc<K, V>)
    ensures Get(r, k) == Some(v)
    ensures forall k' :: k' != k ==> Get(r, k') == Get(a, k')
    ensures k in Keys(a) ==> Keys(r) == Keys(a)
    ensures DistinctKeys(a) ==> DistinctKeys(r)
  {
    if a == [] then [(k, v)]
    else if a[0].0 == k then
      assert Keys(a) == [k] + Keys(a[1..]);
      assert Keys([(k, v)] + a[1..]) == [k] + Keys(a[1..]);
      [(k, v)] + a[1..]
    else
      var rest := Put(a[1..], k, v);
      assert Keys(a) == [a[0].0] + Keys(a[1..]);
      assert Get(rest, a[0].0) == Get(a[1..], a[0].0);
      assert DistinctKeys(a) ==> a[0].0 !in Keys(a[1..]);
      DistinctCons(a[0], rest);
      [a[0]] + rest
  }

  /** Setting a new key appends it at the end of the iteration order. */
  lemma {:induction false} PutNew<K(!new), V>(a: Assoc<K, V>, k: K, v: V)
    requires k !in Keys(a)
    ensures Put(a, k, v) == a + [(k, v)]
  {
    if a != [] {
      var t := a + [(k, v)];
      assert t == [a[0]] + (a[1..] + [(k, v)]);
      assert a[0].0 == Keys(a)[0] && Keys(a[1..]) == Keys(a)[1..];
      PutNew(a[1..], k, v);
    }
  }

  /** A key not among the others keeps the keys distinct when it goes in front. */
  lemma DistinctCons<K(!new), V>(x: (K, V), rest: Assoc<K, V>)
    ensures DistinctKeys(rest) && x.0 !in Keys(rest) ==> DistinctKeys([x] + rest)
  {
    var r := [x] + rest;
    if DistinctKeys(rest) && x.0 !in Keys(rest) {
      forall i, j | 0 <= i < j < |r|
        ensures r[i].0 != r[j].0
      {
        if i == 0 {
          assert r[j] == rest[j - 1];
        }
      }
    }
  }

  /** `m.delete(k)`. */
  function Remove<K(==,!new), V>(a: Assoc<K, V>, k: K): (r: Assoc<K, V>)
    ensures Get(r, k) == None
    ensures forall k' :: k' != k ==> Get(r, k') == Get(a, k')
    ensures k !in Keys(a) ==> r == a
    ensures DistinctKeys(a) ==> DistinctKeys(r)
  {
    if a == [] then []
    else if a[0].0 == k then Remove(a[1..], k)
    else
      var rest := Remove(a[1..], k);
      assert Keys(a) == [a[0].0] + Keys(a[1..]);
      assert DistinctKeys(a) ==> a[0].0 !in Keys(a[1..]) && Get(rest, a[0].0).None?;
      DistinctCons(a[0], rest);
      [a[0]] + rest
  }

  /** With distinct keys, every stored pair is what a lookup of its key finds. */
  lemma {:induction false} GetAt<K(!new), V>(a: Assoc<K, V>, i: nat)
    requires DistinctKeys(a) && i < |a|
    ensures Get(a, a[i].0) == Some(a[i].1)
  {
    if i > 0 {
      GetAt(a[1..], i - 1);
    }
  }

  /** Looking up in a map extended at the end: earlier keys win, the new key is found last. */
  lemma {:induction false} GetSnoc<K(!new), V>(a: Assoc<K, V>, k: K, v: V, k': K)
    ensures Get(a + [(k, v)], k') == if k' in Keys(a) then Get(a, k') else if k == k' then Some(v) else None
  {
    if a != [] {
      assert (a + [(k, v)])[1..] == a[1..] + [(k, v)];
      assert Keys(a) == [a[0].0] + Keys(a[1..]);
      GetSnoc(a[1..], k, v, k');
    }
  }
}
