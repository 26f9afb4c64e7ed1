/**
 * `Array.prototype.sort(compare)`, which is stable: a comparator returns a
 * negative number when its first argument goes first. The model applies the
 * comparator itself through a stable insertion sort; when the comparator
 * agrees with a sort key, the result is ordered by that key.
 */
module Sorting {
  import Seqs

  /** A sort key, compared lexicographically. */
  type Key = (int, int, int)

  predicate KeyLe(x: Key, y: Key) {
    x.0 < y.0 || (x.0 == y.0 && (x.1 < y.1 || (x.1 == y.1 && x.2 <= y.2)))
  }

  /** -1, 0 or 1 as `x` sorts before, level with, or after `y`. */
  function KeyCmp(x: Key, y: Key): int {
    if x == y then 0 else if KeyLe(x, y) then -1 else 1
  }

  function Sign(n: int): int {
    if n < 0 then -1 else if n == 0 then 0 else 1
  }

  /** Places `x` in front of the first element it does not sort after. */
  function Insert<T>(x: T, s: seq<T>, cmp: (T, T) -> int): (r: seq<T>)
    ensures multiset(r) == multiset(s) + multiset{x}
  {
    if s == [] then [x]
    else if cmp(x, s[0]) <= 0 then [x] + s
    else
      assert s == [s[0]] + s[1..];
      [s[0]] + Insert(x, s[1..], cmp)
  }

  /** The result of `s.sort(cmp)`: a permutation of `s`. */
  function Sort<T>(s: seq<T>, cmp: (T, T) -> int): (r: seq<T>)
    ensures multiset(r) == multiset(s)
  {
    if s == [] then []
    else
      assert s == [s[0]] + s[1..];
      Insert(s[0], Sort(s[1..], cmp), cmp)
  }

  ghost predicate SortedByKey<T>(s: seq<T>, key: T -> Key) {
    forall i, j :: 0 <= i < j < |s| ==> KeyLe(key(s[i]), key(s[j]))
  }

  /** On the values of `xs`, the comparator's sign is that of the key comparison. */
  ghost predicate AgreesWithKey<T(!new)>(cmp: (T, T) -> int, key: T -> Key, xs: multiset<T>) {
    forall a, b :: a in xs && b in xs ==> Sign(cmp(a, b)) == KeyCmp(key(a), key(b))
  }

  lemma {:induction false} InsertSorted<T(!new)>(x: T, s: seq<T>, cmp: (T, T) -> int, key: T -> Key)
    requires SortedByKey(s, key)
    requires AgreesWithKey(cmp, key, multiset(s) + multiset{x})
    ensures SortedByKey(Insert(x, s, cmp), key)
  {
    if s != [] {
      assert x in multiset(s) + multiset{x} && s[0] in multiset(s) + multiset{x};
      if cmp(x, s[0]) <= 0 {
        ConsSorted(x, s, key);
      } else {
        var tail := s[1..];
        assert s == [s[0]] + tail;
        assert multiset(tail) + multiset{x} <= multiset(s) + multiset{x};
        InsertSorted(x, tail, cmp, key);
        var r := Insert(x, tail, cmp);
        assert r[0] == x || r[0] == tail[0];
        ConsSorted(s[0], r, key);
      }
    }
  }

  /** An element no greater than the head of a sorted sequence can go in front of it. */
  lemma ConsSorted<T>(x: T, s: seq<T>, key: T -> Key)
    requires SortedByKey(s, key)
    requires s != [] ==> KeyLe(key(x), key(s[0]))
    ensures SortedByKey([x] + s, key)
  {
    var r := [x] + s;
    forall i, j | 0 <= i < j < |r|
      ensures KeyLe(key(r[i]), key(r[j]))
    {
      if i == 0 && j > 1 {
        assert KeyLe(key(s[0]), key(s[j - 1]));
      }
    }
  }

  /** A comparator that agrees with a key sorts by that key. */
  lemma {:induction false} SortSorted<T(!new)>(s: seq<T>, cmp: (T, T) -> int, key: T -> Key)
    requires AgreesWithKey(cmp, key, multiset(s))
    ensures SortedByKey(Sort(s, cmp), key)
  {
    if s != [] {
      assert s == [s[0]] + s[1..];
      assert multiset(s[1..]) <= multiset(s);
      SortSorted(s[1..], cmp, key);
      InsertSorted(s[0], Sort(s[1..], cmp), cmp, key);
    }
  }

  /** The test "has key `k`". */
  function HasKey<T>(key: T -> Key, k: Key): T -> bool {
    (y: T) => key(y) == k
  }

  /**
   * Inserting `x` puts it in front of every element with the same key: it
   * goes before the first element it does not sort after.
   */
  lemma {:induction false} InsertStable<T(!new)>(x: T, s: seq<T>, cmp: (T, T) -> int, key: T -> Key, k: Key)
    requires AgreesWithKey(cmp, key, multiset(s) + multiset{x})
    ensures key(x) == k ==> Seqs.Filter(HasKey(key, k), Insert(x, s, cmp)) == [x] + Seqs.Filter(HasKey(key, k), s)
    ensures key(x) != k ==> Seqs.Filter(HasKey(key, k), Insert(x, s, cmp)) == Seqs.Filter(HasKey(key, k), s)
  {
    if s == [] {
      Seqs.FilterCons(HasKey(key, k), x, []);
    } else if cmp(x, s[0]) <= 0 {
      Seqs.FilterCons(HasKey(key, k), x, s);
    } else {
      var tail := s[1..];
      assert s == [s[0]] + tail;
      assert Insert(x, s, cmp) == [s[0]] + Insert(x, tail, cmp);
      assert x in multiset(s) + multiset{x} && s[0] in multiset(s) + multiset{x};
      // x sorts after s[0], so the two keys differ
      assert key(x) != key(s[0]);
      assert multiset(tail) + multiset{x} <= multiset(s) + multiset{x};
      InsertStable(x, tail, cmp, key, k);
      Seqs.FilterCons(HasKey(key, k), s[0], Insert(x, tail, cmp));
      Seqs.FilterCons(HasKey(key, k), s[0], tail);
    }
  }

  /**
   * The sort is stable: the elements with any one key come out in the order
   * they went in.
   */
  lemma {:induction false} SortStable<T(!new)>(s: seq<T>, cmp: (T, T) -> int, key: T -> Key, k: Key)
    requires AgreesWithKey(cmp, key, multiset(s))
    ensures Seqs.Filter(HasKey(key, k), Sort(s, cmp)) == Seqs.Filter(HasKey(key, k), s)
  {
    if s != [] {
      assert s == [s[0]] + s[1..];
      assert multiset(s[1..]) <= multiset(s);
      SortStable(s[1..], cmp, key, k);
      InsertStable(s[0], Sort(s[1..], cmp), cmp, key, k);
    }
  }
}
