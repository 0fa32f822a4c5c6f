/**
 * Python's `sorted(xs, key=...)` for keys that are pairs of integers
 * compared lexicographically, as an insertion sort.
 */
module Sorting {
  /** Lexicographic `<=` on `(int, int)`, the order Python uses for tuples. */
  predicate KeyLe(a: (int, int), b: (int, int))
  {
    a.0 < b.0 || (a.0 == b.0 && a.1 <= b.1)
  }

  predicate SortedBy<T>(xs: seq<T>, key: T -> (int, int))
  {
    forall i, j :: 0 <= i < j < |xs| ==> KeyLe(key(xs[i]), key(xs[j]))
  }

  /** Puts `x` in front of the first element whose key is not smaller. */
  function Insert<T>(x: T, xs: seq<T>, key: T -> (int, int)): (r: seq<T>)
    requires SortedBy(xs, key)
    ensures multiset(r) == multiset(xs) + multiset{x}
    ensures |r| == |xs| + 1
    ensures forall i :: 0 <= i < |r| ==> r[i] == x || r[i] in xs
    ensures SortedBy(r, key)
    decreases |xs|
  {
    if xs == [] then [x]
    else if KeyLe(key(x), key(xs[0])) then [x] + xs
    else
      var rest := Insert(x, xs[1..], key);
      assert xs == [xs[0]] + xs[1..];
      InsertHeadSorted(xs[0], x, xs, rest, key);
      [xs[0]] + rest
  }

  lemma InsertHeadSorted<T>(h: T, x: T, xs: seq<T>, rest: seq<T>, key: T -> (int, int))
    requires xs != [] && h == xs[0] && SortedBy(xs, key) && SortedBy(rest, key)
    requires KeyLe(key(h), key(x))
    requires forall i :: 0 <= i < |rest| ==> rest[i] == x || rest[i] in xs[1..]
    ensures SortedBy([h] + rest, key)
  {
    var r := [h] + rest;
    forall i, j | 0 <= i < j < |r|
      ensures KeyLe(key(r[i]), key(r[j]))
    {
      if i == 0 {
        if r[j] != x {
          var k :| 0 <= k < |xs[1..]| && xs[1..][k] == r[j];
          assert xs[k + 1] == r[j];
        }
      } else {
        assert r[i] == rest[i - 1] && r[j] == rest[j - 1];
      }
    }
  }

  /** A permutation of `xs` whose keys never decrease. */
  function SortBy<T>(xs: seq<T>, key: T -> (int, int)): (r: seq<T>)
    ensures |r| == |xs|
    ensures multiset(r) == multiset(xs)
    ensures SortedBy(r, key)
    decreases |xs|
  {
    if xs == [] then []
    else
      assert xs == [xs[0]] + xs[1..];
      Insert(xs[0], SortBy(xs[1..], key), key)
  }

  /** The elements of `xs` whose key is `k`, in their order in `xs`. */
  function WithKey<T>(xs: seq<T>, key: T -> (int, int), k: (int, int)): seq<T>
  {
    if xs == [] then [] else (if key(xs[0]) == k then [xs[0]] else []) + WithKey(xs[1..], key, k)
  }

  /** Inserting `x` puts it in front of every element with its key and moves nothing else. */
  lemma {:induction false} InsertStable<T>(x: T, xs: seq<T>, key: T -> (int, int), k: (int, int))
    requires SortedBy(xs, key)
    ensures WithKey(Insert(x, xs, key), key, k) == (if key(x) == k then [x] else []) + WithKey(xs, key, k)
    decreases |xs|
  {
    if xs == [] {
      assert [x][1..] == [];
    } else if KeyLe(key(x), key(xs[0])) {
      var r := [x] + xs;
      assert r[0] == x && r[1..] == xs;
    } else {
      var rest := Insert(x, xs[1..], key);
      InsertStable(x, xs[1..], key, k);
      var r := [xs[0]] + rest;
      assert r[0] == xs[0] && r[1..] == rest;
      assert key(xs[0]) != key(x);
    }
  }

  /**
   * The sort is stable, as Python's `sorted` is: the elements sharing any
   * one key come out in the order they went in.
   */
  lemma {:induction false} SortByStable<T>(xs: seq<T>, key: T -> (int, int), k: (int, int))
    ensures WithKey(SortBy(xs, key), key, k) == WithKey(xs, key, k)
    decreases |xs|
  {
    if xs != [] {
      SortByStable(xs[1..], key, k);
      InsertStable(xs[0], SortBy(xs[1..], key), key, k);
    }
  }
}
