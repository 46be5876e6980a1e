/** Python's `sorted(xs, key=...)` on an integer key: a stable sort, written
    as an insertion sort. */
module Sorting {

  predicate SortedBy<T>(s: seq<T>, key: T -> int)
  {
    forall i, j :: 0 <= i < j < |s| ==> key(s[i]) <= key(s[j])
  }

  /** The elements whose key is `v`, in their order in `s`. */
  function WithKey<T>(s: seq<T>, key: T -> int, v: int): seq<T>
  {
    if s == [] then []
    else (if key(s[0]) == v then [s[0]] else []) + WithKey(s[1..], key, v)
  }

  /** `x` placed before the first element whose key is not smaller, so that
      it precedes every element with an equal key. */
  function Insert<T>(x: T, s: seq<T>, key: T -> int): (r: seq<T>)
    requires SortedBy(s, key)
    ensures |r| == |s| + 1
    ensures r[0] == x || (|s| > 0 && r[0] == s[0])
    ensures SortedBy(r, key)
    ensures multiset(r) == multiset(s) + multiset{x}
  {
    if s == [] || key(x) <= key(s[0]) then
      [x] + s
    else
      var rest := Insert(x, s[1..], key);
      assert key(s[0]) <= key(rest[0]);
      assert s == [s[0]] + s[1..];
      [s[0]] + rest
  }

  lemma WithKeyCons<T>(y: T, s: seq<T>, key: T -> int, v: int)
    ensures WithKey([y] + s, key, v) == (if key(y) == v then [y] else []) + WithKey(s, key, v)
  {
    assert ([y] + s)[1..] == s;
  }

  /** Inserting `x` puts it in front of the elements that share its key. */
  lemma {:induction false} InsertWithKey<T>(x: T, s: seq<T>, key: T -> int, v: int)
    requires SortedBy(s, key)
    ensures WithKey(Insert(x, s, key), key, v)
         == if key(x) == v then [x] + WithKey(s, key, v) else WithKey(s, key, v)
  {
    if s == [] || key(x) <= key(s[0]) {
      WithKeyCons(x, s, key, v);
    } else {
      assert SortedBy(s[1..], key);
      var rest := Insert(x, s[1..], key);
      InsertWithKey(x, s[1..], key, v);
      WithKeyCons(s[0], rest, key, v);
      WithKeyCons(s[0], s[1..], key, v);
      assert s == [s[0]] + s[1..];
    }
  }

  /** `sorted(s, key=key)`: ordered by key, a permutation of `s`. */
  function SortBy<T>(s: seq<T>, key: T -> int): (r: seq<T>)
    ensures |r| == |s|
    ensures SortedBy(r, key)
    ensures multiset(r) == multiset(s)
  {
    if s == [] then []
    else
      assert s == [s[0]] + s[1..];
      Insert(s[0], SortBy(s[1..], key), key)
  }

  /** The sort is stable: for every key value, the elements carrying it keep
      their relative order. */
  lemma {:induction false} SortByStable<T>(s: seq<T>, key: T -> int, v: int)
    ensures WithKey(SortBy(s, key), key, v) == WithKey(s, key, v)
  {
    if s != [] {
      SortByStable(s[1..], key, v);
      InsertWithKey(s[0], SortBy(s[1..], key), key, v);
    }
  }

  ghost predicate DistinctBy<T, U>(s: seq<T>, f: T -> U)
  {
    forall i, j :: 0 <= i < j < |s| ==> f(s[i]) != f(s[j])
  }

  lemma {:induction false} InsertKeepsDistinct<T, U>(x: T, s: seq<T>, key: T -> int, f: T -> U)
    requires SortedBy(s, key) && DistinctBy(s, f)
    requires forall i :: 0 <= i < |s| ==> f(s[i]) != f(x)
    ensures DistinctBy(Insert(x, s, key), f)
  {
    if s != [] && key(x) > key(s[0]) {
      var rest := Insert(x, s[1..], key);
      InsertKeepsDistinct(x, s[1..], key, f);
      forall m | 0 <= m < |rest|
        ensures f(rest[m]) != f(s[0])
      {
        assert rest[m] in multiset(rest);
        if rest[m] != x {
          assert rest[m] in multiset(s[1..]);
          var j :| 0 <= j < |s[1..]| && s[1..][j] == rest[m];
          assert s[j + 1] == rest[m];
        }
      }
      var r := [s[0]] + rest;
      assert forall m :: 0 < m < |r| ==> r[m] == rest[m - 1];
    }
  }

  /** Sorting never makes two elements agree under `f` (used for pids). */
  lemma {:induction false} SortByKeepsDistinct<T, U>(s: seq<T>, key: T -> int, f: T -> U)
    requires DistinctBy(s, f)
    ensures DistinctBy(SortBy(s, key), f)
  {
    if s != [] {
      var r := SortBy(s[1..], key);
      SortByKeepsDistinct(s[1..], key, f);
      forall m | 0 <= m < |r|
        ensures f(r[m]) != f(s[0])
      {
        assert r[m] in multiset(s[1..]);
        var j :| 0 <= j < |s[1..]| && s[1..][j] == r[m];
        assert s[j + 1] == r[m];
      }
      InsertKeepsDistinct(s[0], r, key, f);
    }
  }

  /** Sorting keeps exactly the elements it was given. */
  lemma SortBySameElements<T>(s: seq<T>, key: T -> int)
    ensures forall x :: x in SortBy(s, key) <==> x in s
  {
    var r := SortBy(s, key);
    forall x
      ensures x in r <==> x in s
    {
      assert x in r <==> x in multiset(r);
      assert x in s <==> x in multiset(s);
    }
  }

  /** Sorting a sequence without repetitions gives one without repetitions. */
  lemma SortByKeepsUnique<T>(s: seq<T>, key: T -> int)
    requires forall a, b :: 0 <= a < b < |s| ==> s[a] != s[b]
    ensures forall a, b :: 0 <= a < b < |SortBy(s, key)| ==> SortBy(s, key)[a] != SortBy(s, key)[b]
  {
    SortByKeepsDistinct(s, key, (x: T) => x);
  }
}
