/**
  Python's `list.sort(key=...)`: a stable sort by an integer key. It is
  written as insertion into an already sorted list, each element going after
  the elements whose key is not larger, which is the stable order.
 */
module Sorting {

  /** Ascending by `key`. */
  predicate SortedBy<T>(s: seq<T>, key: T -> int)
  {
    forall i, j :: 0 <= i < j < |s| ==> key(s[i]) <= key(s[j])
  }

  /** The elements of `s` whose key is `k`, in their order in `s`. */
  function WithKey<T>(s: seq<T>, key: T -> int, k: int): seq<T>
    decreases |s|
  {
    if s == [] then [] else (if key(s[0]) == k then [s[0]] else []) + WithKey(s[1..], key, k)
  }

  /** `x` put after every element of the sorted `r` whose key is not larger. */
  function Insert<T>(x: T, r: seq<T>, key: T -> int): seq<T>
    decreases |r|
  {
    if r == [] then [x]
    else if key(x) < key(r[0]) then [x] + r
    else [r[0]] + Insert(x, r[1..], key)
  }

  /** The stable sort of `s` by `key`. */
  function Sort<T>(s: seq<T>, key: T -> int): seq<T>
    decreases |s|
  {
    if s == [] then [] else Insert(s[|s| - 1], Sort(s[..|s| - 1], key), key)
  }

  lemma {:induction false} InsertPermutes<T>(x: T, r: seq<T>, key: T -> int)
    ensures multiset(Insert(x, r, key)) == multiset(r) + multiset{x}
    decreases |r|
  {
    if r != [] && key(x) >= key(r[0]) {
      InsertPermutes(x, r[1..], key);
      assert r == [r[0]] + r[1..];
    }
  }

  lemma {:induction false} InsertSorted<T>(x: T, r: seq<T>, key: T -> int)
    requires SortedBy(r, key)
    ensures SortedBy(Insert(x, r, key), key)
    ensures Insert(x, r, key)[0] == x || (r != [] && Insert(x, r, key)[0] == r[0])
    decreases |r|
  {
    if r == [] {
    } else if key(x) < key(r[0]) {
      SortedCons(x, r, key);
    } else {
      var t := Insert(x, r[1..], key);
      assert SortedBy(r[1..], key);
      InsertSorted(x, r[1..], key);
      assert r[1..] != [] ==> r[1..][0] == r[1];
      SortedCons(r[0], t, key);
    }
  }

  /** An element no larger than the head of a sorted list can go in front of it. */
  lemma SortedCons<T>(a: T, t: seq<T>, key: T -> int)
    requires SortedBy(t, key) && (t != [] ==> key(a) <= key(t[0]))
    ensures SortedBy([a] + t, key)
  {
    var res := [a] + t;
    forall i, j | 0 <= i < j < |res| ensures key(res[i]) <= key(res[j]) {
      if i == 0 {
        assert res[j] == t[j - 1];
      } else {
        assert res[i] == t[i - 1] && res[j] == t[j - 1];
      }
    }
  }

  lemma {:induction false} WithKeyNone<T>(s: seq<T>, key: T -> int, k: int)
    requires forall i :: 0 <= i < |s| ==> key(s[i]) != k
    ensures WithKey(s, key, k) == []
    decreases |s|
  {
    if s != [] {
      WithKeyNone(s[1..], key, k);
    }
  }

  lemma {:induction false} WithKeyAppend<T>(a: seq<T>, b: seq<T>, key: T -> int, k: int)
    ensures WithKey(a + b, key, k) == WithKey(a, key, k) + WithKey(b, key, k)
    decreases |a|
  {
    if a != [] {
      var h := if key(a[0]) == k then [a[0]] else [];
      assert (a + b)[0] == a[0] && (a + b)[1..] == a[1..] + b;
      assert WithKey(a + b, key, k) == h + WithKey(a[1..] + b, key, k);
      assert WithKey(a, key, k) == h + WithKey(a[1..], key, k);
      WithKeyAppend(a[1..], b, key, k);
      Assoc(h, WithKey(a[1..], key, k), WithKey(b, key, k));
    } else {
      assert a + b == b;
    }
  }

  lemma Assoc<T>(a: seq<T>, b: seq<T>, c: seq<T>)
    ensures a + (b + c) == (a + b) + c
  {
  }

  lemma {:induction false} InsertStable<T>(x: T, r: seq<T>, key: T -> int, k: int)
    requires SortedBy(r, key)
    ensures WithKey(Insert(x, r, key), key, k) == WithKey(r, key, k) + (if key(x) == k then [x] else [])
    decreases |r|
  {
    var hx := if key(x) == k then [x] else [];
    if r == [] {
      assert WithKey([x], key, k) == hx + WithKey([x][1..], key, k);
    } else if key(x) < key(r[0]) {
      assert ([x] + r)[0] == x && ([x] + r)[1..] == r;
      assert WithKey([x] + r, key, k) == hx + WithKey(r, key, k);
      if key(x) == k {
        WithKeyNone(r, key, k);
      }
    } else {
      var t := Insert(x, r[1..], key);
      var h := if key(r[0]) == k then [r[0]] else [];
      assert ([r[0]] + t)[0] == r[0] && ([r[0]] + t)[1..] == t;
      assert WithKey([r[0]] + t, key, k) == h + WithKey(t, key, k);
      assert SortedBy(r[1..], key);
      InsertStable(x, r[1..], key, k);
      Assoc(h, WithKey(r[1..], key, k), hx);
    }
  }

  /** Sorting permutes its input. */
  lemma {:induction false} SortPermutes<T>(s: seq<T>, key: T -> int)
    ensures multiset(Sort(s, key)) == multiset(s)
    decreases |s|
  {
    if s != [] {
      var n := |s| - 1;
      SortPermutes(s[..n], key);
      InsertPermutes(s[n], Sort(s[..n], key), key);
      assert s == s[..n] + [s[n]];
    }
  }

  /** The result is in ascending key order. */
  lemma {:induction false} SortSorted<T>(s: seq<T>, key: T -> int)
    ensures SortedBy(Sort(s, key), key)
    decreases |s|
  {
    if s != [] {
      var n := |s| - 1;
      SortSorted(s[..n], key);
      InsertSorted(s[n], Sort(s[..n], key), key);
    }
  }

  /** Elements with equal keys keep their relative order. */
  lemma {:induction false} SortStable<T>(s: seq<T>, key: T -> int, k: int)
    ensures WithKey(Sort(s, key), key, k) == WithKey(s, key, k)
    decreases |s|
  {
    if s != [] {
      var n := |s| - 1;
      SortStable(s[..n], key, k);
      SortSorted(s[..n], key);
      InsertStable(s[n], Sort(s[..n], key), key, k);
      WithKeyAppend(s[..n], [s[n]], key, k);
      assert s == s[..n] + [s[n]];
    }
  }
}
