/** Stable sorting of sequences by an integer key. */
module StableSort {

  ghost predicate Ascending<T>(s: seq<T>, key: T -> int) {
    forall i, j :: 0 <= i < j < |s| ==> key(s[i]) <= key(s[j])
  }

  /** The elements with key `k`, in the order they stand. */
  function WithKey<T>(s: seq<T>, key: T -> int, k: int): seq<T> {
    if s == [] then []
    else (if key(s[0]) == k then [s[0]] else []) + WithKey(s[1..], key, k)
  }

  /** Places `x` before everything whose key is not smaller. */
  function Insert<T>(x: T, s: seq<T>, key: T -> int): (r: seq<T>)
    ensures multiset(r) == multiset(s) + multiset{x} && |r| == |s| + 1
    ensures r[0] == x || (s != [] && r[0] == s[0])
  {
    if s == [] || key(x) <= key(s[0]) then [x] + s
    else
      assert s == [s[0]] + s[1..];
      [s[0]] + Insert(x, s[1..], key)
  }

  /** The stable sort: a permutation, in ascending order, equal keys in their first order. */
  function SortBy<T>(s: seq<T>, key: T -> int): (r: seq<T>)
    ensures multiset(r) == multiset(s) && |r| == |s|
  {
    if s == [] then []
    else
      assert s == [s[0]] + s[1..];
      Insert(s[0], SortBy(s[1..], key), key)
  }

  lemma {:induction false} InsertAscending<T>(x: T, s: seq<T>, key: T -> int)
    requires Ascending(s, key)
    ensures Ascending(Insert(x, s, key), key)
  {
    if s != [] && key(x) > key(s[0]) {
      InsertAscending(x, s[1..], key);
      var rest := Insert(x, s[1..], key);
      forall j | 0 <= j < |rest| ensures key(s[0]) <= key(rest[j]) {
        assert rest[j] in multiset(s[1..]) + multiset{x};
        if rest[j] != x {
          assert rest[j] in s[1..];
        }
      }
    }
  }

  lemma {:induction false} InsertStable<T>(x: T, s: seq<T>, key: T -> int, k: int)
    ensures WithKey(Insert(x, s, key), key, k) == WithKey([x] + s, key, k)
  {
    assert ([x] + s)[1..] == s;
    if s != [] && key(x) > key(s[0]) {
      InsertStable(x, s[1..], key, k);
      assert ([x] + s[1..])[1..] == s[1..];
      assert Insert(x, s, key)[1..] == Insert(x, s[1..], key);
    }
  }

  lemma {:induction false} SortByIsStableSort<T>(s: seq<T>, key: T -> int)
    ensures Ascending(SortBy(s, key), key)
    ensures forall k :: WithKey(SortBy(s, key), key, k) == WithKey(s, key, k)
  {
    if s != [] {
      SortByIsStableSort(s[1..], key);
      InsertAscending(s[0], SortBy(s[1..], key), key);
      forall k ensures WithKey(SortBy(s, key), key, k) == WithKey(s, key, k) {
        InsertStable(s[0], SortBy(s[1..], key), key, k);
        assert ([s[0]] + SortBy(s[1..], key))[1..] == SortBy(s[1..], key);
      }
    }
  }

  lemma {:induction false} SortByElements<T(!new)>(s: seq<T>, key: T -> int)
    ensures forall x :: x in SortBy(s, key) <==> x in s
  {
    forall x ensures x in SortBy(s, key) <==> x in s {
      assert x in SortBy(s, key) <==> x in multiset(SortBy(s, key));
      assert x in s <==> x in multiset(s);
    }
  }

  /** Sorts by insertion from the back, as the specification reads. */
  method SortStably<T>(s: seq<T>, key: T -> int) returns (r: seq<T>)
    ensures r == SortBy(s, key)
  {
    r := [];
    var i := |s|;
    while i > 0
      invariant 0 <= i <= |s| && r == SortBy(s[i..], key)
    {
      i := i - 1;
      assert s[i..][1..] == s[i + 1..];
      r := Insert(s[i], r, key);
    }
    assert s[0..] == s;
  }
}
