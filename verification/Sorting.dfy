/** Sorted listings of finite sets, and rebuilding a map from a listing. */
module Sorting {

  ghost predicate Injective<T(!new)>(s: set<T>, key: T -> int) {
    forall x, y :: x in s && y in s && key(x) == key(y) ==> x == y
  }

  /** `r` lists exactly the elements of `s`. */
  ghost predicate Lists<T(!new)>(r: seq<T>, s: set<T>) {
    forall x :: x in s <==> x in r
  }

  ghost predicate SortedByKey<T>(r: seq<T>, key: T -> int) {
    forall i, j :: 0 <= i < j < |r| ==> key(r[i]) < key(r[j])
  }

  ghost predicate IsLeast<T(!new)>(least: T, s: set<T>, key: T -> int) {
    least in s && forall x :: x in s ==> key(least) <= key(x)
  }

  lemma {:induction false} LeastExists<T(!new)>(s: set<T>, key: T -> int) returns (least: T)
    requires s != {}
    ensures IsLeast(least, s, key)
    decreases |s|
  {
    least :| least in s;
    var rest := s - {least};
    assert forall x :: x in s ==> x == least || x in rest;
    if rest != {} {
      var other := LeastExists(rest, key);
      if key(other) < key(least) {
        least := other;
      }
    }
  }

  ghost function Least<T(!new)>(s: set<T>, key: T -> int): (least: T)
    requires s != {}
    ensures IsLeast(least, s, key)
  {
    LeastIsThere(s, key);
    var m :| IsLeast(m, s, key);
    m
  }

  lemma LeastIsThere<T(!new)>(s: set<T>, key: T -> int)
    requires s != {}
    ensures exists m :: IsLeast(m, s, key)
  {
    var m := LeastExists(s, key);
  }

  lemma SortedCons<T(!new)>(s: set<T>, key: T -> int, least: T, rest: seq<T>)
    requires Injective(s, key) && IsLeast(least, s, key)
    requires Lists(rest, s - {least}) && SortedByKey(rest, key)
    ensures Lists([least] + rest, s) && SortedByKey([least] + rest, key)
  {
    forall j | 0 <= j < |rest| ensures key(least) < key(rest[j]) {
      assert rest[j] in s - {least};
    }
  }

  /** The elements of `s` in ascending key order. */
  ghost function Sorted<T(!new)>(s: set<T>, key: T -> int): (r: seq<T>)
    requires Injective(s, key)
    ensures Lists(r, s) && SortedByKey(r, key) && |r| == |s|
    decreases |s|
  {
    if s == {} then [] else
    var least := Least(s, key);
    var rest := Sorted(s - {least}, key);
    SortedCons(s, key, least, rest);
    [least] + rest
  }

  lemma SortedUncons<T(!new)>(s: set<T>, key: T -> int, r: seq<T>, least: T)
    requires Injective(s, key) && SortedByKey(r, key) && Lists(r, s) && IsLeast(least, s, key)
    ensures r != [] && r[0] == least && Lists(r[1..], s - {least})
  {
    var i :| 0 <= i < |r| && r[i] == least;
    assert r[0] in s;
    forall x ensures x in s - {least} <==> x in r[1..] {
      assert r == [r[0]] + r[1..];
      if x in r[1..] {
        var j :| 0 <= j < |r[1..]| && r[1..][j] == x;
        assert r[j + 1] == x;
      }
    }
  }

  /** A sorted listing is determined by its elements. */
  lemma {:induction false} SortedIsUnique<T(!new)>(s: set<T>, key: T -> int, r: seq<T>)
    requires Injective(s, key) && SortedByKey(r, key) && Lists(r, s)
    ensures r == Sorted(s, key)
    decreases |s|
  {
    if r == [] {
      assert s == {};
    } else {
      assert r[0] in s;
      var least := Least(s, key);
      SortedUncons(s, key, r, least);
      assert r == [least] + r[1..];
      SortedIsUnique(s - {least}, key, r[1..]);
    }
  }

  lemma Inserted<T(!new)>(done: set<T>, key: T -> int, r: seq<T>, i: nat, x: T)
    requires Injective(done + {x}, key) && SortedByKey(r, key) && Lists(r, done) && x !in done && i <= |r|
    requires forall j :: 0 <= j < i ==> key(r[j]) < key(x)
    requires i < |r| ==> key(x) <= key(r[i])
    ensures SortedByKey(r[..i] + [x] + r[i..], key)
    ensures Lists(r[..i] + [x] + r[i..], done + {x})
  {
    if i < |r| {
      assert r[i] in done;
    }
    forall y ensures y in done + {x} <==> y in r[..i] + [x] + r[i..] {
      assert r == r[..i] + r[i..];
    }
  }

  /** Lists a set in ascending key order, inserting its elements one by one. */
  method Sort<T(!new, ==)>(s: set<T>, key: T -> int) returns (r: seq<T>)
    requires Injective(s, key)
    ensures r == Sorted(s, key)
  {
    r := [];
    var rest := s;
    while rest != {}
      invariant rest <= s && SortedByKey(r, key) && Lists(r, s - rest)
      decreases |rest|
    {
      var x :| x in rest;
      var i := 0;
      while i < |r| && key(r[i]) < key(x)
        invariant i <= |r| && forall j :: 0 <= j < i ==> key(r[j]) < key(x)
      {
        i := i + 1;
      }
      Inserted(s - rest, key, r, i, x);
      assert s - rest + {x} == s - (rest - {x});
      r := r[..i] + [x] + r[i..];
      rest := rest - {x};
    }
    assert s - {} == s;
    SortedIsUnique(s, key, r);
  }

  // ---- Maps from listings ----

  /** Later entries win, as when a listing is collected into a hash map. */
  function Collect<K, V>(keys: seq<K>, values: seq<V>): map<K, V>
    requires |keys| == |values|
  {
    if keys == [] then map[]
    else Collect(keys[..|keys| - 1], values[..|keys| - 1])[keys[|keys| - 1] := values[|keys| - 1]]
  }

  ghost predicate Distinct<K>(keys: seq<K>) {
    forall i, j :: 0 <= i < j < |keys| ==> keys[i] != keys[j]
  }

  /** Collecting a map's values along a listing of its keys gives the map back. */
  lemma {:induction false} CollectRebuilds<K(!new), V>(keys: seq<K>, values: seq<V>, m: map<K, V>)
    requires |keys| == |values| && Distinct(keys) && Lists(keys, m.Keys)
    requires forall i :: 0 <= i < |keys| ==> keys[i] in m && values[i] == m[keys[i]]
    ensures Collect(keys, values) == m
    decreases |keys|
  {
    if keys == [] {
      assert forall k :: k in m ==> k in keys;
    } else {
      var n := |keys| - 1;
      var init, last := keys[..n], keys[n];
      var m' := m - {last};
      forall k ensures k in m'.Keys <==> k in init {
        assert keys == init + [last];
        if k in init {
          var i :| 0 <= i < |init| && init[i] == k;
          assert keys[i] == k;
        }
      }
      CollectRebuilds(init, values[..n], m');
      assert m == m'[last := values[n]];
    }
  }
}
