/** Sorting a list by a real-valued key, as `List.sort(Comparator.comparingDouble(..))`
    does for replay keyframes (by time) and for enemy candidates (by distance). */
module Sorting {

  /** The keys never decrease along `s`. */
  predicate SortedBy<T>(s: seq<T>, key: T -> real)
  {
    forall i, j :: 0 <= i < j < |s| ==> key(s[i]) <= key(s[j])
  }

  /** `x` inserted into the sorted `s` after every element whose key is not larger,
      so equal keys keep their arrival order. */
  function Insert<T>(s: seq<T>, x: T, key: T -> real): (r: seq<T>)
    requires SortedBy(s, key)
    ensures SortedBy(r, key)
    ensures multiset(r) == multiset(s) + multiset{x}
    ensures |r| == |s| + 1
    ensures forall i :: 0 <= i < |r| ==> r[i] == x || r[i] in s
  {
    if s == [] then [x]
    else if key(s[|s| - 1]) <= key(x) then s + [x]
    else
      var init := s[..|s| - 1];
      assert s == init + [s[|s| - 1]];
      Insert(init, x, key) + [s[|s| - 1]]
  }

  /** The elements of `s` whose key is `v`, in their order in `s`. */
  function WithKey<T>(s: seq<T>, key: T -> real, v: real): seq<T>
  {
    if s == [] then []
    else WithKey(s[..|s| - 1], key, v) + (if key(s[|s| - 1]) == v then [s[|s| - 1]] else [])
  }

  /** Appending one element extends the elements of its key. */
  lemma WithKeySnoc<T>(s: seq<T>, y: T, key: T -> real, v: real)
    ensures WithKey(s + [y], key, v) == WithKey(s, key, v) + (if key(y) == v then [y] else [])
  {
    assert (s + [y])[..|s|] == s;
  }

  /** Cutting a sequence short cuts the elements of each key short. */
  lemma {:induction false} WithKeyPrefix<T>(s: seq<T>, n: nat, key: T -> real, v: real)
    requires n <= |s|
    ensures var w := WithKey(s[..n], key, v);
            |w| <= |WithKey(s, key, v)| && w == WithKey(s, key, v)[..|w|]
    decreases |s|
  {
    if n == |s| {
      assert s[..n] == s;
    } else {
      var init := s[..|s| - 1];
      assert s == init + [s[|s| - 1]];
      assert s[..n] == init[..n];
      WithKeyPrefix(init, n, key, v);
      WithKeySnoc(init, s[|s| - 1], key, v);
    }
  }

  /** Two appended pieces of which one is empty may be appended in either order. */
  lemma SwapEmpty<T>(a: seq<T>, x: seq<T>, l: seq<T>)
    requires x == [] || l == []
    ensures a + x + l == a + l + x
  {
    if x == [] {
      assert a + x == a && a + l + x == a + l;
    } else {
      assert a + l == a && a + x + l == a + x;
    }
  }

  /** Insertion is stable: among the elements of any one key, `x` comes after
      those already there, which keep their order. */
  lemma {:induction false} InsertStable<T>(s: seq<T>, x: T, key: T -> real, v: real)
    requires SortedBy(s, key)
    ensures WithKey(Insert(s, x, key), key, v) == WithKey(s, key, v) + (if key(x) == v then [x] else [])
  {
    var X: seq<T> := if key(x) == v then [x] else [];
    if s == [] {
      WithKeySnoc([], x, key, v);
      assert [] + [x] == [x];
    } else if key(s[|s| - 1]) <= key(x) {
      WithKeySnoc(s, x, key, v);
    } else {
      var init := s[..|s| - 1];
      var last := s[|s| - 1];
      var L: seq<T> := if key(last) == v then [last] else [];
      assert s == init + [last];
      assert SortedBy(init, key);
      InsertStable(init, x, key, v);
      var r0 := Insert(init, x, key);
      assert Insert(s, x, key) == r0 + [last];
      WithKeySnoc(r0, last, key, v);
      WithKeySnoc(init, last, key, v);
      assert key(last) == v ==> key(x) != v;
      SwapEmpty(WithKey(init, key, v), X, L);
    }
  }

  /** The elements of `s` in ascending key order: a sorted permutation, and a
      stable one, since elements of equal key keep their order. */
  method SortByKey<T>(s: seq<T>, key: T -> real) returns (r: seq<T>)
    ensures SortedBy(r, key)
    ensures multiset(r) == multiset(s)
    ensures forall v :: WithKey(r, key, v) == WithKey(s, key, v)
  {
    r := [];
    var i := 0;
    while i < |s|
      invariant 0 <= i <= |s|
      invariant SortedBy(r, key)
      invariant multiset(r) == multiset(s[..i])
      invariant forall v :: WithKey(r, key, v) == WithKey(s[..i], key, v)
    {
      assert s[..i + 1] == s[..i] + [s[i]];
      assert s[..i + 1][..i] == s[..i];
      forall v ensures WithKey(Insert(r, s[i], key), key, v) == WithKey(s[..i + 1], key, v) {
        InsertStable(r, s[i], key, v);
      }
      r := Insert(r, s[i], key);
      i := i + 1;
    }
    assert s[..|s|] == s;
  }
}
