// sort.Slice with a less function on one or two string fields. The library's sort is not stable, so
// it is modelled as any function that answers a list of keys with a permutation arranging them; all
// that is assumed beyond that is that the permutation depends on nothing but the keys.
module Sorting {
  import opened Text

  type Key = (string, string)

  predicate KeyLe(a: Key, b: Key) {
    StrLess(a.0, b.0) || (a.0 == b.0 && StrLe(a.1, b.1))
  }

  predicate KeyLess(a: Key, b: Key) {
    a != b && KeyLe(a, b)
  }

  lemma {:induction false} KeyLeTotal(a: Key, b: Key)
    ensures KeyLe(a, b) || KeyLe(b, a)
    ensures KeyLe(a, b) && KeyLe(b, a) ==> a == b
  {
    StrLeTotal(a.0, b.0);
    StrLeTotal(a.1, b.1);
  }

  lemma {:induction false} KeyLeTransitive(a: Key, b: Key, c: Key)
    requires KeyLe(a, b) && KeyLe(b, c)
    ensures KeyLe(a, c)
  {
    if a.0 == b.0 == c.0 {
      StrLeTransitive(a.1, b.1, c.1);
    } else if StrLe(a.0, b.0) && StrLe(b.0, c.0) {
      StrLeTransitive(a.0, b.0, c.0);
      StrLeTotal(a.0, b.0);
      StrLeTotal(b.0, c.0);
    }
  }

  ghost predicate IsPermutation(p: seq<nat>, n: nat) {
    && |p| == n
    && (forall i | 0 <= i < n :: p[i] < n)
    && (forall k: nat | k < n :: k in p)
    && (forall i, j | 0 <= i < j < n :: p[i] != p[j])
  }

  ghost predicate Arranges(ks: seq<Key>, p: seq<nat>) {
    && IsPermutation(p, |ks|)
    && forall i, j | 0 <= i < j < |ks| :: KeyLe(ks[p[i]], ks[p[j]])
  }

  // One sort that meets the description: insertion sort on positions.
  function InsertPosition(ks: seq<Key>, p: seq<nat>, x: nat): (r: seq<nat>)
    requires x < |ks| && forall i | 0 <= i < |p| :: p[i] < |ks|
    ensures |r| == |p| + 1
    ensures forall k :: k in r <==> k == x || k in p
  {
    if p == [] || KeyLe(ks[x], ks[p[0]]) then [x] + p
    else [p[0]] + InsertPosition(ks, p[1..], x)
  }

  ghost predicate InOrder(ks: seq<Key>, p: seq<nat>) {
    && (forall i | 0 <= i < |p| :: p[i] < |ks|)
    && (forall i, j | 0 <= i < j < |p| :: p[i] != p[j] && KeyLe(ks[p[i]], ks[p[j]]))
  }

  lemma {:induction false} ConsInOrder(ks: seq<Key>, h: nat, t: seq<nat>)
    requires InOrder(ks, t) && h < |ks|
    requires forall k | 0 <= k < |t| :: t[k] != h && KeyLe(ks[h], ks[t[k]])
    ensures InOrder(ks, [h] + t)
  {
  }

  lemma {:induction false} InsertPositionInOrder(ks: seq<Key>, p: seq<nat>, x: nat)
    requires InOrder(ks, p) && x < |ks| && x !in p
    ensures InOrder(ks, InsertPosition(ks, p, x))
  {
    if p == [] {
    } else if KeyLe(ks[x], ks[p[0]]) {
      forall j | 0 <= j < |p| ensures p[j] != x && KeyLe(ks[x], ks[p[j]]) {
        if j > 0 { KeyLeTransitive(ks[x], ks[p[0]], ks[p[j]]); }
      }
      ConsInOrder(ks, x, p);
    } else {
      KeyLeTotal(ks[x], ks[p[0]]);
      var rest := InsertPosition(ks, p[1..], x);
      InsertPositionInOrder(ks, p[1..], x);
      forall k | 0 <= k < |rest| ensures rest[k] != p[0] && KeyLe(ks[p[0]], ks[rest[k]]) {
        assert rest[k] in rest;
        assert rest[k] == x || rest[k] in p[1..];
      }
      ConsInOrder(ks, p[0], rest);
    }
  }

  function InsertionSortFirst(ks: seq<Key>, n: nat): (r: seq<nat>)
    requires n <= |ks|
    ensures InOrder(ks, r) && |r| == n
    ensures forall k :: k in r <==> 0 <= k < n
  {
    if n == 0 then []
    else
      var rest := InsertionSortFirst(ks, n - 1);
      InsertPositionInOrder(ks, rest, n - 1);
      InsertPosition(ks, rest, n - 1)
  }

  function InsertionSort(ks: seq<Key>): (r: seq<nat>)
    ensures Arranges(ks, r)
  {
    InsertionSortFirst(ks, |ks|)
  }

  type Sorter = f: seq<Key> -> seq<nat> | forall ks {:trigger f(ks)} :: Arranges(ks, f(ks))
    witness InsertionSort

  // ---- Sorting elements by their keys ----

  function Map<T(!new), U(!new)>(f: T -> U, xs: seq<T>): (r: seq<U>)
    ensures |r| == |xs| && forall i | 0 <= i < |xs| :: r[i] == f(xs[i])
  {
    seq(|xs|, i requires 0 <= i < |xs| => f(xs[i]))
  }

  ghost predicate SortedBy<T(!new)>(key: T -> Key, xs: seq<T>) {
    forall i, j | 0 <= i < j < |xs| :: KeyLe(key(xs[i]), key(xs[j]))
  }

  ghost predicate AscendingBy<T(!new)>(key: T -> Key, xs: seq<T>) {
    forall i, j | 0 <= i < j < |xs| :: KeyLess(key(xs[i]), key(xs[j]))
  }

  ghost predicate DistinctBy<T(!new)>(key: T -> Key, xs: seq<T>) {
    forall i, j | 0 <= i < j < |xs| :: key(xs[i]) != key(xs[j])
  }

  // The elements of xs at the positions p: xs rearranged, when p is a permutation.
  function Permute<T(!new)>(p: seq<nat>, xs: seq<T>): (r: seq<T>)
    requires forall i | 0 <= i < |p| :: p[i] < |xs|
    ensures |r| == |p| && forall i | 0 <= i < |p| :: r[i] == xs[p[i]]
  {
    seq(|p|, i requires 0 <= i < |p| => xs[p[i]])
  }

  function Identity(n: nat): seq<nat> { seq(n, i requires 0 <= i < n => i) }

  lemma {:induction false} IdentityPermutes<T(!new)>(xs: seq<T>)
    ensures IsPermutation(Identity(|xs|), |xs|) && Permute(Identity(|xs|), xs) == xs
  {
    var p := Identity(|xs|);
    forall k: nat | k < |xs| ensures k in p {
      assert p[k] == k;
    }
  }

  lemma {:induction false} InvolutionPermutes(p: seq<nat>)
    requires forall i | 0 <= i < |p| :: p[i] < |p| && p[p[i]] == i
    ensures IsPermutation(p, |p|)
  {
    forall k: nat | k < |p| ensures k in p {
      assert p[p[k]] == k;
    }
    forall i, j | 0 <= i < j < |p| ensures p[i] != p[j] {
      assert p[p[i]] == i && p[p[j]] == j;
    }
  }

  lemma {:induction false} PermuteMembers<T(!new)>(p: seq<nat>, xs: seq<T>)
    requires IsPermutation(p, |xs|)
    ensures forall x :: x in Permute(p, xs) <==> x in xs
  {
    var r := Permute(p, xs);
    forall x | x in xs ensures x in r {
      var k :| 0 <= k < |xs| && xs[k] == x;
      assert k in p;
      var i :| 0 <= i < |p| && p[i] == k;
      assert r[i] == x;
    }
  }

  lemma {:induction false} PermuteDistinct<T(!new)>(key: T -> Key, p: seq<nat>, xs: seq<T>)
    requires IsPermutation(p, |xs|) && DistinctBy(key, xs)
    ensures DistinctBy(key, Permute(p, xs))
  {
    forall i, j | 0 <= i < j < |xs| ensures key(Permute(p, xs)[i]) != key(Permute(p, xs)[j]) {
      if p[i] < p[j] { assert key(xs[p[i]]) != key(xs[p[j]]); } else { assert key(xs[p[j]]) != key(xs[p[i]]); }
    }
  }

  // sort.Slice(xs, less on key)
  function SortBy<T(!new)>(sort: Sorter, key: T -> Key, xs: seq<T>): (r: seq<T>)
    ensures |r| == |xs| && SortedBy(key, r)
    ensures forall x :: x in r <==> x in xs
  {
    var p := sort(Map(key, xs));
    PermuteMembers(p, xs);
    Permute(p, xs)
  }

  lemma {:induction false} SortByAscends<T(!new)>(sort: Sorter, key: T -> Key, xs: seq<T>)
    requires DistinctBy(key, xs)
    ensures AscendingBy(key, SortBy(sort, key, xs))
  {
    var p := sort(Map(key, xs));
    var r := SortBy(sort, key, xs);
    assert Arranges(Map(key, xs), p);
    forall i, j | 0 <= i < j < |r| ensures KeyLess(key(r[i]), key(r[j])) {
      assert p[i] != p[j];
      assert key(xs[p[i]]) != key(xs[p[j]]);
    }
  }

  // Sorting by one key keeps elements apart that another tells apart.
  lemma {:induction false} SortByKeepsDistinct<T(!new)>(sort: Sorter, key: T -> Key, other: T -> Key, xs: seq<T>)
    requires DistinctBy(other, xs)
    ensures DistinctBy(other, SortBy(sort, key, xs))
  {
    PermuteDistinct(other, sort(Map(key, xs)), xs);
  }

  // Two lists of the same elements, both strictly ascending by the same key, are one list.
  lemma {:induction false} AscendingByUnique<T(!new)>(key: T -> Key, xs: seq<T>, ys: seq<T>)
    requires AscendingBy(key, xs) && AscendingBy(key, ys)
    requires forall x :: x in xs <==> x in ys
    ensures xs == ys
  {
    assert xs != [] ==> xs[0] in ys;
    assert ys != [] ==> ys[0] in xs;
    if xs != [] {
      var i :| 0 <= i < |ys| && ys[i] == xs[0];
      var j :| 0 <= j < |xs| && xs[j] == ys[0];
      KeyLeTotal(key(xs[0]), key(ys[0]));
      assert i == 0;
      forall x ensures x in xs[1..] <==> x in ys[1..] {
        assert x in xs <==> x in ys;
      }
      AscendingByUnique(key, xs[1..], ys[1..]);
    }
  }

  // When keys are distinct the arrangement depends on the elements alone.
  lemma {:induction false} SortByUnique<T(!new)>(sort: Sorter, key: T -> Key, xs: seq<T>, ys: seq<T>)
    requires DistinctBy(key, xs) && DistinctBy(key, ys)
    requires forall x :: x in xs <==> x in ys
    ensures SortBy(sort, key, xs) == SortBy(sort, key, ys)
  {
    SortByAscends(sort, key, xs);
    SortByAscends(sort, key, ys);
    AscendingByUnique(key, SortBy(sort, key, xs), SortBy(sort, key, ys));
  }

  // A change of elements that leaves their keys alone commutes with sorting.
  lemma {:induction false} SortByCommutes<T(!new), U(!new)>(sort: Sorter, keyT: T -> Key, keyU: U -> Key,
                                                            g: T -> U, xs: seq<T>)
    requires forall i | 0 <= i < |xs| :: keyU(g(xs[i])) == keyT(xs[i])
    ensures SortBy(sort, keyU, Map(g, xs)) == Map(g, SortBy(sort, keyT, xs))
  {
    assert Map(keyU, Map(g, xs)) == Map(keyT, xs);
  }
}
