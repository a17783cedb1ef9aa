/** Sorting by an integer key when the sort is free to order equal keys as it likes (Go's slices.SortFunc). */
module Sorting {

  ghost predicate SortedBy<T(!new)>(key: T -> int, xs: seq<T>) {
    forall i, j :: 0 <= i < j < |xs| ==> key(xs[i]) <= key(xs[j])
  }

  /** What an unstable sort of xs may return. */
  ghost predicate IsSortOf<T(!new)>(key: T -> int, xs: seq<T>, ys: seq<T>) {
    multiset(xs) == multiset(ys) && SortedBy(key, ys)
  }

  function Map<T, U>(f: T -> U, xs: seq<T>): (r: seq<U>)
    ensures |r| == |xs|
    ensures forall i :: 0 <= i < |xs| ==> r[i] == f(xs[i])
  {
    seq(|xs|, i requires 0 <= i < |xs| => f(xs[i]))
  }

  function Without<T>(xs: seq<T>, i: nat): seq<T>
    requires i < |xs|
  {
    xs[..i] + xs[i + 1..]
  }

  lemma WithoutMultiset<T>(xs: seq<T>, i: nat)
    requires i < |xs|
    ensures multiset(xs) == multiset(Without(xs, i)) + multiset{xs[i]}
  {
    assert xs == xs[..i] + [xs[i]] + xs[i + 1..];
  }

  lemma MapWithout<T, U>(f: T -> U, xs: seq<T>, i: nat)
    requires i < |xs|
    ensures multiset(Map(f, xs)) == multiset(Map(f, Without(xs, i))) + multiset{f(xs[i])}
  {
    WithoutMultiset(Map(f, xs), i);
    assert Without(Map(f, xs), i) == Map(f, Without(xs, i));
  }

  /** The first element of one permutation, found in the other, can be dropped from both. */
  lemma DropFirst<T>(xs: seq<T>, ys: seq<T>) returns (i: nat)
    requires multiset(xs) == multiset(ys) && xs != []
    ensures i < |ys| && ys[i] == xs[0] && multiset(Without(xs, 0)) == multiset(Without(ys, i))
  {
    assert xs[0] in multiset(ys);
    i :| i < |ys| && ys[i] == xs[0];
    WithoutMultiset(ys, i);
    WithoutMultiset(xs, 0);
    assert multiset(Without(xs, 0)) == multiset(xs) - multiset{xs[0]};
    assert multiset(Without(ys, i)) == multiset(ys) - multiset{ys[i]};
  }

  lemma {:induction false} MapKeepsPermutations<T, U>(f: T -> U, xs: seq<T>, ys: seq<T>)
    requires multiset(xs) == multiset(ys)
    ensures multiset(Map(f, xs)) == multiset(Map(f, ys))
    decreases |xs|
  {
    hide Map;
    if xs == [] {
      assert |multiset(ys)| == 0;
    } else {
      var i := DropFirst(xs, ys);
      MapKeepsPermutations(f, Without(xs, 0), Without(ys, i));
      MapWithout(f, xs, 0);
      MapWithout(f, ys, i);
    }
  }

  predicate Ascending(a: seq<int>) {
    forall i, j :: 0 <= i < j < |a| ==> a[i] <= a[j]
  }

  lemma SmallestIsFirst(a: seq<int>, b: seq<int>)
    requires multiset(a) == multiset(b) && Ascending(a) && Ascending(b) && a != []
    ensures b != [] && a[0] == b[0]
  {
    assert a[0] in multiset(b);
    assert b[0] in multiset(a);
  }

  lemma HeadMultiset<T>(a: seq<T>)
    requires a != []
    ensures a == [a[0]] + a[1..]
    ensures multiset(a[1..]) == multiset(a) - multiset{a[0]}
  {
    assert a == [a[0]] + a[1..];
  }

  lemma {:induction false} SortedIntsAreUnique(a: seq<int>, b: seq<int>)
    requires multiset(a) == multiset(b) && Ascending(a) && Ascending(b)
    ensures a == b
    decreases |a|
  {
    if a == [] {
      assert |multiset(b)| == 0;
    } else {
      SmallestIsFirst(a, b);
      HeadMultiset(a);
      HeadMultiset(b);
      SortedIntsAreUnique(a[1..], b[1..]);
    }
  }

  /** Two sorts of the same elements have the same keys in the same places. */
  lemma SortsAgreeOnKeys<T(!new)>(key: T -> int, ys: seq<T>, zs: seq<T>)
    requires multiset(ys) == multiset(zs) && SortedBy(key, ys) && SortedBy(key, zs)
    ensures |ys| == |zs|
    ensures forall i :: 0 <= i < |ys| ==> key(ys[i]) == key(zs[i])
  {
    MapKeepsPermutations(key, ys, zs);
    SortedIntsAreUnique(Map(key, ys), Map(key, zs));
    assert |multiset(ys)| == |ys| && |multiset(zs)| == |zs|;
    assert forall i :: 0 <= i < |ys| ==> Map(key, ys)[i] == Map(key, zs)[i];
  }

  /** No two different elements share a key. */
  ghost predicate DistinctKeys<T(!new)>(key: T -> int, xs: seq<T>) {
    forall a, b :: a in multiset(xs) && b in multiset(xs) && key(a) == key(b) ==> a == b
  }

  lemma SortsAgree<T(!new)>(key: T -> int, ys: seq<T>, zs: seq<T>)
    requires multiset(ys) == multiset(zs) && SortedBy(key, ys) && SortedBy(key, zs)
    requires DistinctKeys(key, ys)
    ensures ys == zs
  {
    SortsAgreeOnKeys(key, ys, zs);
    forall i | 0 <= i < |ys|
      ensures ys[i] == zs[i]
    {
      assert ys[i] in multiset(ys) && zs[i] in multiset(zs);
    }
  }

  lemma SortKeepsMembers<T(!new)>(key: T -> int, xs: seq<T>, ys: seq<T>, x: T)
    requires IsSortOf(key, xs, ys)
    ensures x in xs <==> x in ys
  {
    assert x in multiset(xs) <==> x in multiset(ys);
  }

  // One of the sorts an unstable sort may produce: elements go in front of those that are not smaller.

  function Inserted<T>(key: T -> int, ys: seq<T>, x: T): seq<T> {
    if ys == [] || key(x) <= key(ys[0]) then [x] + ys else [ys[0]] + Inserted(key, ys[1..], x)
  }

  function Sorted<T>(key: T -> int, xs: seq<T>): seq<T> {
    if xs == [] then [] else Inserted(key, Sorted(key, xs[1..]), xs[0])
  }

  lemma {:induction false} InsertedMultiset<T>(key: T -> int, ys: seq<T>, x: T)
    ensures multiset(Inserted(key, ys, x)) == multiset(ys) + multiset{x}
  {
    if ys != [] && key(x) > key(ys[0]) {
      HeadMultiset(ys);
      InsertedMultiset(key, ys[1..], x);
    }
  }

  lemma {:induction false} InsertedIsSorted<T(!new)>(key: T -> int, ys: seq<T>, x: T)
    requires SortedBy(key, ys)
    ensures SortedBy(key, Inserted(key, ys, x))
  {
    if ys != [] && key(x) > key(ys[0]) {
      InsertedIsSorted(key, ys[1..], x);
      var rest := Inserted(key, ys[1..], x);
      InsertedMultiset(key, ys[1..], x);
      forall i | 0 <= i < |rest|
        ensures key(ys[0]) <= key(rest[i])
      {
        assert rest[i] in multiset(rest);
        assert rest[i] == x || rest[i] in ys[1..];
      }
    }
  }

  lemma {:induction false} SortedIsSort<T(!new)>(key: T -> int, xs: seq<T>)
    ensures IsSortOf(key, xs, Sorted(key, xs))
  {
    if xs != [] {
      HeadMultiset(xs);
      SortedIsSort(key, xs[1..]);
      InsertedIsSorted(key, Sorted(key, xs[1..]), xs[0]);
      InsertedMultiset(key, Sorted(key, xs[1..]), xs[0]);
    }
  }

  /** slices.SortFunc: callers may only rely on the result being some sort of the elements. */
  method SortFunc<T(!new)>(key: T -> int, xs: seq<T>) returns (ys: seq<T>)
    ensures IsSortOf(key, xs, ys)
  {
    SortedIsSort(key, xs);
    ys := Sorted(key, xs);
  }
}
