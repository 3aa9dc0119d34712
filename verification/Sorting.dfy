/** Sorting by a real-valued key, as the library sort does it: the same elements, in key order, ties in any order. */
module Sorting {

  ghost predicate Ascending<T>(xs: seq<T>, key: T -> real) {
    forall i, j | 0 <= i < j < |xs| :: key(xs[i]) <= key(xs[j])
  }

  /** Puts one element into a sorted sequence. */
  method InsertInto<T(==)>(xs: seq<T>, x: T, key: T -> real) returns (ys: seq<T>)
    requires Ascending(xs, key)
    ensures Ascending(ys, key) && multiset(ys) == multiset(xs) + multiset{x} && |ys| == |xs| + 1
  {
    var i := 0;
    while i < |xs| && key(xs[i]) <= key(x)
      invariant i <= |xs| && forall j | 0 <= j < i :: key(xs[j]) <= key(x)
    {
      i := i + 1;
    }
    ys := xs[..i] + [x] + xs[i..];
    SplitAt(xs, i);
    AscendingAround(xs, x, key, i);
  }

  lemma AscendingAround<T>(xs: seq<T>, x: T, key: T -> real, i: nat)
    requires Ascending(xs, key) && i <= |xs|
    requires forall j | 0 <= j < i :: key(xs[j]) <= key(x)
    requires i < |xs| ==> key(x) < key(xs[i])
    ensures Ascending(xs[..i] + [x] + xs[i..], key)
  {
  }

  lemma SplitAt<T>(xs: seq<T>, i: nat)
    requires i <= |xs|
    ensures multiset(xs) == multiset(xs[..i]) + multiset(xs[i..])
  {
    assert xs == xs[..i] + xs[i..];
  }

  method SortBy<T(==)>(xs: seq<T>, key: T -> real) returns (ys: seq<T>)
    ensures Ascending(ys, key) && multiset(ys) == multiset(xs) && |ys| == |xs|
  {
    ys := [];
    for i := 0 to |xs|
      invariant Ascending(ys, key) && multiset(ys) == multiset(xs[..i]) && |ys| == i
    {
      ys := InsertInto(ys, xs[i], key);
      assert xs[..i + 1] == xs[..i] + [xs[i]];
    }
    assert xs[..|xs|] == xs;
  }
}
