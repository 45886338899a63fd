/** Stable sorting by an integer key, as the library sort of the source orders rows, trades and candles. */
module Sorting {

  function Inserted<T>(x: T, sorted: seq<T>, key: T -> int): seq<T> {
    if sorted == [] || key(x) < key(sorted[0]) then [x] + sorted
    else [sorted[0]] + Inserted(x, sorted[1..], key)
  }

  function SortedBy<T>(xs: seq<T>, key: T -> int): seq<T> {
    if xs == [] then [] else Inserted(xs[|xs| - 1], SortedBy(xs[..|xs| - 1], key), key)
  }

  ghost predicate Ordered<T>(xs: seq<T>, key: T -> int) {
    forall i, j :: 0 <= i < j < |xs| ==> key(xs[i]) <= key(xs[j])
  }

  lemma {:induction false} InsertionKeeps<T>(x: T, sorted: seq<T>, key: T -> int)
    ensures multiset(Inserted(x, sorted, key)) == multiset(sorted) + multiset{x}
    decreases |sorted|
  {
    if sorted != [] && key(x) >= key(sorted[0]) {
      InsertionKeeps(x, sorted[1..], key);
      assert sorted == [sorted[0]] + sorted[1..];
    }
  }

  lemma {:induction false} PrependKeepsOrder<T>(first: T, rest: seq<T>, key: T -> int)
    requires Ordered(rest, key) && forall x <- rest :: key(first) <= key(x)
    ensures Ordered([first] + rest, key)
  {
  }

  lemma {:induction false} InsertionOrders<T>(x: T, sorted: seq<T>, key: T -> int)
    requires Ordered(sorted, key)
    ensures Ordered(Inserted(x, sorted, key), key)
    decreases |sorted|
  {
    if sorted == [] {
    } else if key(x) < key(sorted[0]) {
      PrependKeepsOrder(x, sorted, key);
    } else {
      var rest := Inserted(x, sorted[1..], key);
      InsertionOrders(x, sorted[1..], key);
      InsertionKeeps(x, sorted[1..], key);
      forall y | y in rest
        ensures key(sorted[0]) <= key(y)
      {
        assert y in multiset(rest);
        assert y == x || y in sorted[1..];
      }
      PrependKeepsOrder(sorted[0], rest, key);
    }
  }

  /** The sort is a permutation in key order. */
  lemma {:induction false} SortingSorts<T>(xs: seq<T>, key: T -> int)
    ensures Ordered(SortedBy(xs, key), key) && multiset(SortedBy(xs, key)) == multiset(xs)
    ensures |SortedBy(xs, key)| == |xs|
    decreases |xs|
  {
    if xs == [] {
    } else {
      var n := |xs| - 1;
      SortingSorts(xs[..n], key);
      InsertionOrders(xs[n], SortedBy(xs[..n], key), key);
      InsertionKeeps(xs[n], SortedBy(xs[..n], key), key);
      assert xs == xs[..n] + [xs[n]];
      assert |multiset(SortedBy(xs, key))| == |SortedBy(xs, key)|;
    }
  }
}
