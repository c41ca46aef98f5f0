/**
  Python's stable `sorted(..., reverse=True)`: larger keys first, equal keys in their original order.
*/
module Sorting {
  import opened Sequences


  function InsertDescending<T>(sorted: seq<T>, x: T, key: T -> int): (r: seq<T>)
    ensures |r| == |sorted| + 1
  {
    if sorted == [] then [x]
    else
      var n := |sorted| - 1;
      if key(sorted[n]) >= key(x) then sorted + [x]
      else InsertDescending(sorted[..n], x, key) + [sorted[n]]
  }

  function SortDescending<T>(items: seq<T>, key: T -> int): (r: seq<T>)
    ensures |r| == |items|
  {
    if items == [] then []
    else InsertDescending(SortDescending(items[..|items| - 1], key), items[|items| - 1], key)
  }

  predicate IsDescending<T>(items: seq<T>, key: T -> int)
  {
    forall i, j :: 0 <= i < j < |items| ==> key(items[i]) >= key(items[j])
  }

  lemma {:induction false} InsertKeepsMembers<T>(sorted: seq<T>, x: T, key: T -> int)
    ensures multiset(InsertDescending(sorted, x, key)) == multiset(sorted) + multiset{x}
    decreases |sorted|
  {
    if sorted != [] {
      var n := |sorted| - 1;
      assert sorted == sorted[..n] + [sorted[n]];
      InsertKeepsMembers(sorted[..n], x, key);
    }
  }

  lemma {:induction false} InsertKeepsOrder<T>(sorted: seq<T>, x: T, key: T -> int)
    requires IsDescending(sorted, key)
    ensures IsDescending(InsertDescending(sorted, x, key), key)
    decreases |sorted|
  {
    if sorted != [] {
      var n := |sorted| - 1;
      if key(sorted[n]) < key(x) {
        InsertKeepsOrder(sorted[..n], x, key);
        var front := InsertDescending(sorted[..n], x, key);
        forall i | 0 <= i < |front| ensures key(front[i]) >= key(sorted[n]) {
          InsertMembers(sorted[..n], x, key, front[i]);
        }
      }
    }
  }

  lemma InsertMembers<T>(sorted: seq<T>, x: T, key: T -> int, y: T)
    ensures y in InsertDescending(sorted, x, key) <==> y == x || y in sorted
  {
  }

  /** Sorting permutes the items into descending order. */
  lemma {:induction false} SortIsPermutation<T>(items: seq<T>, key: T -> int)
    ensures multiset(SortDescending(items, key)) == multiset(items)
    ensures IsDescending(SortDescending(items, key), key)
    decreases |items|
  {
    if items != [] {
      var n := |items| - 1;
      SortIsPermutation(items[..n], key);
      InsertKeepsMembers(SortDescending(items[..n], key), items[n], key);
      InsertKeepsOrder(SortDescending(items[..n], key), items[n], key);
      assert items == items[..n] + [items[n]];
    }
  }

  lemma SortMembers<T>(items: seq<T>, key: T -> int, x: T)
    ensures x in SortDescending(items, key) <==> x in items
  {
    SortIsPermutation(items, key);
    assert x in SortDescending(items, key) <==> x in multiset(SortDescending(items, key));
    assert x in items <==> x in multiset(items);
  }

  lemma {:induction false} InsertKeepsDistinct<T, U>(sorted: seq<T>, x: T, key: T -> int, id: T -> U)
    requires Distinct(sorted, id) && forall i :: 0 <= i < |sorted| ==> id(sorted[i]) != id(x)
    ensures Distinct(InsertDescending(sorted, x, key), id)
    decreases |sorted|
  {
    if sorted != [] {
      var n := |sorted| - 1;
      if key(sorted[n]) < key(x) {
        InsertKeepsDistinct(sorted[..n], x, key, id);
        var front := InsertDescending(sorted[..n], x, key);
        forall i | 0 <= i < |front| ensures id(front[i]) != id(sorted[n]) {
          InsertMembers(sorted[..n], x, key, front[i]);
        }
      }
    }
  }

  lemma {:induction false} SortKeepsDistinct<T, U>(items: seq<T>, key: T -> int, id: T -> U)
    requires Distinct(items, id)
    ensures Distinct(SortDescending(items, key), id)
    decreases |items|
  {
    if items != [] {
      var n := |items| - 1;
      SortKeepsDistinct(items[..n], key, id);
      var front := SortDescending(items[..n], key);
      forall i | 0 <= i < |front| ensures id(front[i]) != id(items[n]) {
        SortMembers(items[..n], key, front[i]);
      }
      InsertKeepsDistinct(front, items[n], key, id);
    }
  }

  /** The items with one key, in order. */
  function WithKey<T>(items: seq<T>, key: T -> int, k: int): seq<T>
  {
    if items == [] then []
    else
      var n := |items| - 1;
      WithKey(items[..n], key, k) + if key(items[n]) == k then [items[n]] else []
  }

  lemma WithKeyPush<T>(items: seq<T>, x: T, key: T -> int, k: int)
    ensures WithKey(items + [x], key, k) == WithKey(items, key, k) + if key(x) == k then [x] else []
  {
    assert (items + [x])[..|items|] == items;
  }

  lemma {:induction false} InsertIsStable<T>(sorted: seq<T>, x: T, key: T -> int, k: int)
    requires IsDescending(sorted, key)
    ensures WithKey(InsertDescending(sorted, x, key), key, k)
         == WithKey(sorted, key, k) + if key(x) == k then [x] else []
    decreases |sorted|
  {
    if sorted != [] {
      var n := |sorted| - 1;
      if key(sorted[n]) >= key(x) {
        WithKeyPush(sorted, x, key, k);
      } else {
        InsertIsStable(sorted[..n], x, key, k);
        WithKeyPush(InsertDescending(sorted[..n], x, key), sorted[n], key, k);
      }
    } else {
      WithKeyPush([], x, key, k);
    }
  }

  /** Items with equal keys keep their order, which with the two properties above fixes the result. */
  lemma {:induction false} SortIsStable<T>(items: seq<T>, key: T -> int, k: int)
    ensures WithKey(SortDescending(items, key), key, k) == WithKey(items, key, k)
    decreases |items|
  {
    if items != [] {
      var n := |items| - 1;
      SortIsStable(items[..n], key, k);
      SortIsPermutation(items[..n], key);
      InsertIsStable(SortDescending(items[..n], key), items[n], key, k);
    }
  }
}
