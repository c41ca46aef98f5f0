/** Sequences: selecting items in order, and a law of concatenation. */
module Sequences {

  lemma Associative<T>(a: seq<T>, b: seq<T>, c: seq<T>)
    ensures a + b + c == a + (b + c)
  {
  }

  lemma EmptyIsNeutral<T>(s: seq<T>)
    ensures s + [] == s && [] + s == s
  {
  }

  /** The items that satisfy a predicate, in order. */
  function Filter<T(!new)>(items: seq<T>, keep: T -> bool): (r: seq<T>)
    ensures forall i :: i in r <==> i in items && keep(i)
  {
    if items == [] then []
    else
      var n := |items| - 1;
      assert items == items[..n] + [items[n]];
      Filter(items[..n], keep) + if keep(items[n]) then [items[n]] else []
  }

  lemma FilterPush<T(!new)>(items: seq<T>, x: T, keep: T -> bool)
    ensures Filter(items + [x], keep) == Filter(items, keep) + if keep(x) then [x] else []
  {
    assert (items + [x])[..|items|] == items;
  }

  lemma FilterOne<T(!new)>(x: T, keep: T -> bool)
    ensures Filter([x], keep) == if keep(x) then [x] else []
  {
    FilterPush([], x, keep);
    assert [] + [x] == [x];
  }

  lemma {:induction false} FilterConcat<T(!new)>(a: seq<T>, b: seq<T>, keep: T -> bool)
    ensures Filter(a + b, keep) == Filter(a, keep) + Filter(b, keep)
  {
    if b == [] {
      assert a + b == a;
    } else {
      var n := |b| - 1;
      var front, last := a + b[..n], if keep(b[n]) then [b[n]] else [];
      FilterConcat(a, b[..n], keep);
      FilterPush(front, b[n], keep);
      assert a + b == front + [b[n]];
      assert Filter(b, keep) == Filter(b[..n], keep) + last;
      Associative(Filter(a, keep), Filter(b[..n], keep), last);
    }
  }

  lemma {:induction false} FilterAll<T(!new)>(items: seq<T>, keep: T -> bool)
    requires forall i :: i in items ==> keep(i)
    ensures Filter(items, keep) == items
  {
    if items != [] {
      var n := |items| - 1;
      assert items == items[..n] + [items[n]] && items[n] in items;
      FilterAll(items[..n], keep);
    }
  }

  lemma {:induction false} FilterNone<T(!new)>(items: seq<T>, keep: T -> bool)
    requires forall i :: i in items ==> !keep(i)
    ensures Filter(items, keep) == []
  {
    if items != [] {
      var n := |items| - 1;
      assert items[n] in items;
      FilterNone(items[..n], keep);
    }
  }

  lemma {:induction false} FilterSame<T(!new)>(items: seq<T>, f: T -> bool, g: T -> bool)
    requires forall i :: i in items ==> f(i) == g(i)
    ensures Filter(items, f) == Filter(items, g)
  {
    if items != [] {
      var n := |items| - 1;
      assert items == items[..n] + [items[n]] && items[n] in items;
      FilterSame(items[..n], f, g);
    }
  }

  // ----- distinct keys -----

  predicate Distinct<T, U(==)>(items: seq<T>, id: T -> U)
  {
    forall i, j :: 0 <= i < j < |items| ==> id(items[i]) != id(items[j])
  }

  /** Selecting keeps keys distinct; only those of selected items have to be. */
  lemma {:induction false} FilterIsDistinct<T(!new), U>(items: seq<T>, keep: T -> bool, id: T -> U)
    requires forall i, j :: 0 <= i < j < |items| && keep(items[i]) && keep(items[j]) ==> id(items[i]) != id(items[j])
    ensures Distinct(Filter(items, keep), id)
  {
    if items != [] {
      var n := |items| - 1;
      var front := Filter(items[..n], keep);
      FilterIsDistinct(items[..n], keep, id);
      if keep(items[n]) {
        forall i | 0 <= i < |front| ensures id(front[i]) != id(items[n]) {
          assert front[i] in front;
        }
      }
    }
  }
}
