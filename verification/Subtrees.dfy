/**
  The list discipline behind subtree grants, over any items and any relation that says when one
  item's subtree contains another's. Insertion skips what is already contained and prunes what
  the new item contains.
*/
module Subtrees {

  ghost predicate IsPreorder<T(!new)>(contains: (T, T) -> bool)
  {
    && (forall x :: contains(x, x))
    && (forall x, y, z :: contains(x, y) && contains(y, z) ==> contains(x, z))
  }

  predicate Covers<T>(items: seq<T>, x: T, contains: (T, T) -> bool)
  {
    exists i :: 0 <= i < |items| && contains(items[i], x)
  }

  /** No item lies in the subtree of another. */
  predicate IsAntichain<T>(items: seq<T>, contains: (T, T) -> bool)
  {
    forall i, j :: 0 <= i < |items| && 0 <= j < |items| && i != j ==> !contains(items[i], items[j])
  }

  /** The items outside the subtree of root, in order. */
  function Outside<T>(items: seq<T>, root: T, contains: (T, T) -> bool): (kept: seq<T>)
    ensures forall j :: 0 <= j < |kept| ==> kept[j] in items && !contains(root, kept[j])
  {
    if items == [] then []
    else
      var n := |items| - 1;
      Outside(items[..n], root, contains) + (if contains(root, items[n]) then [] else [items[n]])
  }

  function Inserted<T>(items: seq<T>, x: T, contains: (T, T) -> bool): seq<T>
  {
    if Covers(items, x, contains) then items else Outside(items, x, contains) + [x]
  }

  function InsertedAll<T>(items: seq<T>, contains: (T, T) -> bool): seq<T>
  {
    if items == [] then []
    else Inserted(InsertedAll(items[..|items| - 1], contains), items[|items| - 1], contains)
  }

  // ----- one insertion -----

  lemma {:induction false} OutsideHas<T>(items: seq<T>, root: T, contains: (T, T) -> bool, i: nat) returns (j: nat)
    requires i < |items| && !contains(root, items[i])
    ensures j < |Outside(items, root, contains)| && Outside(items, root, contains)[j] == items[i]
    decreases |items|
  {
    var n := |items| - 1;
    if i == n {
      j := |Outside(items[..n], root, contains)|;
    } else {
      j := OutsideHas(items[..n], root, contains, i);
    }
  }

  lemma {:induction false} OutsideIsAntichain<T>(items: seq<T>, root: T, contains: (T, T) -> bool)
    requires IsAntichain(items, contains)
    ensures IsAntichain(Outside(items, root, contains), contains)
    decreases |items|
  {
    if items != [] {
      var n := |items| - 1;
      OutsideIsAntichain(items[..n], root, contains);
      var front := Outside(items[..n], root, contains);
      forall j | 0 <= j < |front| ensures !contains(front[j], items[n]) && !contains(items[n], front[j]) {
        var i :| 0 <= i < n && items[..n][i] == front[j];
      }
    }
  }

  /** One insertion keeps the list an antichain. */
  lemma InsertedIsAntichain<T>(items: seq<T>, x: T, contains: (T, T) -> bool)
    requires IsAntichain(items, contains)
    ensures IsAntichain(Inserted(items, x, contains), contains)
  {
    if !Covers(items, x, contains) {
      OutsideIsAntichain(items, x, contains);
      var front := Outside(items, x, contains);
      forall j | 0 <= j < |front| ensures !contains(front[j], x) && !contains(x, front[j]) {
        var i :| 0 <= i < |items| && items[i] == front[j];
      }
    }
  }

  /** One insertion adds exactly the subtree of the new item to what the list covers. */
  lemma InsertedCovers<T(!new)>(items: seq<T>, x: T, contains: (T, T) -> bool, p: T)
    requires IsPreorder(contains)
    ensures Covers(Inserted(items, x, contains), p, contains) <==> Covers(items, p, contains) || contains(x, p)
  {
    var result := Inserted(items, x, contains);
    if Covers(items, x, contains) {
      var i :| 0 <= i < |items| && contains(items[i], x);
      assert contains(x, p) ==> contains(items[i], p);
    } else {
      var front := Outside(items, x, contains);
      assert result[|front|] == x;
      if i :| 0 <= i < |items| && contains(items[i], p) {
        if !contains(x, items[i]) {
          var j := OutsideHas(items, x, contains, i);
          assert result[j] == items[i];
        }
      }
      if j :| 0 <= j < |result| && contains(result[j], p) {
        if j < |front| {
          assert result[j] == front[j];
          var i :| 0 <= i < |items| && items[i] == front[j];
        }
      }
    }
  }

  lemma OutsidePush<T>(items: seq<T>, x: T, root: T, contains: (T, T) -> bool)
    ensures Outside(items + [x], root, contains)
         == Outside(items, root, contains) + (if contains(root, x) then [] else [x])
  {
  }

  // ----- all insertions -----

  lemma {:induction false} InsertedAllIsAntichain<T>(items: seq<T>, contains: (T, T) -> bool)
    ensures IsAntichain(InsertedAll(items, contains), contains)
    decreases |items|
  {
    if items != [] {
      var n := |items| - 1;
      InsertedAllIsAntichain(items[..n], contains);
      InsertedIsAntichain(InsertedAll(items[..n], contains), items[n], contains);
    }
  }

  lemma {:induction false} InsertedAllCovers<T(!new)>(items: seq<T>, contains: (T, T) -> bool, p: T)
    requires IsPreorder(contains)
    ensures Covers(InsertedAll(items, contains), p, contains) <==> Covers(items, p, contains)
    decreases |items|
  {
    if items != [] {
      var n := |items| - 1;
      InsertedAllCovers(items[..n], contains, p);
      InsertedCovers(InsertedAll(items[..n], contains), items[n], contains, p);
      if i :| 0 <= i < |items| && contains(items[i], p) {
        assert i < n ==> items[..n][i] == items[i];
      }
    }
  }

  /** Item i lies strictly inside no item's subtree, and has the subtree of no earlier item. */
  predicate IsFirstMinimal<T>(items: seq<T>, i: nat, contains: (T, T) -> bool)
    requires i < |items|
  {
    && (forall j :: 0 <= j < |items| && contains(items[j], items[i]) ==> contains(items[i], items[j]))
    && (forall j :: 0 <= j < i ==> !contains(items[j], items[i]))
  }

  /** For each item, whether it is a first minimal one. */
  function Marks<T>(items: seq<T>, contains: (T, T) -> bool): (marks: seq<bool>)
    ensures |marks| == |items|
    ensures forall i :: 0 <= i < |items| ==> marks[i] == IsFirstMinimal(items, i, contains)
  {
    seq(|items|, i requires 0 <= i < |items| => IsFirstMinimal(items, i, contains))
  }

  /** The marked items, in order. */
  function Marked<T>(items: seq<T>, marks: seq<bool>): seq<T>
    requires |items| == |marks|
  {
    if items == [] then []
    else
      var n := |items| - 1;
      Marked(items[..n], marks[..n]) + (if marks[n] then [items[n]] else [])
  }

  function FirstMinimal<T>(items: seq<T>, contains: (T, T) -> bool): seq<T>
  {
    Marked(items, Marks(items, contains))
  }

  lemma {:induction false} OutsideOfMarked<T>(items: seq<T>, before: seq<bool>, after: seq<bool>, root: T, contains: (T, T) -> bool)
    requires |items| == |before| == |after|
    requires forall i :: 0 <= i < |items| ==> after[i] == (before[i] && !contains(root, items[i]))
    ensures Marked(items, after) == Outside(Marked(items, before), root, contains)
    decreases |items|
  {
    if items != [] {
      var n := |items| - 1;
      OutsideOfMarked(items[..n], before[..n], after[..n], root, contains);
      var front := Marked(items[..n], before[..n]);
      if before[n] {
        assert Marked(items, before) == front + [items[n]];
        OutsidePush(front, items[n], root, contains);
      } else {
        assert Marked(items, before) == front;
      }
    }
  }

  /** A covered item leaves the marks of the others as they were, and is not marked. */
  lemma MarksAfterCovered<T(!new)>(items: seq<T>, n: nat, contains: (T, T) -> bool)
    requires IsPreorder(contains) && |items| == n + 1
    requires Covers(items[..n], items[n], contains)
    ensures Marks(items, contains) == Marks(items[..n], contains) + [false]
  {
  }

  /** An item that is not covered is marked, and unmarks exactly the items of its subtree. */
  lemma MarksAfterNew<T>(items: seq<T>, n: nat, contains: (T, T) -> bool)
    requires |items| == n + 1
    requires !Covers(items[..n], items[n], contains)
    ensures Marks(items, contains)[n]
    ensures forall i :: 0 <= i < n ==>
      Marks(items, contains)[i] == (Marks(items[..n], contains)[i] && !contains(items[n], items[i]))
  {
  }

  /** Inserting the items one by one leaves the first minimal ones, in their original order. */
  lemma {:induction false} InsertedAllIsFirstMinimal<T(!new)>(items: seq<T>, contains: (T, T) -> bool)
    requires IsPreorder(contains)
    ensures InsertedAll(items, contains) == FirstMinimal(items, contains)
    decreases |items|
  {
    if items != [] {
      var n := |items| - 1;
      var front, x := items[..n], items[n];
      InsertedAllIsFirstMinimal(front, contains);
      InsertedAllCovers(front, contains, x);
      PushMarks(items, n, contains);
    }
  }

  lemma PushMarks<T(!new)>(items: seq<T>, n: nat, contains: (T, T) -> bool)
    requires IsPreorder(contains) && |items| == n + 1
    ensures FirstMinimal(items, contains) ==
      if Covers(items[..n], items[n], contains) then FirstMinimal(items[..n], contains)
      else Outside(FirstMinimal(items[..n], contains), items[n], contains) + [items[n]]
  {
    var front, marks := items[..n], Marks(items, contains);
    if Covers(front, items[n], contains) {
      MarksAfterCovered(items, n, contains);
      assert marks[..n] == Marks(front, contains);
    } else {
      MarksAfterNew(items, n, contains);
      OutsideOfMarked(front, Marks(front, contains), marks[..n], items[n], contains);
    }
  }

  predicate IsMarked<T(==)>(items: seq<T>, marks: seq<bool>, x: T)
    requires |items| == |marks|
  {
    exists i :: 0 <= i < |items| && marks[i] && items[i] == x
  }

  lemma IsMarkedPush<T>(items: seq<T>, marks: seq<bool>, n: nat, x: T)
    requires |items| == |marks| == n + 1
    ensures IsMarked(items, marks, x) <==> IsMarked(items[..n], marks[..n], x) || (marks[n] && items[n] == x)
  {
    if IsMarked(items[..n], marks[..n], x) {
      var i :| 0 <= i < n && marks[..n][i] && items[..n][i] == x;
      assert marks[i] && items[i] == x;
    }
    if i :| 0 <= i < |items| && marks[i] && items[i] == x {
      assert i < n ==> items[..n][i] == x && marks[..n][i];
    }
  }

  lemma {:induction false} MarkedMembers<T>(items: seq<T>, marks: seq<bool>, x: T)
    requires |items| == |marks|
    ensures x in Marked(items, marks) <==> IsMarked(items, marks, x)
    decreases |items|
  {
    if items != [] {
      var n := |items| - 1;
      MarkedMembers(items[..n], marks[..n], x);
      IsMarkedPush(items, marks, n, x);
    }
  }

  lemma {:induction false} MarkedAll<T>(items: seq<T>, marks: seq<bool>)
    requires |items| == |marks| && forall i :: 0 <= i < |marks| ==> marks[i]
    ensures Marked(items, marks) == items
    decreases |items|
  {
    if items != [] {
      var n := |items| - 1;
      MarkedAll(items[..n], marks[..n]);
    }
  }

  /** An item whose subtree is strictly contained in no other has a first minimal equal. */
  lemma MinimalHasFirst<T(!new)>(items: seq<T>, n: nat, contains: (T, T) -> bool) returns (i: nat)
    requires IsPreorder(contains) && n < |items|
    requires forall j :: 0 <= j < |items| && contains(items[j], items[n]) ==> contains(items[n], items[j])
    ensures i <= n && IsFirstMinimal(items, i, contains)
    ensures contains(items[i], items[n]) && contains(items[n], items[i])
  {
    i := 0;
    while !contains(items[i], items[n])
      invariant i <= n
      invariant forall j :: 0 <= j < i ==> !contains(items[j], items[n])
      decreases n - i
    {
      i := i + 1;
    }
  }

  /** An antichain is what inserting its own items gives. */
  lemma FirstMinimalOfAntichain<T>(items: seq<T>, contains: (T, T) -> bool)
    requires IsAntichain(items, contains)
    ensures FirstMinimal(items, contains) == items
  {
    forall i | 0 <= i < |items| ensures IsFirstMinimal(items, i, contains) {
      assert forall j :: 0 <= j < |items| && j != i ==> !contains(items[j], items[i]);
    }
    MarkedAll(items, Marks(items, contains));
  }
}
