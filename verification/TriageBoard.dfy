/**
  Keeping the issues on a project board equal to the eligible ones.
*/
module TriageBoard {
  import opened Sequences

  /** An issue by its global node id, and its number. */
  datatype Issue = Issue(id: string, number: nat)

  /** Drafts and pull requests are items without an issue. */
  datatype Content = IssueContent(issue: Issue) | OtherContent

  datatype Item = Item(id: nat, content: Content)

  datatype Change = Plus(number: nat) | Minus(number: nat)

  predicate IsIssue(item: Item)
  {
    item.content.IssueContent?
  }

  function IssueIds(items: seq<Item>): set<string>
  {
    set i | i in items && IsIssue(i) :: i.content.issue.id
  }

  function Ids(issues: seq<Issue>): set<string>
  {
    set i | i in issues :: i.id
  }

  predicate IsStale(item: Item, eligible: set<string>)
  {
    IsIssue(item) && item.content.issue.id !in eligible
  }

  function IssueItems(items: seq<Item>): seq<Item>
  {
    Filter(items, IsIssue)
  }

  function OtherItems(items: seq<Item>): seq<Item>
  {
    Filter(items, (i: Item) => !IsIssue(i))
  }

  /** The items added for the eligible issues that are not on the board, with ids from next on. */
  function Added(eligible: seq<Issue>, onBoard: set<string>, next: nat): seq<Item>
  {
    if eligible == [] then []
    else
      var before := Added(eligible[..|eligible| - 1], onBoard, next);
      var last := eligible[|eligible| - 1];
      if last.id in onBoard then before else before + [Item(next + |before|, IssueContent(last))]
  }

  function Remaining(items: seq<Item>, eligible: set<string>): seq<Item>
  {
    Filter(items, (i: Item) => !IsStale(i, eligible))
  }

  function Synced(items: seq<Item>, eligible: seq<Issue>, next: nat): seq<Item>
  {
    Remaining(items, Ids(eligible)) + Added(eligible, IssueIds(items), next)
  }

  function Additions(eligible: seq<Issue>, onBoard: set<string>): seq<Change>
  {
    if eligible == [] then []
    else
      var last := eligible[|eligible| - 1];
      Additions(eligible[..|eligible| - 1], onBoard) + if last.id in onBoard then [] else [Plus(last.number)]
  }

  function Removals(current: seq<Item>, eligible: set<string>): seq<Change>
  {
    if current == [] then []
    else
      var last := current[|current| - 1];
      Removals(current[..|current| - 1], eligible)
      + if IsStale(last, eligible) then [Minus(last.content.issue.number)] else []
  }

  function Changes(items: seq<Item>, eligible: seq<Issue>): seq<Change>
  {
    Additions(eligible, IssueIds(items)) + Removals(IssueItems(items), Ids(eligible))
  }

  function RemovedIds(current: seq<Item>, eligible: set<string>): set<nat>
  {
    set i | i in current && IsStale(i, eligible) :: i.id
  }

  function Without(items: seq<Item>, ids: set<nat>): seq<Item>
  {
    Filter(items, (i: Item) => i.id !in ids)
  }

  /** Item ids are never reused. */
  function ItemId(item: Item): nat
  {
    item.id
  }

  predicate DistinctItems(items: seq<Item>)
  {
    Distinct(items, ItemId)
  }

  class Board {
    var items: seq<Item>
    var next: nat

    ghost predicate Valid()
      reads this
    {
      DistinctItems(items) && forall i :: i in items ==> i.id < next
    }

    method AddToProject(issue: Issue)
      requires Valid()
      modifies this
      ensures Valid() && next == old(next) + 1
      ensures items == old(items) + [Item(old(next), IssueContent(issue))]
    {
      items := items + [Item(next, IssueContent(issue))];
      next := next + 1;
    }

    method RemoveFromProject(id: nat)
      requires Valid()
      modifies this`items
      ensures Valid() && items == Without(old(items), {id})
    {
      WithoutKeepsIds(items, {id});
      items := Without(items, {id});
    }

    method AddMissing(eligible: seq<Issue>, onBoard: set<string>, dryRun: bool) returns (log: seq<Change>)
      requires Valid()
      modifies this
      ensures Valid() && log == Additions(eligible, onBoard)
      ensures items == if dryRun then old(items) else old(items) + Added(eligible, onBoard, old(next))
    {
      log := [];
      ghost var more: seq<Item> := [];
      for k := 0 to |eligible|
        invariant Valid() && log == Additions(eligible[..k], onBoard)
        invariant items == old(items) + more && next == old(next) + |more|
        invariant more == if dryRun then [] else Added(eligible[..k], onBoard, old(next))
      {
        assert eligible[..k + 1][..k] == eligible[..k];
        if eligible[k].id !in onBoard {
          log := log + [Plus(eligible[k].number)];
          if !dryRun {
            Associative(old(items), more, [Item(next, IssueContent(eligible[k]))]);
            more := more + [Item(next, IssueContent(eligible[k]))];
            AddToProject(eligible[k]);
          }
        }
      }
      assert eligible[..|eligible|] == eligible;
    }

    method RemoveStale(current: seq<Item>, eligible: set<string>, dryRun: bool) returns (log: seq<Change>)
      requires Valid() && forall i :: i in current ==> IsIssue(i)
      modifies this`items
      ensures Valid() && log == Removals(current, eligible)
      ensures items == if dryRun then old(items) else Without(old(items), RemovedIds(current, eligible))
    {
      log := [];
      ghost var was := items;
      ghost var removed: set<nat> := {};
      WithoutOthers(was, {});
      for k := 0 to |current|
        invariant Valid() && log == Removals(current[..k], eligible)
        invariant items == Without(was, removed)
        invariant removed == if dryRun then {} else RemovedIds(current[..k], eligible)
      {
        var item := current[k];
        assert current[..k + 1][..k] == current[..k];
        assert item in current;
        RemovedIdsPush(current, k, eligible);
        if item.content.issue.id !in eligible {
          log := log + [Minus(item.content.issue.number)];
          if !dryRun {
            WithoutTwice(was, removed, {item.id});
            RemoveFromProject(item.id);
            removed := removed + {item.id};
          }
        }
      }
      assert current[..|current|] == current;
    }

    method SyncProject(eligible: seq<Issue>, dryRun: bool) returns (log: seq<Change>)
      requires Valid()
      modifies this
      ensures Valid()
      ensures log == Changes(old(items), eligible)
      ensures items == if dryRun then old(items) else Synced(old(items), eligible, old(next))
    {
      var current := IssueItems(items);
      var onBoard := IssueIds(items);
      var additions := AddMissing(eligible, onBoard, dryRun);
      var removals := RemoveStale(current, Ids(eligible), dryRun);
      log := additions + removals;
      if !dryRun {
        SyncedIs(old(items), eligible, old(next));
      }
    }
  }

  // ----- filtering -----

  lemma WithoutKeepsIds(items: seq<Item>, ids: set<nat>)
    requires DistinctItems(items)
    ensures DistinctItems(Without(items, ids))
  {
    FilterIsDistinct(items, (i: Item) => i.id !in ids, ItemId);
  }

  lemma WithoutOthers(items: seq<Item>, ids: set<nat>)
    requires forall i :: i in items ==> i.id !in ids
    ensures Without(items, ids) == items
  {
    FilterAll(items, (i: Item) => i.id !in ids);
  }

  lemma {:induction false} WithoutTwice(items: seq<Item>, a: set<nat>, b: set<nat>)
    ensures Without(Without(items, a), b) == Without(items, a + b)
  {
    if items != [] {
      var n := |items| - 1;
      WithoutTwice(items[..n], a, b);
      FilterConcat(Without(items[..n], a), if items[n].id in a then [] else [items[n]], (i: Item) => i.id !in b);
    }
  }

  lemma RemovedIdsPush(current: seq<Item>, k: nat, eligible: set<string>)
    requires k < |current|
    ensures RemovedIds(current[..k + 1], eligible)
         == RemovedIds(current[..k], eligible) + if IsStale(current[k], eligible) then {current[k].id} else {}
  {
  }

  lemma {:induction false} AddedItems(eligible: seq<Issue>, onBoard: set<string>, next: nat)
    ensures forall i :: i in Added(eligible, onBoard, next) ==>
              i.id >= next && IsIssue(i) && i.content.issue in eligible && i.content.issue.id !in onBoard
    ensures forall e :: e in eligible && e.id !in onBoard ==>
              exists i :: i in Added(eligible, onBoard, next) && i.content == IssueContent(e)
  {
    if eligible != [] {
      var n := |eligible| - 1;
      var before := Added(eligible[..n], onBoard, next);
      AddedItems(eligible[..n], onBoard, next);
      assert eligible == eligible[..n] + [eligible[n]];
      if eligible[n].id !in onBoard {
        assert Item(next + |before|, IssueContent(eligible[n])) in Added(eligible, onBoard, next);
      }
    }
  }

  lemma SameIdSameItem(items: seq<Item>, a: Item, b: Item)
    requires DistinctItems(items) && a in items && b in items && a.id == b.id
    ensures a == b
  {
  }

  /** Removing the stale items one by one leaves the added ones and the others alone. */
  lemma SyncedIs(items: seq<Item>, eligible: seq<Issue>, next: nat)
    requires DistinctItems(items) && forall i :: i in items ==> i.id < next
    ensures Without(items + Added(eligible, IssueIds(items), next), RemovedIds(IssueItems(items), Ids(eligible)))
         == Synced(items, eligible, next)
  {
    var added := Added(eligible, IssueIds(items), next);
    var removed := RemovedIds(IssueItems(items), Ids(eligible));
    FilterConcat(items, added, (i: Item) => i.id !in removed);
    AddedItems(eligible, IssueIds(items), next);
    FilterAll(added, (i: Item) => i.id !in removed);
    forall i | i in items ensures i.id in removed <==> IsStale(i, Ids(eligible)) {
      if i.id in removed {
        var j :| j in IssueItems(items) && IsStale(j, Ids(eligible)) && j.id == i.id;
        SameIdSameItem(items, i, j);
      }
    }
    FilterSame(items, (i: Item) => i.id !in removed, (i: Item) => !IsStale(i, Ids(eligible)));
  }

  // ----- what a sync achieves -----

  /** The issues on the board are the eligible ones; the other items are the same as before, in order. */
  lemma SyncEqualsEligible(items: seq<Item>, eligible: seq<Issue>, next: nat)
    ensures IssueIds(Synced(items, eligible, next)) == Ids(eligible)
    ensures OtherItems(Synced(items, eligible, next)) == OtherItems(items)
  {
    var added := Added(eligible, IssueIds(items), next);
    var kept := Remaining(items, Ids(eligible));
    var synced := Synced(items, eligible, next);
    AddedItems(eligible, IssueIds(items), next);
    forall id ensures id in IssueIds(synced) <==> id in Ids(eligible) {
      if id in Ids(eligible) {
        var e :| e in eligible && e.id == id;
        if id in IssueIds(items) {
          var i :| i in items && IsIssue(i) && i.content.issue.id == id;
          assert i in kept && i in synced;
        } else {
          var i :| i in added && i.content == IssueContent(e);
          assert i in synced;
        }
      }
    }
    FilterConcat(kept, added, (i: Item) => !IsIssue(i));
    FilterNone(added, (i: Item) => !IsIssue(i));
    OthersRemain(items, Ids(eligible));
  }

  lemma {:induction false} OthersRemain(items: seq<Item>, eligible: set<string>)
    ensures OtherItems(Remaining(items, eligible)) == OtherItems(items)
  {
    if items != [] {
      var n := |items| - 1;
      OthersRemain(items[..n], eligible);
      FilterConcat(Remaining(items[..n], eligible), if IsStale(items[n], eligible) then [] else [items[n]],
                   (i: Item) => !IsIssue(i));
    }
  }

  lemma {:induction false} NoAdditions(eligible: seq<Issue>, onBoard: set<string>)
    requires Ids(eligible) <= onBoard
    ensures Additions(eligible, onBoard) == []
  {
    if eligible != [] {
      var n := |eligible| - 1;
      assert eligible == eligible[..n] + [eligible[n]] && eligible[n].id in Ids(eligible);
      assert Ids(eligible[..n]) <= Ids(eligible);
      NoAdditions(eligible[..n], onBoard);
    }
  }

  lemma {:induction false} NothingAdded(eligible: seq<Issue>, onBoard: set<string>, next: nat)
    requires Ids(eligible) <= onBoard
    ensures Added(eligible, onBoard, next) == []
  {
    if eligible != [] {
      var n := |eligible| - 1;
      assert eligible == eligible[..n] + [eligible[n]] && eligible[n].id in Ids(eligible);
      assert Ids(eligible[..n]) <= Ids(eligible);
      NothingAdded(eligible[..n], onBoard, next);
    }
  }

  lemma {:induction false} NoRemovals(current: seq<Item>, eligible: set<string>)
    requires forall i :: i in current ==> !IsStale(i, eligible)
    ensures Removals(current, eligible) == []
  {
    if current != [] {
      var n := |current| - 1;
      assert current[n] in current;
      NoRemovals(current[..n], eligible);
    }
  }

  lemma {:induction false} AdditionsOfMissing(eligible: seq<Issue>, onBoard: set<string>)
    requires Additions(eligible, onBoard) == []
    ensures Ids(eligible) <= onBoard
  {
    if eligible != [] {
      var n := |eligible| - 1;
      assert eligible == eligible[..n] + [eligible[n]];
      AdditionsOfMissing(eligible[..n], onBoard);
    }
  }

  lemma {:induction false} RemovalsOfStale(current: seq<Item>, eligible: set<string>)
    requires Removals(current, eligible) == []
    ensures forall i :: i in current ==> !IsStale(i, eligible)
  {
    if current != [] {
      var n := |current| - 1;
      assert current == current[..n] + [current[n]];
      RemovalsOfStale(current[..n], eligible);
    }
  }

  /** A sync has nothing to do exactly when the issues on the board are the eligible ones; it then keeps the board. */
  lemma SyncSettlesExactly(items: seq<Item>, eligible: seq<Issue>, next: nat)
    ensures Changes(items, eligible) == [] <==> IssueIds(items) == Ids(eligible)
    ensures Changes(items, eligible) == [] ==> Synced(items, eligible, next) == items
  {
    if IssueIds(items) == Ids(eligible) {
      forall i | i in items ensures !IsStale(i, Ids(eligible)) {
        assert IsIssue(i) ==> i.content.issue.id in IssueIds(items);
      }
      NoAdditions(eligible, IssueIds(items));
      NoRemovals(IssueItems(items), Ids(eligible));
      NothingAdded(eligible, IssueIds(items), next);
      FilterAll(items, (i: Item) => !IsStale(i, Ids(eligible)));
    }
    if Changes(items, eligible) == [] {
      AdditionsOfMissing(eligible, IssueIds(items));
      RemovalsOfStale(IssueItems(items), Ids(eligible));
      forall id | id in IssueIds(items) ensures id in Ids(eligible) {
        var i :| i in items && IsIssue(i) && i.content.issue.id == id;
        assert i in IssueItems(items);
      }
    }
  }

  /** A second sync with the same eligible issues does nothing. */
  lemma SecondSyncDoesNothing(items: seq<Item>, eligible: seq<Issue>, next: nat, later: nat)
    ensures var synced := Synced(items, eligible, next);
            Changes(synced, eligible) == [] && Synced(synced, eligible, later) == synced
  {
    SyncEqualsEligible(items, eligible, next);
    SyncSettlesExactly(Synced(items, eligible, next), eligible, later);
  }
}
