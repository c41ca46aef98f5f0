/**
  The stale sweep over guild issues. Every run recomputes its state from the comments and the
  assignment events of an issue, so its promises are statements about the log that any
  interleaving of people and sweeps can produce. Times are microseconds.
*/
module GuildSweep {
  import opened Sequences
  import opened Wrappers

  const DAY: int := 86_400_000_000
  const CHECK_IN_AFTER_DAYS := 14
  const AUTO_CLEAR_AFTER_DAYS := 7

  const STATUS_IN_PROGRESS := "In Progress"
  const STATUS_BUG_BASHERS := "Bug Bashers"
  const STATUS_SHIP_FEATURE := "Ship a New Feature"
  const NUDGE_HOLD_LABEL := "guild hold"

  /** `timedelta.days` rounds towards minus infinity. */
  function Days(duration: int): int
  {
    duration / DAY
  }

  function StatusForType(issueType: string): Option<string>
  {
    if issueType == "Feature" then Some(STATUS_SHIP_FEATURE)
    else if issueType == "Bug" || issueType == "Docs" || issueType == "Crash" then Some(STATUS_BUG_BASHERS)
    else None
  }

  /** Positions in the comments and in the assignment events of an issue. */
  datatype Mark = Mark(comments: nat, assignments: nat)

  /** Whom a check-in addresses, and where the logs stood when its sweep read the issue from the board. */
  datatype CheckIn = CheckIn(addressee: string, look: Mark)

  /** A comment; checkIn is there when the body holds the check-in marker. */
  datatype Comment = Comment(author: string, createdAt: int, checkIn: Option<CheckIn>)

  datatype Assignment = Assignment(login: string, createdAt: int)

  datatype Item = Item(
    number: nat,
    isArchived: bool,
    isIssue: bool,
    status: Option<string>,
    assignees: seq<string>,
    labels: seq<string>,
    closingPrs: nat,
    issueType: string,
    comments: seq<Comment>,
    assignments: seq<Assignment>)

  // ----- what a run computes from the log -----

  /** The latest time at which the login was assigned. */
  function LatestAssignment(assignments: seq<Assignment>, login: string): Option<int>
  {
    if assignments == [] then None
    else
      var n := |assignments| - 1;
      var before := LatestAssignment(assignments[..n], login);
      if assignments[n].login != login then before
      else if before.Some? && before.value >= assignments[n].createdAt then before
      else Some(assignments[n].createdAt)
  }

  /** The latest check-in. */
  function CheckInAt(comments: seq<Comment>): Option<int>
  {
    if comments == [] then None
    else
      var n := |comments| - 1;
      var before := CheckInAt(comments[..n]);
      if comments[n].checkIn.None? || (before.Some? && before.value >= comments[n].createdAt) then before
      else Some(comments[n].createdAt)
  }

  /** The later of a given time and the last comment by the assignee. */
  function ActivityAt(comments: seq<Comment>, assignee: string, since: int): int
  {
    if comments == [] then since
    else
      var n := |comments| - 1;
      var before := ActivityAt(comments[..n], assignee, since);
      if comments[n].checkIn.None? && comments[n].author == assignee && comments[n].createdAt > before
      then comments[n].createdAt else before
  }

  datatype Decision = Wait | Nudge | Clear

  function Decide(lastActivity: int, checkInAt: Option<int>, now: int): Decision
  {
    if checkInAt.None? || checkInAt.value < lastActivity then
      if Days(now - lastActivity) < CHECK_IN_AFTER_DAYS then Wait else Nudge
    else
      if Days(now - checkInAt.value) < AUTO_CLEAR_AFTER_DAYS then Wait else Clear
  }

  /** The thresholds in time units. */
  lemma DecideMeans(lastActivity: int, checkInAt: Option<int>, now: int)
    ensures var outstanding := checkInAt.Some? && checkInAt.value >= lastActivity;
            && (Decide(lastActivity, checkInAt, now) == Nudge <==> !outstanding && now - lastActivity >= 14 * DAY)
            && (Decide(lastActivity, checkInAt, now) == Clear <==> outstanding && now - checkInAt.value >= 7 * DAY)
  {
  }

  // ----- the loops of the source -----

  method LatestAssignmentTime(assignments: seq<Assignment>, login: string) returns (at: Option<int>)
    ensures at == LatestAssignment(assignments, login)
    ensures at.None? <==> forall e :: e in assignments ==> e.login != login
  {
    at := None;
    var i := 0;
    while i < |assignments|
      invariant 0 <= i <= |assignments|
      invariant at == LatestAssignment(assignments[..i], login)
      invariant at.None? <==> forall e :: e in assignments[..i] ==> e.login != login
    {
      assert assignments[..i + 1][..i] == assignments[..i];
      if assignments[i].login == login && (at.None? || assignments[i].createdAt > at.value) {
        at := Some(assignments[i].createdAt);
      }
      i := i + 1;
    }
    assert assignments[..|assignments|] == assignments;
  }

  /** The loop that finds, in a single traversal, when the assignee was last active and last checked on. */
  method ScanComments(comments: seq<Comment>, assignee: string, assignedAt: int)
    returns (lastActivity: int, checkInAt: Option<int>)
    ensures lastActivity == ActivityAt(comments, assignee, assignedAt)
    ensures checkInAt == CheckInAt(comments)
  {
    lastActivity, checkInAt := assignedAt, None;
    var i := 0;
    while i < |comments|
      invariant 0 <= i <= |comments|
      invariant lastActivity == ActivityAt(comments[..i], assignee, assignedAt)
      invariant checkInAt == CheckInAt(comments[..i])
    {
      assert comments[..i + 1][..i] == comments[..i];
      var comment := comments[i];
      if comment.checkIn.Some? {
        if checkInAt.None? || comment.createdAt > checkInAt.value {
          checkInAt := Some(comment.createdAt);
        }
      } else if comment.author == assignee {
        if comment.createdAt > lastActivity {
          lastActivity := comment.createdAt;
        }
      }
      i := i + 1;
    }
    assert comments[..|comments|] == comments;
  }

  /** What a sweep does to one item. */
  datatype Action =
    | Skip
    | PostCheckIn(number: nat, assignee: string)
    | ClearAssignment(number: nat, assignees: seq<string>, newStatus: Option<string>)
    | Abort(number: nat)

  /** The filters of the sweep, other than the one for guild assignees. */
  predicate IsCandidate(item: Item)
  {
    && !item.isArchived && item.isIssue && item.status == Some(STATUS_IN_PROGRESS)
    && NUDGE_HOLD_LABEL !in item.labels && item.closingPrs == 0
  }

  function ActionFor(item: Item, isGuild: string -> bool, now: int): Action
  {
    var guild := Filter(item.assignees, isGuild);
    if !IsCandidate(item) || guild == [] then Skip
    else
      match LatestAssignment(item.assignments, guild[0])
      case None => Abort(item.number)
      case Some(assignedAt) =>
        match Decide(ActivityAt(item.comments, guild[0], assignedAt), CheckInAt(item.comments), now)
        case Wait => Skip
        case Nudge => PostCheckIn(item.number, guild[0])
        case Clear => ClearAssignment(item.number, guild, StatusForType(item.issueType))
  }

  predicate IsAborted(actions: seq<Action>)
  {
    actions != [] && actions[|actions| - 1].Abort?
  }

  /** The effects on the items in order; the first abort ends the sweep. */
  function SweepActions(items: seq<Item>, isGuild: string -> bool, now: int): seq<Action>
  {
    if items == [] then []
    else
      var n := |items| - 1;
      var before := SweepActions(items[..n], isGuild, now);
      var action := ActionFor(items[n], isGuild, now);
      if IsAborted(before) || action.Skip? then before else before + [action]
  }

  lemma SweepActionsPush(items: seq<Item>, i: nat, isGuild: string -> bool, now: int)
    requires i < |items| && !IsAborted(SweepActions(items[..i], isGuild, now))
    ensures var before, action := SweepActions(items[..i], isGuild, now), ActionFor(items[i], isGuild, now);
            SweepActions(items[..i + 1], isGuild, now) == if action.Skip? then before else before + [action]
  {
    assert items[..i + 1][..i] == items[..i];
  }

  lemma {:induction false} AbortIsFinal(items: seq<Item>, i: nat, isGuild: string -> bool, now: int)
    requires i <= |items| && IsAborted(SweepActions(items[..i], isGuild, now))
    ensures SweepActions(items, isGuild, now) == SweepActions(items[..i], isGuild, now)
    decreases |items|
  {
    if i == |items| {
      assert items[..i] == items;
    } else {
      assert items[..|items| - 1][..i] == items[..i];
      AbortIsFinal(items[..|items| - 1], i, isGuild, now);
    }
  }

  function CountCheckIns(actions: seq<Action>): nat
  {
    if actions == [] then 0
    else CountCheckIns(actions[..|actions| - 1]) + (if actions[|actions| - 1].PostCheckIn? then 1 else 0)
  }

  function CountClears(actions: seq<Action>): nat
  {
    if actions == [] then 0
    else CountClears(actions[..|actions| - 1]) + (if actions[|actions| - 1].ClearAssignment? then 1 else 0)
  }

  method FilterGuild(assignees: seq<string>, isGuild: string -> bool) returns (guild: seq<string>)
    ensures guild == Filter(assignees, isGuild)
  {
    guild := [];
    var i := 0;
    while i < |assignees|
      invariant 0 <= i <= |assignees|
      invariant guild == Filter(assignees[..i], isGuild)
    {
      assert assignees[..i + 1][..i] == assignees[..i];
      if isGuild(assignees[i]) {
        guild := guild + [assignees[i]];
      }
      i := i + 1;
    }
    assert assignees[..|assignees|] == assignees;
  }

  method SweepItem(item: Item, isGuild: string -> bool, now: int) returns (action: Action)
    ensures action == ActionFor(item, isGuild, now)
  {
    if item.isArchived || !item.isIssue || item.status != Some(STATUS_IN_PROGRESS) {
      return Skip;
    }
    var guildAssignees := FilterGuild(item.assignees, isGuild);
    if guildAssignees == [] || NUDGE_HOLD_LABEL in item.labels || item.closingPrs > 0 {
      return Skip;
    }
    var assignee := guildAssignees[0];
    var assignedAt := LatestAssignmentTime(item.assignments, assignee);
    if assignedAt.None? {
      return Abort(item.number);
    }
    var lastActivity, checkInAt := ScanComments(item.comments, assignee, assignedAt.value);
    if checkInAt.None? || checkInAt.value < lastActivity {
      if Days(now - lastActivity) < CHECK_IN_AFTER_DAYS {
        return Skip;
      }
      return PostCheckIn(item.number, assignee);
    }
    if Days(now - checkInAt.value) < AUTO_CLEAR_AFTER_DAYS {
      return Skip;
    }
    return ClearAssignment(item.number, guildAssignees, StatusForType(item.issueType));
  }

  lemma CountsPush(actions: seq<Action>, action: Action)
    ensures CountCheckIns(actions + [action]) == CountCheckIns(actions) + (if action.PostCheckIn? then 1 else 0)
    ensures CountClears(actions + [action]) == CountClears(actions) + (if action.ClearAssignment? then 1 else 0)
  {
  }

  method RunStale(items: seq<Item>, isGuild: string -> bool, now: int)
    returns (actions: seq<Action>, checkedIn: nat, cleared: nat)
    ensures actions == SweepActions(items, isGuild, now)
    ensures checkedIn == CountCheckIns(actions) && cleared == CountClears(actions)
  {
    actions, checkedIn, cleared := [], 0, 0;
    var i := 0;
    while i < |items|
      invariant 0 <= i <= |items|
      invariant actions == SweepActions(items[..i], isGuild, now) && !IsAborted(actions)
      invariant checkedIn == CountCheckIns(actions) && cleared == CountClears(actions)
    {
      var action := SweepItem(items[i], isGuild, now);
      SweepActionsPush(items, i, isGuild, now);
      CountsPush(actions, action);
      i := i + 1;
      match action {
        case Skip =>
        case PostCheckIn(_, _) =>
          actions, checkedIn := actions + [action], checkedIn + 1;
        case ClearAssignment(_, _, _) =>
          actions, cleared := actions + [action], cleared + 1;
        case Abort(_) =>
          actions := actions + [action];
          AbortIsFinal(items, i, isGuild, now);
          return;
      }
    }
    assert items[..|items|] == items;
  }

  // ----- one issue within a sweep -----

  function NumberOf(action: Action): Option<nat>
  {
    if action.Skip? then None else Some(action.number)
  }

  /** The actions that concern one issue. */
  function OfNumber(actions: seq<Action>, number: nat): seq<Action>
  {
    Filter(actions, (a: Action) => NumberOf(a) == Some(number))
  }

  /** No item before the i-th aborts the sweep. */
  predicate Reached(items: seq<Item>, i: nat, isGuild: string -> bool, now: int)
    requires i <= |items|
  {
    forall j :: 0 <= j < i ==> !ActionFor(items[j], isGuild, now).Abort?
  }

  predicate DistinctNumbers(items: seq<Item>)
  {
    forall i, j :: 0 <= i < j < |items| ==> items[i].number != items[j].number
  }

  lemma {:induction false} AbortedExactly(items: seq<Item>, isGuild: string -> bool, now: int)
    ensures IsAborted(SweepActions(items, isGuild, now)) <==> !Reached(items, |items|, isGuild, now)
  {
    if items != [] {
      var n := |items| - 1;
      AbortedExactly(items[..n], isGuild, now);
      ReachedPush(items, n, isGuild, now);
    }
  }

  lemma ReachedPush(items: seq<Item>, n: nat, isGuild: string -> bool, now: int)
    requires |items| == n + 1
    ensures Reached(items[..n], n, isGuild, now) <==> Reached(items, n, isGuild, now)
    ensures Reached(items, n + 1, isGuild, now)
       <==> Reached(items, n, isGuild, now) && !ActionFor(items[n], isGuild, now).Abort?
  {
  }

  lemma ActionHasNumber(item: Item, isGuild: string -> bool, now: int)
    ensures ActionFor(item, isGuild, now).Skip? || NumberOf(ActionFor(item, isGuild, now)) == Some(item.number)
  {
  }

  lemma SweepPush(items: seq<Item>, n: nat, isGuild: string -> bool, now: int)
    requires |items| == n + 1
    ensures SweepActions(items, isGuild, now)
         == SweepActions(items[..n], isGuild, now) + OwnAction(items, n, isGuild, now)
  {
    AbortedExactly(items[..n], isGuild, now);
    ReachedPush(items, n, isGuild, now);
    EmptyIsNeutral(SweepActions(items[..n], isGuild, now));
  }

  lemma OwnActionHasNumber(items: seq<Item>, i: nat, isGuild: string -> bool, now: int, number: nat)
    requires i < |items|
    ensures OfNumber(OwnAction(items, i, isGuild, now), number)
         == if items[i].number == number then OwnAction(items, i, isGuild, now) else []
  {
    var action := ActionFor(items[i], isGuild, now);
    ActionHasNumber(items[i], isGuild, now);
    FilterOne(action, (a: Action) => NumberOf(a) == Some(number));
  }

  /** The last item adds its own action, if the sweep gets there. */
  lemma OfNumberPush(items: seq<Item>, n: nat, isGuild: string -> bool, now: int, number: nat)
    requires |items| == n + 1
    ensures OfNumber(SweepActions(items, isGuild, now), number)
         == if items[n].number == number
            then OfNumber(SweepActions(items[..n], isGuild, now), number) + OwnAction(items, n, isGuild, now)
            else OfNumber(SweepActions(items[..n], isGuild, now), number)
  {
    var before, own := SweepActions(items[..n], isGuild, now), OwnAction(items, n, isGuild, now);
    SweepPush(items, n, isGuild, now);
    FilterConcat(before, own, (a: Action) => NumberOf(a) == Some(number));
    OwnActionHasNumber(items, n, isGuild, now, number);
    EmptyIsNeutral(OfNumber(before, number));
  }

  /** The action of the i-th item, if the sweep gets there and there is one. */
  function OwnAction(items: seq<Item>, i: nat, isGuild: string -> bool, now: int): seq<Action>
    requires i < |items|
  {
    var action := ActionFor(items[i], isGuild, now);
    if Reached(items, i, isGuild, now) && !action.Skip? then [action] else []
  }

  lemma {:induction false} NoActionOfOthers(items: seq<Item>, isGuild: string -> bool, now: int, number: nat)
    requires forall i :: 0 <= i < |items| ==> items[i].number != number
    ensures OfNumber(SweepActions(items, isGuild, now), number) == []
  {
    if items != [] {
      NoActionOfOthers(items[..|items| - 1], isGuild, now, number);
      OfNumberPush(items, |items| - 1, isGuild, now, number);
    }
  }

  /** What a sweep over a whole board does to one issue: its own action, exactly when no earlier item aborts. */
  lemma {:induction false} PerformedExactly(items: seq<Item>, i: nat, isGuild: string -> bool, now: int)
    requires i < |items| && DistinctNumbers(items)
    ensures OfNumber(SweepActions(items, isGuild, now), items[i].number) == OwnAction(items, i, isGuild, now)
    decreases |items|
  {
    var n, number := |items| - 1, items[i].number;
    var front := items[..n];
    OfNumberPush(items, n, isGuild, now, number);
    OthersInFront(items, n);
    if i < n {
      PerformedExactly(front, i, isGuild, now);
      OwnActionInFront(items, n, i, isGuild, now);
    } else {
      NoActionOfOthers(front, isGuild, now, number);
      EmptyIsNeutral(OwnAction(items, i, isGuild, now));
    }
  }

  lemma OthersInFront(items: seq<Item>, n: nat)
    requires |items| == n + 1 && DistinctNumbers(items)
    ensures DistinctNumbers(items[..n])
    ensures forall i :: 0 <= i < n ==> items[..n][i] == items[i] && items[..n][i].number != items[n].number
  {
  }

  lemma OwnActionInFront(items: seq<Item>, n: nat, i: nat, isGuild: string -> bool, now: int)
    requires i < n <= |items|
    ensures OwnAction(items[..n], i, isGuild, now) == OwnAction(items, i, isGuild, now)
  {
    assert Reached(items[..n], i, isGuild, now) <==> Reached(items, i, isGuild, now);
  }

  // ----- the facts about the three maxima -----

  lemma {:induction false} LatestAssignmentIsMax(assignments: seq<Assignment>, login: string)
    ensures var latest := LatestAssignment(assignments, login);
            && (forall e :: e in assignments && e.login == login ==> latest.Some? && e.createdAt <= latest.value)
            && (latest.Some? ==> Assignment(login, latest.value) in assignments)
    decreases |assignments|
  {
    if assignments != [] {
      LatestAssignmentIsMax(assignments[..|assignments| - 1], login);
    }
  }

  lemma {:induction false} CheckInIsMax(comments: seq<Comment>)
    ensures var latest := CheckInAt(comments);
            && (forall c :: c in comments && c.checkIn.Some? ==> latest.Some? && c.createdAt <= latest.value)
            && (latest.Some? ==> exists c :: c in comments && c.checkIn.Some? && c.createdAt == latest.value)
    decreases |comments|
  {
    if comments != [] {
      var n := |comments| - 1;
      CheckInIsMax(comments[..n]);
      assert comments == comments[..n] + [comments[n]];
    }
  }

  /** A comment that counts as activity of the login. */
  predicate IsReply(c: Comment, login: string)
  {
    c.checkIn.None? && c.author == login
  }

  lemma {:induction false} ActivityIsMax(comments: seq<Comment>, assignee: string, since: int)
    ensures var last := ActivityAt(comments, assignee, since);
            && since <= last
            && (forall c :: c in comments && IsReply(c, assignee) ==> c.createdAt <= last)
            && (last == since || exists c :: c in comments && IsReply(c, assignee) && c.createdAt == last)
    decreases |comments|
  {
    if comments != [] {
      var n := |comments| - 1;
      ActivityIsMax(comments[..n], assignee, since);
      assert comments == comments[..n] + [comments[n]];
    }
  }
}
