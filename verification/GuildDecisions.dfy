/** What a sweep does to one item, said of the item alone: which comments and assignments there are, and how old. */
module GuildDecisions {
  import opened Sequences
  import opened Wrappers
  import opened GuildSweep

  /** An open question for the sweep: in progress, not on hold, and without a pull request that closes it. */
  predicate MayBeSwept(item: Item)
  {
    && !item.isArchived && item.isIssue && item.status == Some("In Progress")
    && "guild hold" !in item.labels && item.closingPrs == 0
  }

  predicate IsFirstMember(item: Item, isGuild: string -> bool, k: nat)
  {
    && k < |item.assignees| && isGuild(item.assignees[k])
    && forall j :: 0 <= j < k ==> !isGuild(item.assignees[j])
  }

  predicate WasAssigned(item: Item, login: string)
  {
    exists e :: e in item.assignments && e.login == login
  }

  /** No assignment and no comment of the login is later than t; check-ins do not count. */
  predicate QuietAfter(item: Item, login: string, t: int)
  {
    && (forall e :: e in item.assignments && e.login == login ==> e.createdAt <= t)
    && (forall c :: c in item.comments && IsReply(c, login) ==> c.createdAt <= t)
  }

  /** There is a check-in after which the login has not been active. */
  predicate IsUnanswered(item: Item, login: string)
  {
    exists c :: c in item.comments && c.checkIn.Some? && QuietAfter(item, login, c.createdAt)
  }

  /** Some check-in is less than 7 days old. */
  predicate CheckedInWithinAWeek(item: Item, now: int)
  {
    exists c :: c in item.comments && c.checkIn.Some? && now < c.createdAt + 7 * DAY
  }

  /** The column an issue goes back to. */
  predicate GoesBackTo(status: Option<string>, issueType: string)
  {
    match status
    case Some(column) =>
      || (column == "Ship a New Feature" && issueType == "Feature")
      || (column == "Bug Bashers" && issueType in {"Bug", "Docs", "Crash"})
    case None => issueType !in {"Feature", "Bug", "Docs", "Crash"}
  }

  lemma {:induction false} FirstOfFilter(items: seq<string>, keep: string -> bool, k: nat)
    requires k < |items| && keep(items[k]) && forall j :: 0 <= j < k ==> !keep(items[j])
    ensures Filter(items, keep) != [] && Filter(items, keep)[0] == items[k]
    decreases |items|
  {
    var n := |items| - 1;
    if k < n {
      FirstOfFilter(items[..n], keep, k);
    } else {
      FilterNone(items[..n], keep);
    }
  }

  lemma LastActivityIs(item: Item, login: string, t: int)
    requires WasAssigned(item, login)
    ensures LatestAssignment(item.assignments, login).Some?
    ensures QuietAfter(item, login, t)
       <==> ActivityAt(item.comments, login, LatestAssignment(item.assignments, login).value) <= t
  {
    LatestAssignmentIsMax(item.assignments, login);
    ActivityIsMax(item.comments, login, LatestAssignment(item.assignments, login).value);
  }

  lemma UnansweredIs(item: Item, login: string)
    requires WasAssigned(item, login)
    ensures LatestAssignment(item.assignments, login).Some?
    ensures var last := ActivityAt(item.comments, login, LatestAssignment(item.assignments, login).value);
            IsUnanswered(item, login) <==> CheckInAt(item.comments).Some? && CheckInAt(item.comments).value >= last
  {
    CheckInIsMax(item.comments);
    LastActivityIs(item, login, 0);
    forall c | c in item.comments
      ensures QuietAfter(item, login, c.createdAt)
         <==> ActivityAt(item.comments, login, LatestAssignment(item.assignments, login).value) <= c.createdAt
    {
      LastActivityIs(item, login, c.createdAt);
    }
  }

  lemma CheckInWithinAWeekIs(item: Item, now: int)
    requires CheckInAt(item.comments).Some?
    ensures CheckedInWithinAWeek(item, now) <==> now < CheckInAt(item.comments).value + 7 * DAY
  {
    CheckInIsMax(item.comments);
  }

  lemma NeverAssigned(item: Item, login: string)
    ensures LatestAssignment(item.assignments, login).None? <==> !WasAssigned(item, login)
  {
    LatestAssignmentIsMax(item.assignments, login);
  }

  lemma StatusGoesBack(issueType: string)
    ensures GoesBackTo(StatusForType(issueType), issueType)
  {
  }

  /**
    An item without a guild assignee, or that may not be swept, is skipped. Otherwise the first guild
    assignee counts: the sweep ends if that login was never assigned; it checks in after 14 quiet days,
    and clears all guild assignees after 7 days without an answer to a check-in.
  */
  lemma ActionExactly(item: Item, isGuild: string -> bool, now: int, k: nat)
    requires IsFirstMember(item, isGuild, k)
    ensures var login, action := item.assignees[k], ActionFor(item, isGuild, now);
            if !MayBeSwept(item) then action == Skip
            else if !WasAssigned(item, login) then action == Abort(item.number)
            else if !IsUnanswered(item, login) then
              action == if QuietAfter(item, login, now - 14 * DAY) then PostCheckIn(item.number, login) else Skip
            else if CheckedInWithinAWeek(item, now) then action == Skip
            else
              && action.ClearAssignment? && action.number == item.number
              && action.assignees == Filter(item.assignees, isGuild) && GoesBackTo(action.newStatus, item.issueType)
    ensures DAY == 24 * 60 * 60 * 1_000_000
  {
    var login := item.assignees[k];
    FirstOfFilter(item.assignees, isGuild, k);
    NeverAssigned(item, login);
    if WasAssigned(item, login) {
      var last := ActivityAt(item.comments, login, LatestAssignment(item.assignments, login).value);
      DecideMeans(last, CheckInAt(item.comments), now);
      UnansweredIs(item, login);
      LastActivityIs(item, login, now - 14 * DAY);
      if CheckInAt(item.comments).Some? {
        CheckInWithinAWeekIs(item, now);
      }
      StatusGoesBack(item.issueType);
    }
  }

  lemma NoMemberIsSkipped(item: Item, isGuild: string -> bool, now: int)
    requires forall a :: a in item.assignees ==> !isGuild(a)
    ensures ActionFor(item, isGuild, now) == Skip
  {
    FilterNone(item.assignees, isGuild);
  }

  /** The counts of a sweep are the numbers of its check-ins and clearings. */
  lemma {:induction false} CountsAre(actions: seq<Action>)
    ensures CountCheckIns(actions) == |Filter(actions, (a: Action) => a.PostCheckIn?)|
    ensures CountClears(actions) == |Filter(actions, (a: Action) => a.ClearAssignment?)|
  {
    if actions != [] {
      CountsAre(actions[..|actions| - 1]);
    }
  }
}
