/**
  Whole histories of one guild issue: people comment, assign and change it while sweeps go on. A
  sweep reads the issue from the board, then its comments, then its timeline, and only then acts;
  people may do anything in between. Sweeps do not overlap: a new one cancels one that is going on.
*/
module GuildHistory {
  import opened Sequences
  import opened Wrappers
  import opened GuildSweep

  /** A sweep is killed after a quarter of an hour. */
  const RUN_LIMIT := 15 * 60 * 1_000_000

  /** A sweep that has found the issue assigned; it remembers how much of the two logs it has read. */
  datatype Sweeping = Sweeping(now: int, assignee: string, look: Mark, comments: Option<nat>, assignments: Option<nat>)

  /** An issue with at most one guild assignee. */
  datatype State = State(
    comments: seq<Comment>,
    assignments: seq<Assignment>,
    assignee: Option<string>,
    eligible: bool,
    sweep: Option<Sweeping>,
    clock: int)

  /** ReadItem carries the time the sweep started with; the sweep uses that time throughout. */
  datatype Step =
    | Say(author: string, at: int)
    | Assign(login: string, at: int)
    | Unassign(at: int)
    | SetEligible(eligible: bool, at: int)
    | ReadItem(now: int, at: int)
    | ReadComments(at: int)
    | ReadTimeline(at: int)
    | Act(at: int)

  const BOT := "zedgar"

  function Upto<T>(log: seq<T>, n: nat): (r: seq<T>)
    ensures n == |log| ==> r == log
  {
    if n <= |log| then log[..n] else log
  }

  predicate Ready(s: State)
  {
    s.sweep.Some? && s.sweep.value.comments.Some? && s.sweep.value.assignments.Some?
  }

  function SeenComments(s: State): seq<Comment>
    requires Ready(s)
  {
    Upto(s.comments, s.sweep.value.comments.value)
  }

  function SeenAssignments(s: State): seq<Assignment>
    requires Ready(s)
  {
    Upto(s.assignments, s.sweep.value.assignments.value)
  }

  /** The last activity in what the sweep has read; None when it finds no assignment. */
  function SeenActivity(s: State): Option<int>
    requires Ready(s)
  {
    var assignee := s.sweep.value.assignee;
    match LatestAssignment(SeenAssignments(s), assignee)
    case None => None
    case Some(at) => Some(ActivityAt(SeenComments(s), assignee, at))
  }

  /** What the sweep decides on what it has read; an abort counts as waiting. */
  function SweepDecision(s: State): Decision
  {
    if !Ready(s) || SeenActivity(s).None? then Wait
    else Decide(SeenActivity(s).value, CheckInAt(SeenComments(s)), s.sweep.value.now)
  }

  function Acted(s: State, at: int): State
  {
    match SweepDecision(s)
    case Wait => s.(sweep := None, clock := at)
    case Nudge =>
      var checkIn := CheckIn(s.sweep.value.assignee, s.sweep.value.look);
      s.(comments := s.comments + [Comment(BOT, at, Some(checkIn))], sweep := None, clock := at)
    case Clear =>
      s.(assignee := if s.assignee == Some(s.sweep.value.assignee) then None else s.assignee, sweep := None, clock := at)
  }

  function Apply(s: State, step: Step): State
  {
    match step
    case Say(author, at) => s.(comments := s.comments + [Comment(author, at, None)], clock := at)
    case Assign(login, at) =>
      s.(assignments := s.assignments + [Assignment(login, at)], assignee := Some(login), clock := at)
    case Unassign(at) => s.(assignee := None, clock := at)
    case SetEligible(eligible, at) => s.(eligible := eligible, clock := at)
    case ReadItem(now, at) =>
      var look := Mark(|s.comments|, |s.assignments|);
      s.(sweep := if s.eligible && s.assignee.Some? then Some(Sweeping(now, s.assignee.value, look, None, None)) else None,
         clock := at)
    case ReadComments(at) =>
      if s.sweep.Some? && s.sweep.value.comments.None? then
        s.(sweep := Some(s.sweep.value.(comments := Some(|s.comments|))), clock := at)
      else s.(clock := at)
    case ReadTimeline(at) =>
      if s.sweep.Some? && s.sweep.value.comments.Some? && s.sweep.value.assignments.None? then
        s.(sweep := Some(s.sweep.value.(assignments := Some(|s.assignments|))), clock := at)
      else s.(clock := at)
    case Act(at) => if Ready(s) then Acted(s, at) else s.(clock := at)
  }

  /** Time does not run backwards, and a sweep acts within its limit. */
  predicate Valid(s: State, step: Step)
  {
    && s.clock <= step.at
    && (step.ReadItem? ==> step.now <= step.at)
    && (step.Act? && s.sweep.Some? ==> step.at <= s.sweep.value.now + RUN_LIMIT)
  }

  function RunFrom(s: State, steps: seq<Step>): State
  {
    if steps == [] then s else Apply(RunFrom(s, steps[..|steps| - 1]), steps[|steps| - 1])
  }

  predicate ValidRun(s: State, steps: seq<Step>)
  {
    steps != [] ==>
      ValidRun(s, steps[..|steps| - 1]) && Valid(RunFrom(s, steps[..|steps| - 1]), steps[|steps| - 1])
  }

  /** A new issue, unassigned and without comments. */
  predicate Initial(s: State)
  {
    s.comments == [] && s.assignments == [] && s.assignee.None? && s.sweep.None?
  }

  // ----- the histories and the sweep over a board -----

  /** The board item of an issue, with the logs as a sweep reads them. */
  function ItemOf(number: nat, issueType: string, eligible: bool, assignee: Option<string>, comments: seq<Comment>,
                  assignments: seq<Assignment>): Item
  {
    Item(number, false, true, if eligible then Some(STATUS_IN_PROGRESS) else None,
         if assignee.Some? then [assignee.value] else [], [], 0, issueType, comments, assignments)
  }

  /** The item that a sweep which is ready to act has read. */
  function ItemRead(s: State, number: nat, issueType: string): Item
    requires Ready(s)
  {
    ItemOf(number, issueType, true, Some(s.sweep.value.assignee), SeenComments(s), SeenAssignments(s))
  }

  function ActionOf(s: State, number: nat, issueType: string): seq<Action>
    requires Ready(s)
  {
    match SweepDecision(s)
    case Wait => []
    case Nudge => [PostCheckIn(number, s.sweep.value.assignee)]
    case Clear => [ClearAssignment(number, [s.sweep.value.assignee], StatusForType(issueType))]
  }

  lemma OnlyMember(login: string, isGuild: string -> bool)
    requires isGuild(login)
    ensures Filter([login], isGuild) == [login]
  {
    assert [login][..0] == [];
  }

  /**
    A sweep over a whole board does to this issue what the history says, exactly when it gets to it:
    a sweep that an earlier item aborts is one that never acts here.
  */
  lemma SweepOfIssue(s: State, items: seq<Item>, i: nat, issueType: string, isGuild: string -> bool)
    requires i < |items| && DistinctNumbers(items) && Ready(s) && SeenActivity(s).Some?
    requires isGuild(s.sweep.value.assignee) && items[i] == ItemRead(s, items[i].number, issueType)
    ensures OfNumber(SweepActions(items, isGuild, s.sweep.value.now), items[i].number)
         == if Reached(items, i, isGuild, s.sweep.value.now) then ActionOf(s, items[i].number, issueType) else []
  {
    OnlyMember(s.sweep.value.assignee, isGuild);
    PerformedExactly(items, i, isGuild, s.sweep.value.now);
  }

  /** An issue that is not eligible or not assigned when it is read is left alone. */
  lemma OthersAreSkipped(number: nat, issueType: string, eligible: bool, assignee: Option<string>,
                         comments: seq<Comment>, assignments: seq<Assignment>, isGuild: string -> bool, now: int)
    requires !eligible || assignee.None?
    ensures ActionFor(ItemOf(number, issueType, eligible, assignee, comments, assignments), isGuild, now) == Skip
  {
  }

  // ----- activity -----

  /** The login was active at time t: assigned, or commenting. */
  predicate ActiveAt(s: State, login: string, t: int)
  {
    Assignment(login, t) in s.assignments || Comment(login, t, None) in s.comments
  }

  /** The login was active after the mark. */
  predicate ActiveSince(s: State, login: string, mark: Mark)
  {
    || (exists k :: mark.comments <= k < |s.comments| && IsReply(s.comments[k], login))
    || AssignedSince(s, login, mark)
  }

  predicate AssignedSince(s: State, login: string, mark: Mark)
  {
    exists k :: mark.assignments <= k < |s.assignments| && s.assignments[k].login == login
  }

  function LastActivity(s: State, login: string): int
  {
    match LatestAssignment(s.assignments, login)
    case None => s.clock
    case Some(at) => ActivityAt(s.comments, login, at)
  }

  /** LastActivity is the latest time at which an assigned person was active. */
  lemma LastActivityIsMax(s: State, login: string)
    requires LatestAssignment(s.assignments, login).Some?
    ensures ActiveAt(s, login, LastActivity(s, login))
    ensures forall t :: ActiveAt(s, login, t) ==> t <= LastActivity(s, login)
  {
    var since := LatestAssignment(s.assignments, login).value;
    LatestAssignmentIsMax(s.assignments, login);
    ActivityIsMax(s.comments, login, since);
    var last := LastActivity(s, login);
    if last != since {
      var c :| c in s.comments && IsReply(c, login) && c.createdAt == last;
      assert c == Comment(login, last, None);
    }
    forall t | ActiveAt(s, login, t) ensures t <= last {
      if Comment(login, t, None) in s.comments {
        assert IsReply(Comment(login, t, None), login);
      } else {
        assert Assignment(login, t).login == login;
      }
    }
  }

  // ----- the invariant -----

  predicate TimesInPast(s: State)
  {
    && (forall c :: c in s.comments ==> c.createdAt <= s.clock)
    && (forall e :: e in s.assignments ==> e.createdAt <= s.clock)
    && (s.sweep.Some? ==> s.sweep.value.now <= s.clock)
  }

  /** Entries after the mark are not older than t. */
  predicate NotOlderSince(s: State, mark: Mark, t: int)
  {
    && (forall k :: mark.comments <= k < |s.comments| ==> t <= s.comments[k].createdAt)
    && (forall k :: mark.assignments <= k < |s.assignments| ==> t <= s.assignments[k].createdAt)
  }

  /** The login's activity before the mark is not newer than t. */
  predicate QuietBefore(s: State, login: string, mark: Mark, t: int)
  {
    && (forall k :: 0 <= k < |s.comments| && k < mark.comments && IsReply(s.comments[k], login) ==>
          s.comments[k].createdAt <= t)
    && (forall k :: 0 <= k < |s.assignments| && k < mark.assignments && s.assignments[k].login == login ==>
          s.assignments[k].createdAt <= t)
  }

  predicate InLogs(s: State, mark: Mark)
  {
    mark.comments <= |s.comments| && mark.assignments <= |s.assignments|
  }

  /** What a sweep has read is at least what was there when it looked; no check-in was posted since. */
  predicate SweepOk(s: State)
  {
    s.sweep.Some? ==>
      var sw := s.sweep.value;
      && InLogs(s, sw.look) && NotOlderSince(s, sw.look, sw.now)
      && (sw.comments.Some? ==> sw.look.comments <= sw.comments.value <= |s.comments|)
      && (sw.assignments.Some? ==> sw.look.assignments <= sw.assignments.value <= |s.assignments|)
      && (forall k :: sw.look.comments <= k < |s.comments| ==> s.comments[k].checkIn.None?)
  }

  /** The addressee had been quiet for 14 days when the sweep looked; all that came later is newer. */
  predicate CheckInOk(s: State, c: Comment)
    requires c.checkIn.Some?
  {
    var CheckIn(addressee, look) := c.checkIn.value;
    && InLogs(s, look)
    && QuietBefore(s, addressee, look, c.createdAt - 14 * DAY)
    && NotOlderSince(s, look, c.createdAt - RUN_LIMIT)
  }

  predicate CheckInsOk(s: State)
  {
    forall c :: c in s.comments && c.checkIn.Some? ==> CheckInOk(s, c)
  }

  /** Before each check-in but the first, its addressee was active after all earlier check-ins. */
  ghost predicate CheckInsAlternate(s: State)
  {
    forall i, j :: 0 <= i < j < |s.comments| && s.comments[i].checkIn.Some? && s.comments[j].checkIn.Some? ==>
      EngagedBetween(s, s.comments[j].checkIn.value.addressee, s.comments[i].createdAt, s.comments[j].createdAt)
  }

  ghost predicate EngagedBetween(s: State, login: string, first: int, second: int)
  {
    exists t :: ActiveAt(s, login, t) && first < t <= second - 14 * DAY
  }

  /** Whoever is assigned now but was not when a sweep looked has been assigned since. */
  predicate AssigneeOk(s: State)
  {
    s.assignee.Some? ==>
      var a := s.assignee.value;
      && AssignedSince(s, a, Mark(0, 0))
      && (forall c :: c in s.comments && c.checkIn.Some? && c.checkIn.value.addressee != a ==>
            AssignedSince(s, a, c.checkIn.value.look))
      && (s.sweep.Some? && s.sweep.value.assignee != a ==> AssignedSince(s, a, s.sweep.value.look))
  }

  ghost predicate Invariant(s: State)
  {
    TimesInPast(s) && SweepOk(s) && CheckInsOk(s) && CheckInsAlternate(s) && AssigneeOk(s)
  }

  // ----- every step keeps the invariant -----

  /** What a sweep has read holds the activity of its assignee from before it looked, and every check-in. */
  lemma SeenIsEnough(s: State)
    requires SweepOk(s) && Ready(s) && SeenActivity(s).Some?
    ensures QuietBefore(s, s.sweep.value.assignee, s.sweep.value.look, SeenActivity(s).value)
    ensures forall c :: c in s.comments && c.checkIn.Some? ==> c in SeenComments(s)
  {
    var sw, last := s.sweep.value, SeenActivity(s).value;
    var comments, assignments := SeenComments(s), SeenAssignments(s);
    LatestAssignmentIsMax(assignments, sw.assignee);
    ActivityIsMax(comments, sw.assignee, LatestAssignment(assignments, sw.assignee).value);
    forall k | 0 <= k < sw.look.comments && IsReply(s.comments[k], sw.assignee) ensures s.comments[k].createdAt <= last {
      assert s.comments[k] == comments[k];
    }
    forall k | 0 <= k < sw.look.assignments && s.assignments[k].login == sw.assignee
      ensures s.assignments[k].createdAt <= last
    {
      assert s.assignments[k] == assignments[k];
    }
    forall c | c in s.comments && c.checkIn.Some? ensures c in comments {
      var k :| 0 <= k < |s.comments| && s.comments[k] == c;
      assert comments[k] == c;
    }
  }

  lemma SeenActivityIsActivity(s: State)
    requires Ready(s) && SeenActivity(s).Some?
    ensures ActiveAt(s, s.sweep.value.assignee, SeenActivity(s).value)
  {
    var assignee, last := s.sweep.value.assignee, SeenActivity(s).value;
    var since := LatestAssignment(SeenAssignments(s), assignee).value;
    LatestAssignmentIsMax(SeenAssignments(s), assignee);
    ActivityIsMax(SeenComments(s), assignee, since);
    if last != since {
      var c :| c in SeenComments(s) && IsReply(c, assignee) && c.createdAt == last;
      assert c == Comment(assignee, last, None);
    }
  }

  /** A sweep that posts a check-in has read 14 quiet days of its addressee, and activity since every check-in. */
  lemma NudgeFollowsQuiet(s: State)
    requires Invariant(s) && SweepDecision(s) == Nudge
    ensures var sw := s.sweep.value;
            var last := SeenActivity(s).value;
            && ActiveAt(s, sw.assignee, last) && last <= sw.now - 14 * DAY
            && QuietBefore(s, sw.assignee, sw.look, last)
            && (forall c :: c in s.comments && c.checkIn.Some? ==> c.createdAt < last)
  {
    SeenIsEnough(s);
    SeenActivityIsActivity(s);
    CheckInIsMax(SeenComments(s));
    DecideMeans(SeenActivity(s).value, CheckInAt(SeenComments(s)), s.sweep.value.now);
  }

  /** The state's logs extend the other's, by entries that are not older than anything in them. */
  predicate Extends(s': State, s: State)
  {
    && s.comments <= s'.comments && s.assignments <= s'.assignments
    && NotOlderSince(s', Mark(|s.comments|, |s.assignments|), s.clock)
  }

  lemma LogsGrow(s: State, step: Step)
    requires TimesInPast(s) && Valid(s, step)
    ensures Extends(Apply(s, step), s) && TimesInPast(Apply(s, step))
  {
  }

  lemma NotOlderStays(s': State, s: State, mark: Mark, t: int)
    requires Extends(s', s) && InLogs(s, mark) && NotOlderSince(s, mark, t) && t <= s.clock
    ensures InLogs(s', mark) && NotOlderSince(s', mark, t)
  {
  }

  lemma AssignedStays(s': State, s: State, login: string, mark: Mark)
    requires Extends(s', s) && AssignedSince(s, login, mark)
    ensures AssignedSince(s', login, mark)
  {
    var k :| mark.assignments <= k < |s.assignments| && s.assignments[k].login == login;
    assert s'.assignments[k].login == login;
  }

  lemma CheckInStays(s': State, s: State, c: Comment)
    requires Extends(s', s) && c.checkIn.Some? && CheckInOk(s, c) && c.createdAt <= s.clock
    ensures CheckInOk(s', c)
  {
    NotOlderStays(s', s, c.checkIn.value.look, c.createdAt - RUN_LIMIT);
  }

  lemma SweepIsKept(s: State, step: Step)
    requires Invariant(s) && Valid(s, step)
    ensures SweepOk(Apply(s, step))
  {
    var s' := Apply(s, step);
    LogsGrow(s, step);
    if !step.ReadItem? && s'.sweep.Some? {
      NotOlderStays(s', s, s.sweep.value.look, s.sweep.value.now);
    }
  }

  lemma CheckInsAreKept(s: State, step: Step)
    requires Invariant(s) && Valid(s, step)
    ensures CheckInsOk(Apply(s, step))
  {
    var s' := Apply(s, step);
    LogsGrow(s, step);
    forall c | c in s'.comments && c.checkIn.Some? ensures CheckInOk(s', c) {
      if c in s.comments {
        CheckInStays(s', s, c);
      } else {
        assert step.Act? && SweepDecision(s) == Nudge;
        NudgeFollowsQuiet(s);
        NotOlderStays(s', s, s.sweep.value.look, s.sweep.value.now);
      }
    }
  }

  lemma EngagedStays(s': State, s: State, login: string, first: int, second: int)
    requires Extends(s', s) && EngagedBetween(s, login, first, second)
    ensures EngagedBetween(s', login, first, second)
  {
    var t :| ActiveAt(s, login, t) && first < t <= second - 14 * DAY;
    assert ActiveAt(s', login, t);
  }

  lemma NudgeAlternates(s: State, step: Step, i: nat)
    requires Invariant(s) && Valid(s, step) && step.Act? && SweepDecision(s) == Nudge
    requires i < |s.comments| && s.comments[i].checkIn.Some?
    ensures EngagedBetween(Apply(s, step), s.sweep.value.assignee, s.comments[i].createdAt, step.at)
  {
    LogsGrow(s, step);
    NudgeFollowsQuiet(s);
    assert s.comments[i] in s.comments;
    assert ActiveAt(Apply(s, step), s.sweep.value.assignee, SeenActivity(s).value);
  }

  lemma AlternationIsKept(s: State, step: Step)
    requires Invariant(s) && Valid(s, step)
    ensures CheckInsAlternate(Apply(s, step))
  {
    var s' := Apply(s, step);
    LogsGrow(s, step);
    forall i, j | 0 <= i < j < |s'.comments| && s'.comments[i].checkIn.Some? && s'.comments[j].checkIn.Some?
      ensures EngagedBetween(s', s'.comments[j].checkIn.value.addressee, s'.comments[i].createdAt, s'.comments[j].createdAt)
    {
      if j < |s.comments| {
        EngagedStays(s', s, s.comments[j].checkIn.value.addressee, s.comments[i].createdAt, s.comments[j].createdAt);
      } else {
        NudgeAlternates(s, step, i);
      }
    }
  }

  /** A new assignment comes after every mark. */
  lemma AssignKeeps(s: State, login: string, at: int)
    requires Invariant(s)
    ensures AssigneeOk(Apply(s, Assign(login, at)))
  {
    var s' := Apply(s, Assign(login, at));
    assert s'.assignments[|s.assignments|].login == login;
    forall c | c in s.comments && c.checkIn.Some? ensures AssignedSince(s', login, c.checkIn.value.look) {
      assert CheckInOk(s, c);
    }
  }

  lemma AssigneeIsKept(s: State, step: Step)
    requires Invariant(s) && Valid(s, step)
    ensures AssigneeOk(Apply(s, step))
  {
    var s' := Apply(s, step);
    LogsGrow(s, step);
    if step.Assign? {
      AssignKeeps(s, step.login, step.at);
    } else if s'.assignee.Some? {
      var a := s'.assignee.value;
      AddresseesAreKept(s, step, a);
      AssignedStays(s', s, a, Mark(0, 0));
      forall c | c in s'.comments && c.checkIn.Some? && c.checkIn.value.addressee != a
        ensures AssignedSince(s', a, c.checkIn.value.look)
      {
        AssignedStays(s', s, a, c.checkIn.value.look);
      }
      if s'.sweep.Some? && s'.sweep.value.assignee != a {
        AssignedStays(s', s, a, s'.sweep.value.look);
      }
    }
  }

  /** A check-in that a sweep posts, and a sweep that looks, fit the assignee. */
  lemma AddresseesAreKept(s: State, step: Step, a: string)
    requires AssigneeOk(s) && Valid(s, step) && !step.Assign? && Apply(s, step).assignee == Some(a)
    ensures s.assignee == Some(a)
    ensures forall c :: c in Apply(s, step).comments && c.checkIn.Some? && c.checkIn.value.addressee != a ==>
              AssignedSince(s, a, c.checkIn.value.look)
    ensures Apply(s, step).sweep.Some? && Apply(s, step).sweep.value.assignee != a ==>
              AssignedSince(s, a, Apply(s, step).sweep.value.look)
  {
  }

  lemma ApplyKeeps(s: State, step: Step)
    requires Invariant(s) && Valid(s, step)
    ensures Invariant(Apply(s, step))
  {
    LogsGrow(s, step);
    SweepIsKept(s, step);
    CheckInsAreKept(s, step);
    AlternationIsKept(s, step);
    AssigneeIsKept(s, step);
  }

  lemma {:induction false} RunKeeps(s: State, steps: seq<Step>)
    requires Invariant(s) && ValidRun(s, steps)
    ensures Invariant(RunFrom(s, steps))
    decreases |steps|
  {
    if steps != [] {
      var n := |steps| - 1;
      RunKeeps(s, steps[..n]);
      ApplyKeeps(RunFrom(s, steps[..n]), steps[n]);
    }
  }

  // ----- the promises -----

  /** Every check-in is among the comments that a sweep in progress has read. */
  lemma CheckInsAreSeen(s: State)
    requires SweepOk(s) && Ready(s)
    ensures CheckInAt(SeenComments(s)) == CheckInAt(s.comments)
  {
    CheckInIsMax(SeenComments(s));
    CheckInIsMax(s.comments);
    forall c | c in s.comments && c.checkIn.Some? ensures c in SeenComments(s) {
      var k :| 0 <= k < |s.comments| && s.comments[k] == c;
      assert SeenComments(s)[k] == c;
    }
  }

  lemma RecentActivity(s: State, login: string, mark: Mark, t: int)
    requires ActiveSince(s, login, mark) && NotOlderSince(s, mark, t) && LatestAssignment(s.assignments, login).Some?
    ensures LastActivity(s, login) >= t
  {
    LastActivityIsMax(s, login);
    if k :| mark.comments <= k < |s.comments| && IsReply(s.comments[k], login) {
      assert s.comments[k] == Comment(login, s.comments[k].createdAt, None);
      assert ActiveAt(s, login, s.comments[k].createdAt);
    } else {
      var k :| mark.assignments <= k < |s.assignments| && s.assignments[k].login == login;
      assert s.assignments[k] == Assignment(login, s.assignments[k].createdAt);
      assert ActiveAt(s, login, s.assignments[k].createdAt);
    }
  }

  /**
    The assignee's last activity is 14 days older than a check-in exactly when the assignee has not
    been active since its sweep looked; and then the check-in was addressed to the assignee.
  */
  lemma QuietExactly(s: State, c: Comment)
    requires Invariant(s) && s.assignee.Some? && c in s.comments && c.checkIn.Some?
    ensures LastActivity(s, s.assignee.value) <= c.createdAt - 14 * DAY
       <==> !ActiveSince(s, s.assignee.value, c.checkIn.value.look)
    ensures !ActiveSince(s, s.assignee.value, c.checkIn.value.look) ==> c.checkIn.value.addressee == s.assignee.value
  {
    var a, look := s.assignee.value, c.checkIn.value.look;
    LatestAssignmentIsMax(s.assignments, a);
    LastActivityIsMax(s, a);
    var last := LastActivity(s, a);
    assert CheckInOk(s, c);
    if ActiveSince(s, a, look) {
      RecentActivity(s, a, look, c.createdAt - RUN_LIMIT);
    } else if Assignment(a, last) in s.assignments {
      var k :| 0 <= k < |s.assignments| && s.assignments[k] == Assignment(a, last);
    } else {
      var k :| 0 <= k < |s.comments| && s.comments[k] == Comment(a, last, None);
      assert IsReply(s.comments[k], a);
    }
  }

  /**
    A sweep ends an assignment only 7 days after a check-in. If the assignee has not been active since
    the sweep of that check-in looked, until now, the check-in was addressed to the assignee and the
    last activity is 21 days old.
  */
  lemma ClearIsLate(s0: State, steps: seq<Step>, at: int)
    requires Initial(s0) && ValidRun(s0, steps)
    requires var s := RunFrom(s0, steps);
             Valid(s, Act(at)) && SweepDecision(s) == Clear && s.assignee == Some(s.sweep.value.assignee)
    ensures var s := RunFrom(s0, steps);
            var a := s.assignee.value;
            && CheckInAt(s.comments).Some? && CheckInAt(s.comments).value <= at - 7 * DAY
            && forall c :: c in s.comments && c.checkIn.Some? && c.createdAt == CheckInAt(s.comments).value ==>
                 (!ActiveSince(s, a, c.checkIn.value.look) ==>
                   c.checkIn.value.addressee == a && LastActivity(s, a) <= at - 21 * DAY)
  {
    RunKeeps(s0, steps);
    var s := RunFrom(s0, steps);
    CheckInsAreSeen(s);
    DecideMeans(SeenActivity(s).value, CheckInAt(s.comments), s.sweep.value.now);
    forall c | c in s.comments && c.checkIn.Some? && !ActiveSince(s, s.assignee.value, c.checkIn.value.look)
      ensures c.checkIn.value.addressee == s.assignee.value && LastActivity(s, s.assignee.value) <= c.createdAt - 14 * DAY
    {
      QuietExactly(s, c);
    }
  }

  /**
    While a check-in is outstanding, every later sweep that reads this log and clears the assignment
    comes 21 days after the last activity, if and only if the assignee has not been active since the
    sweep of that check-in looked: neither before it posted, nor in the instant it posted.
  */
  lemma TwentyOneDaysExactly(s0: State, steps: seq<Step>, c: Comment)
    requires Initial(s0) && ValidRun(s0, steps)
    requires var s := RunFrom(s0, steps);
             && s.assignee.Some? && c in s.comments && c.checkIn.Some?
             && CheckInAt(s.comments) == Some(c.createdAt) && LastActivity(s, s.assignee.value) <= c.createdAt
    ensures var s := RunFrom(s0, steps);
            var last := LastActivity(s, s.assignee.value);
            (forall now :: Decide(last, CheckInAt(s.comments), now) == Clear ==> last <= now - 21 * DAY)
            <==> !ActiveSince(s, s.assignee.value, c.checkIn.value.look)
  {
    RunKeeps(s0, steps);
    var s := RunFrom(s0, steps);
    QuietExactly(s, c);
    OutstandingExactly(LastActivity(s, s.assignee.value), c.createdAt);
  }

  /** The same for any log: the check-in has to be 14 days younger than the last activity. */
  lemma OutstandingExactly(lastActivity: int, checkInAt: int)
    requires lastActivity <= checkInAt
    ensures (forall now :: Decide(lastActivity, Some(checkInAt), now) == Clear ==> lastActivity <= now - 21 * DAY)
       <==> lastActivity <= checkInAt - 14 * DAY
  {
    var earliest := checkInAt + 7 * DAY;
    DecideMeans(lastActivity, Some(checkInAt), earliest);
    assert Decide(lastActivity, Some(checkInAt), earliest) == Clear;
    forall now | Decide(lastActivity, Some(checkInAt), now) == Clear ensures now >= earliest {
      DecideMeans(lastActivity, Some(checkInAt), now);
    }
  }

  /** Activity after the clearing sweep looked is too late: the assignment goes within the sweep's limit. */
  lemma LateReplyIsLost(s0: State, steps: seq<Step>, at: int)
    requires Initial(s0) && ValidRun(s0, steps)
    requires var s := RunFrom(s0, steps);
             && Valid(s, Act(at)) && SweepDecision(s) == Clear && s.assignee == Some(s.sweep.value.assignee)
             && ActiveSince(s, s.assignee.value, s.sweep.value.look)
    ensures var s := RunFrom(s0, steps);
            && LastActivity(s, s.assignee.value) >= at - RUN_LIMIT
            && Apply(s, Act(at)).assignee.None?
  {
    RunKeeps(s0, steps);
    LateReplyInState(RunFrom(s0, steps), at);
  }

  lemma LateReplyInState(s: State, at: int)
    requires SweepOk(s) && AssigneeOk(s) && Valid(s, Act(at)) && SweepDecision(s) == Clear
    requires s.assignee == Some(s.sweep.value.assignee) && ActiveSince(s, s.assignee.value, s.sweep.value.look)
    ensures LastActivity(s, s.assignee.value) >= at - RUN_LIMIT && Apply(s, Act(at)).assignee.None?
  {
    ActivityAfterLook(s);
  }

  lemma ActivityAfterLook(s: State)
    requires SweepOk(s) && AssigneeOk(s) && s.sweep.Some? && s.assignee.Some?
    requires ActiveSince(s, s.assignee.value, s.sweep.value.look)
    ensures LastActivity(s, s.assignee.value) >= s.sweep.value.now
  {
    LatestAssignmentIsMax(s.assignments, s.assignee.value);
    RecentActivity(s, s.assignee.value, s.sweep.value.look, s.sweep.value.now);
  }

  /**
    Between any two check-ins the later one's addressee was active, at least 14 days before the
    later one; if that person was not assigned again in between, the activity is a comment.
  */
  lemma EngagedBetweenCheckIns(s0: State, steps: seq<Step>, i: nat, j: nat)
    requires Initial(s0) && ValidRun(s0, steps)
    requires var comments := RunFrom(s0, steps).comments;
             i < j < |comments| && comments[i].checkIn.Some? && comments[j].checkIn.Some?
    ensures var s := RunFrom(s0, steps);
            var first, second := s.comments[i], s.comments[j];
            var login := second.checkIn.value.addressee;
            && EngagedBetween(s, login, first.createdAt, second.createdAt)
            && ((forall t :: first.createdAt < t < second.createdAt ==> Assignment(login, t) !in s.assignments) ==>
                  exists t :: Comment(login, t, None) in s.comments && first.createdAt < t <= second.createdAt - 14 * DAY)
  {
    RunKeeps(s0, steps);
    var s := RunFrom(s0, steps);
    assert EngagedBetween(s, s.comments[j].checkIn.value.addressee, s.comments[i].createdAt, s.comments[j].createdAt);
  }

  // ----- three ways to lose an assignment early -----

  lemma RunPush(s: State, steps: seq<Step>, step: Step)
    ensures RunFrom(s, steps + [step]) == Apply(RunFrom(s, steps), step)
    ensures ValidRun(s, steps + [step]) <==> ValidRun(s, steps) && Valid(RunFrom(s, steps), step)
  {
  }

  /** A sweep that reads everything at one time. */
  function ReadingAt(steps: seq<Step>, t: int): seq<Step>
  {
    steps + [ReadItem(t, t)] + [ReadComments(t)] + [ReadTimeline(t)]
  }

  /** The state in which such a sweep is ready to act. */
  function ReadAt(s: State, login: string, t: int): State
  {
    var sweep := Sweeping(t, login, Mark(|s.comments|, |s.assignments|), Some(|s.comments|), Some(|s.assignments|));
    s.(sweep := Some(sweep), clock := t)
  }

  lemma AfterReading(s: State, steps: seq<Step>, login: string, t: int)
    requires ValidRun(s, steps) && RunFrom(s, steps).clock <= t
    requires RunFrom(s, steps).eligible && RunFrom(s, steps).assignee == Some(login)
    ensures ValidRun(s, ReadingAt(steps, t))
    ensures RunFrom(s, ReadingAt(steps, t)) == ReadAt(RunFrom(s, steps), login, t)
  {
    RunPush(s, steps, ReadItem(t, t));
    RunPush(s, steps + [ReadItem(t, t)], ReadComments(t));
    RunPush(s, steps + [ReadItem(t, t)] + [ReadComments(t)], ReadTimeline(t));
  }

  const NEW_ISSUE := State([], [], None, true, None, 0)
  const ASSIGNED: seq<Step> := [] + [Assign("a", 0)]
  const FIRST_DAY := State([], [Assignment("a", 0)], Some("a"), true, None, 0)

  lemma AfterAssignment()
    ensures ValidRun(NEW_ISSUE, ASSIGNED) && RunFrom(NEW_ISSUE, ASSIGNED) == FIRST_DAY
  {
    RunPush(NEW_ISSUE, [], Assign("a", 0));
    assert [] + [Assignment("a", 0)] == [Assignment("a", 0)];
  }

  function Posted(at: int): Comment
  {
    Comment(BOT, at, Some(CheckIn("a", Mark(0, 1))))
  }

  lemma FirstSweepNudges(comments: seq<Comment>, clock: int)
    requires forall c :: c in comments ==> c.checkIn.None? && c.author == "a" && c.createdAt >= 14 * DAY
    ensures SweepDecision(ReadAt(FIRST_DAY, "a", 14 * DAY).(comments := comments, clock := clock)) == Nudge
  {
    assert [Assignment("a", 0)][..0] == [] && comments[..0] == [];
  }

  const REPLY_BEFORE: seq<Step> := ReadingAt(ASSIGNED, 14 * DAY) + [Say("a", 14 * DAY + 1)]
  const REPLY_BEFORE_POST: seq<Step> := REPLY_BEFORE + [Act(14 * DAY + 2)]
  const REPLY := Comment("a", 14 * DAY + 1, None)
  const REPLIED := State([REPLY, Posted(14 * DAY + 2)], [Assignment("a", 0)], Some("a"), true, None, 14 * DAY + 2)

  lemma AfterReply()
    ensures ValidRun(NEW_ISSUE, REPLY_BEFORE)
    ensures RunFrom(NEW_ISSUE, REPLY_BEFORE)
         == ReadAt(FIRST_DAY, "a", 14 * DAY).(comments := [REPLY], clock := 14 * DAY + 1)
  {
    AfterAssignment();
    AfterReading(NEW_ISSUE, ASSIGNED, "a", 14 * DAY);
    RunPush(NEW_ISSUE, ReadingAt(ASSIGNED, 14 * DAY), Say("a", 14 * DAY + 1));
    assert [] + [REPLY] == [REPLY];
  }

  lemma AfterReplyBeforePost()
    ensures ValidRun(NEW_ISSUE, REPLY_BEFORE_POST) && RunFrom(NEW_ISSUE, REPLY_BEFORE_POST) == REPLIED
  {
    AfterReply();
    RunPush(NEW_ISSUE, REPLY_BEFORE, Act(14 * DAY + 2));
    assert [REPLY] + [Posted(14 * DAY + 2)] == [REPLY, Posted(14 * DAY + 2)];
    FirstSweepNudges([REPLY], 14 * DAY + 1);
  }

  /** A reply between the look and the post comes too early to count and too late to be read. */
  lemma ReplyBeforePostIsLost()
    ensures Initial(NEW_ISSUE) && ValidRun(NEW_ISSUE, ReadingAt(REPLY_BEFORE_POST, 21 * DAY + 2))
    ensures var s := RunFrom(NEW_ISSUE, ReadingAt(REPLY_BEFORE_POST, 21 * DAY + 2));
            LastActivity(s, "a") == 14 * DAY + 1 && SweepDecision(s) == Clear
  {
    AfterReplyBeforePost();
    AfterReading(NEW_ISSUE, REPLY_BEFORE_POST, "a", 21 * DAY + 2);
    LogOfTwo(REPLY, Posted(14 * DAY + 2));
  }

  /** What a sweep finds in two comments, one a reply and one a check-in. */
  lemma LogOfTwo(first: Comment, second: Comment)
    requires first.author == "a" || first.checkIn.Some?
    requires second.author == "a" || second.checkIn.Some?
    requires first.createdAt > 0 && second.createdAt > 0 && (first.checkIn.None? <==> second.checkIn.Some?)
    ensures LatestAssignment([Assignment("a", 0)], "a") == Some(0)
    ensures ActivityAt([first, second], "a", 0) == if first.checkIn.None? then first.createdAt else second.createdAt
    ensures CheckInAt([first, second]) == Some(if first.checkIn.None? then second.createdAt else first.createdAt)
  {
    assert [Assignment("a", 0)][..0] == [] && [first][..0] == [] && [first, second][..1] == [first];
    assert ActivityAt([first], "a", 0) == if first.checkIn.None? then first.createdAt else 0;
    assert CheckInAt([first]) == if first.checkIn.None? then None else Some(first.createdAt);
  }

  const CHECKED_IN: seq<Step> := ReadingAt(ASSIGNED, 14 * DAY) + [Act(14 * DAY)]
  const TIE: seq<Step> := CHECKED_IN + [Say("a", 14 * DAY)]
  const TIED_REPLY := Comment("a", 14 * DAY, None)

  lemma CheckInIsPosted()
    ensures Apply(ReadAt(FIRST_DAY, "a", 14 * DAY), Act(14 * DAY))
         == State([Posted(14 * DAY)], [Assignment("a", 0)], Some("a"), true, None, 14 * DAY)
  {
    FirstSweepNudges([], 14 * DAY);
    assert [] + [Posted(14 * DAY)] == [Posted(14 * DAY)];
  }

  lemma AfterCheckIn()
    ensures ValidRun(NEW_ISSUE, CHECKED_IN)
    ensures RunFrom(NEW_ISSUE, CHECKED_IN)
         == State([Posted(14 * DAY)], [Assignment("a", 0)], Some("a"), true, None, 14 * DAY)
  {
    AfterAssignment();
    AfterReading(NEW_ISSUE, ASSIGNED, "a", 14 * DAY);
    RunPush(NEW_ISSUE, ReadingAt(ASSIGNED, 14 * DAY), Act(14 * DAY));
    CheckInIsPosted();
  }

  /** A reply in the instant of the check-in is not seen as one. */
  lemma ReplyInSameInstantIsLost()
    ensures Initial(NEW_ISSUE) && ValidRun(NEW_ISSUE, ReadingAt(TIE, 21 * DAY))
    ensures var s := RunFrom(NEW_ISSUE, ReadingAt(TIE, 21 * DAY));
            LastActivity(s, "a") == 14 * DAY && SweepDecision(s) == Clear
  {
    AfterCheckIn();
    RunPush(NEW_ISSUE, CHECKED_IN, Say("a", 14 * DAY));
    assert [Posted(14 * DAY)] + [TIED_REPLY] == [Posted(14 * DAY), TIED_REPLY];
    AfterReading(NEW_ISSUE, TIE, "a", 21 * DAY);
    LogOfTwo(Posted(14 * DAY), TIED_REPLY);
  }

  const LATE: seq<Step> := ReadingAt(CHECKED_IN, 21 * DAY) + [Say("a", 21 * DAY + 1)]

  /** A reply while the clearing sweep is going on does not stop it. */
  lemma ReplyDuringClearingIsLost()
    ensures Initial(NEW_ISSUE) && ValidRun(NEW_ISSUE, LATE) && Valid(RunFrom(NEW_ISSUE, LATE), Act(21 * DAY + 2))
    ensures LastActivity(RunFrom(NEW_ISSUE, LATE), "a") == 21 * DAY + 1
    ensures Apply(RunFrom(NEW_ISSUE, LATE), Act(21 * DAY + 2)).assignee.None?
  {
    AfterCheckIn();
    AfterReading(NEW_ISSUE, CHECKED_IN, "a", 21 * DAY);
    RunPush(NEW_ISSUE, ReadingAt(CHECKED_IN, 21 * DAY), Say("a", 21 * DAY + 1));
    var late := Comment("a", 21 * DAY + 1, None);
    assert [Posted(14 * DAY)] + [late] == [Posted(14 * DAY), late];
    LogOfTwo(Posted(14 * DAY), late);
    var s := RunFrom(NEW_ISSUE, LATE);
    assert SeenComments(s) == [Posted(14 * DAY)] && [Posted(14 * DAY)][..0] == [];
    assert ActivityAt([Posted(14 * DAY)], "a", 0) == 0;
    assert SeenActivity(s) == Some(0) && CheckInAt(SeenComments(s)) == Some(14 * DAY);
  }

  // ----- a silent assignee -----

  /** The time with which the last sweep that acted had started, or the given time before the first. */
  function LastActed(s: State, steps: seq<Step>, before: int): int
  {
    if steps == [] then before
    else
      var front := RunFrom(s, steps[..|steps| - 1]);
      if steps[|steps| - 1].Act? && Ready(front) then front.sweep.value.now
      else LastActed(s, steps[..|steps| - 1], before)
  }

  /** Only other people comment, the issue stays eligible and is not reassigned. */
  predicate SilentStep(step: Step, assignee: string)
  {
    match step
    case Say(author, _) => author != assignee
    case Assign(_, _) => false
    case Unassign(_) => false
    case SetEligible(_, _) => false
    case _ => true
  }

  /** And from the start of one sweep that acts to the end of the next one it takes at most `gap`. */
  predicate Silent(s: State, steps: seq<Step>, assignee: string, gap: int, before: int)
  {
    steps != [] ==>
      var n := |steps| - 1;
      && Silent(s, steps[..n], assignee, gap, before)
      && SilentStep(steps[n], assignee)
      && steps[n].at <= LastActed(s, steps[..n], before) + gap
  }

  /** The sweep in progress has read all the assignee did, or started before the last of it. */
  predicate SweepKnows(s: State, assignee: string, last: int)
  {
    s.sweep.Some? ==>
      || s.sweep.value.now <= last
      || (s.sweep.value.assignee == assignee && !ActiveSince(s, assignee, s.sweep.value.look))
  }

  /** Where a silent run stands while the assignment has not been cleared. */
  predicate Pending(s: State, assignee: string, last: int, gap: int, lastActed: int)
  {
    && s.assignee == Some(assignee) && s.eligible
    && LastActivity(s, assignee) == last && SweepKnows(s, assignee, last)
    && s.clock < last + 21 * DAY + 2 * gap
    && OnSchedule(CheckInAt(s.comments), last, gap, lastActed)
  }

  predicate OnSchedule(checkInAt: Option<int>, last: int, gap: int, lastActed: int)
  {
    if checkInAt.None? || checkInAt.value < last then lastActed < last + 14 * DAY
    else checkInAt.value < last + 14 * DAY + gap && lastActed < checkInAt.value + 7 * DAY
  }

  /** An assignee who was not assigned again since the sweep looked is found assigned. */
  lemma AssignmentIsSeen(s: State, assignee: string)
    requires SweepOk(s) && Ready(s) && AssignedSince(s, assignee, Mark(0, 0))
    requires !AssignedSince(s, assignee, s.sweep.value.look)
    ensures LatestAssignment(SeenAssignments(s), assignee).Some?
  {
    var k :| 0 <= k < |s.assignments| && s.assignments[k].login == assignee;
    assert SeenAssignments(s)[k] == s.assignments[k];
    LatestAssignmentIsMax(SeenAssignments(s), assignee);
  }

  /** A sweep that looked after the last activity decides on all of it. */
  lemma FreshSweepSeesAll(s: State, assignee: string)
    requires Invariant(s) && Ready(s) && s.assignee == Some(assignee)
    requires s.sweep.value.assignee == assignee && !ActiveSince(s, assignee, s.sweep.value.look)
    ensures SeenActivity(s) == Some(LastActivity(s, assignee))
  {
    AssignmentIsSeen(s, assignee);
    assert LatestAssignment(s.assignments, assignee).Some? by {
      LatestAssignmentIsMax(s.assignments, assignee);
    }
    LastActivityIsMax(s, assignee);
    SeenIsEnough(s);
    SeenActivityIsActivity(s);
    LastIsBefore(s, assignee, s.sweep.value.look, SeenActivity(s).value);
  }

  lemma LastIsBefore(s: State, login: string, mark: Mark, t: int)
    requires QuietBefore(s, login, mark, t) && !ActiveSince(s, login, mark)
    requires ActiveAt(s, login, LastActivity(s, login))
    ensures LastActivity(s, login) <= t
  {
    var last := LastActivity(s, login);
    if Assignment(login, last) in s.assignments {
      var k :| 0 <= k < |s.assignments| && s.assignments[k] == Assignment(login, last);
    } else {
      var k :| 0 <= k < |s.comments| && s.comments[k] == Comment(login, last, None);
      assert IsReply(s.comments[k], login);
    }
  }

  /** One more comment, by someone else or a check-in, is no activity of the assignee. */
  lemma CommentByOther(s: State, c: Comment, assignee: string)
    requires TimesInPast(s) && s.clock <= c.createdAt && !IsReply(c, assignee) && AssignedSince(s, assignee, Mark(0, 0))
    ensures var s' := s.(comments := s.comments + [c], sweep := None, clock := c.createdAt);
            && LastActivity(s', assignee) == LastActivity(s, assignee)
            && CheckInAt(s'.comments) == if c.checkIn.Some? then Some(c.createdAt) else CheckInAt(s.comments)
  {
    LatestAssignmentIsMax(s.assignments, assignee);
    CheckInIsMax(s.comments);
    assert (s.comments + [c])[..|s.comments|] == s.comments;
  }

  lemma PendingAfterComment(s: State, author: string, at: int, assignee: string, last: int, gap: int, lastActed: int)
    requires Invariant(s) && Valid(s, Say(author, at)) && author != assignee && at <= lastActed + gap && gap >= 0
    requires Pending(s, assignee, last, gap, lastActed)
    ensures Pending(Apply(s, Say(author, at)), assignee, last, gap, lastActed)
  {
    var c := Comment(author, at, None);
    CommentByOther(s, c, assignee);
    var s' := Apply(s, Say(author, at));
    assert LastActivity(s', assignee) == last && CheckInAt(s'.comments) == CheckInAt(s.comments);
    if s.sweep.Some? && !ActiveSince(s, assignee, s.sweep.value.look) {
      assert !ActiveSince(s', assignee, s.sweep.value.look) by {
        assert forall k :: 0 <= k < |s.comments| ==> s'.comments[k] == s.comments[k];
        assert s'.comments[|s.comments|] == c;
      }
    }
  }

  lemma PendingAfterNudge(s: State, at: int, assignee: string, last: int, gap: int, lastActed: int)
    requires Invariant(s) && Valid(s, Act(at)) && at <= lastActed + gap && gap >= 0
    requires Pending(s, assignee, last, gap, lastActed) && SweepDecision(s) == Nudge
    requires CheckInAt(s.comments).Some? ==> CheckInAt(s.comments).value < last
    ensures Pending(Apply(s, Act(at)), assignee, last, gap, s.sweep.value.now)
  {
    var sw := s.sweep.value;
    CommentByOther(s, Comment(BOT, at, Some(CheckIn(sw.assignee, sw.look))), assignee);
    LatestAssignmentIsMax(s.assignments, assignee);
    LastActivityIsMax(s, assignee);
  }

  /** Acting only ends the sweep: nothing was due yet. */
  lemma PendingAfterWait(s: State, at: int, assignee: string, last: int, gap: int, lastActed: int)
    requires SweepOk(s) && Ready(s) && SweepDecision(s) == Wait && at <= lastActed + gap && gap >= 0
    requires LatestAssignment(s.assignments, assignee).Some?
    requires Pending(s, assignee, last, gap, lastActed)
    requires s.sweep.value.now <= last || SeenActivity(s) == Some(last)
    ensures Pending(Apply(s, Act(at)), assignee, last, gap, s.sweep.value.now)
  {
    if SeenActivity(s).Some? {
      CheckInsAreSeen(s);
      DecideMeans(SeenActivity(s).value, CheckInAt(s.comments), s.sweep.value.now);
    }
  }

  lemma PendingAfterClear(s: State, at: int, assignee: string, last: int, gap: int, lastActed: int)
    requires Ready(s) && SweepDecision(s) == Clear && at <= lastActed + gap && gap >= 0
    requires LatestAssignment(s.assignments, assignee).Some?
    requires Pending(s, assignee, last, gap, lastActed)
    requires s.sweep.value.now <= last || s.sweep.value.assignee == assignee
    ensures var s' := Apply(s, Act(at));
            || Pending(s', assignee, last, gap, s.sweep.value.now)
            || (s'.assignee.None? && at < last + 21 * DAY + 2 * gap)
  {
  }

  lemma PendingAfterAct(s: State, at: int, assignee: string, last: int, gap: int, lastActed: int)
    requires Invariant(s) && Valid(s, Act(at)) && Ready(s) && at <= lastActed + gap && gap >= 0
    requires Pending(s, assignee, last, gap, lastActed)
    ensures var s' := Apply(s, Act(at));
            || Pending(s', assignee, last, gap, s.sweep.value.now)
            || (s'.assignee.None? && at < last + 21 * DAY + 2 * gap)
  {
    LatestAssignmentIsMax(s.assignments, assignee);
    if s.sweep.value.now > last {
      FreshSweepSeesAll(s, assignee);
    }
    match SweepDecision(s)
    case Wait => PendingAfterWait(s, at, assignee, last, gap, lastActed);
    case Clear => PendingAfterClear(s, at, assignee, last, gap, lastActed);
    case Nudge =>
      CheckInsAreSeen(s);
      DecideMeans(SeenActivity(s).value, CheckInAt(s.comments), s.sweep.value.now);
      PendingAfterNudge(s, at, assignee, last, gap, lastActed);
  }

  lemma PendingStep(s: State, step: Step, assignee: string, last: int, gap: int, lastActed: int)
    requires Invariant(s) && Valid(s, step) && gap >= 0 && Pending(s, assignee, last, gap, lastActed)
    requires SilentStep(step, assignee) && step.at <= lastActed + gap
    ensures var s' := Apply(s, step);
            || Pending(s', assignee, last, gap, if step.Act? && Ready(s) then s.sweep.value.now else lastActed)
            || (step.Act? && s'.assignee.None? && step.at < last + 21 * DAY + 2 * gap)
  {
    LatestAssignmentIsMax(s.assignments, assignee);
    if step.Say? {
      PendingAfterComment(s, step.author, step.at, assignee, last, gap, lastActed);
    } else if step.Act? && Ready(s) {
      PendingAfterAct(s, step.at, assignee, last, gap, lastActed);
    }
  }

  /** The act that ended the assignment within the first n steps, in time. */
  predicate ClearedInTime(s: State, steps: seq<Step>, assignee: string, bound: int)
  {
    exists k :: 0 <= k < |steps| && ClearsAt(s, steps, assignee, k) && steps[k].at < bound
  }

  predicate ClearsAt(s: State, steps: seq<Step>, assignee: string, k: nat)
    requires k < |steps|
  {
    && steps[k].Act?
    && RunFrom(s, steps[..k]).assignee == Some(assignee)
    && RunFrom(s, steps[..k + 1]).assignee.None?
  }

  lemma {:induction false} SilentRun(s: State, steps: seq<Step>, assignee: string, gap: int, before: int)
    requires Invariant(s) && gap >= 0
    requires ValidRun(s, steps) && Silent(s, steps, assignee, gap, before)
    requires Pending(s, assignee, LastActivity(s, assignee), gap, before)
    ensures var last := LastActivity(s, assignee);
            || Pending(RunFrom(s, steps), assignee, last, gap, LastActed(s, steps, before))
            || ClearedInTime(s, steps, assignee, last + 21 * DAY + 2 * gap)
    decreases |steps|
  {
    if steps != [] {
      var n := |steps| - 1;
      var last, front := LastActivity(s, assignee), RunFrom(s, steps[..n]);
      SilentRun(s, steps[..n], assignee, gap, before);
      RunKeeps(s, steps[..n]);
      if Pending(front, assignee, last, gap, LastActed(s, steps[..n], before)) {
        PendingStep(front, steps[n], assignee, last, gap, LastActed(s, steps[..n], before));
        if RunFrom(s, steps).assignee.None? {
          assert steps[..n + 1] == steps;
          assert ClearsAt(s, steps, assignee, n);
        }
      } else {
        StaysCleared(s, steps, n, assignee, last + 21 * DAY + 2 * gap);
      }
    }
  }

  lemma StaysCleared(s: State, steps: seq<Step>, n: nat, assignee: string, bound: int)
    requires n <= |steps| && ClearedInTime(s, steps[..n], assignee, bound)
    ensures ClearedInTime(s, steps, assignee, bound)
  {
    var k :| 0 <= k < n && ClearsAt(s, steps[..n], assignee, k) && steps[..n][k].at < bound;
    assert steps[..n][..k] == steps[..k] && steps[..n][..k + 1] == steps[..k + 1];
    assert ClearsAt(s, steps, assignee, k);
  }

  /**
    If the assignee falls silent, and from the start of one sweep that acts to the end of the next it
    takes at most `gap`, a sweep clears the assignment less than 21 days and two gaps after the last
    activity: no silent run lasts longer without.
  */
  lemma SilentAssigneeIsCleared(s0: State, past: seq<Step>, steps: seq<Step>, assignee: string, gap: int, before: int)
    requires Initial(s0) && ValidRun(s0, past) && gap >= 0
    requires var s := RunFrom(s0, past);
             && s.assignee == Some(assignee) && s.eligible
             && LastActivity(s, assignee) == s.clock && before <= s.clock
             && ValidRun(s, steps) && Silent(s, steps, assignee, gap, before)
    requires var s := RunFrom(s0, past);
             RunFrom(s, steps).clock >= LastActivity(s, assignee) + 21 * DAY + 2 * gap
    ensures var s := RunFrom(s0, past);
            ClearedInTime(s, steps, assignee, LastActivity(s, assignee) + 21 * DAY + 2 * gap)
  {
    RunKeeps(s0, past);
    var s := RunFrom(s0, past);
    CheckInIsMax(s.comments);
    SilentRun(s, steps, assignee, gap, before);
  }
}
