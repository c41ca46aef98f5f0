/**
  Whole histories of one pull request: people comment, push and change it while clean-ups go on. A
  run lists the pull request, then reads its comments, and only then acts, one effect at a time;
  people may do anything in between, and a run may stop anywhere. Runs do not overlap: a new one
  cancels one that is going on.
*/
module PrHistory {
  import opened Sequences
  import opened Wrappers
  import opened PrCleanup
  import opened PrDecisions

  /** A run is killed after a quarter of an hour. */
  const RUN_LIMIT := 15 * 60 * 1_000_000

  /** A run that has listed the pull request as pr; what it still has to do is known once it has read the comments. */
  datatype Running = Running(now: int, pr: PullRequest, read: Option<seq<Comment>>, cla: seq<Effect>, draft: seq<Effect>)

  /** Beside each comment stands the last activity that the run which posted it had listed. */
  datatype State = State(
    pr: PullRequest,
    comments: seq<Comment>,
    listed: seq<Option<int>>,
    run: Option<Running>,
    clock: int)

  /** StartRun carries the time the run started with; the run uses that time throughout. */
  datatype Step =
    | Say(author: string, body: Body, at: int)
    | Push(commitAt: Option<int>, at: int)
    | MarkDraft(at: int)
    | MarkReady(at: int)
    | SetLabels(labels: seq<string>, at: int)
    | SetOpen(isOpen: bool, at: int)
    | StartRun(now: int, at: int)
    | ReadComments(at: int)
    | Perform(at: int)
    | StopRun(at: int)

  /** A run with nothing left to do is over. */
  function Next(run: Running): Option<Running>
  {
    if run.cla == [] && run.draft == [] then None else Some(run)
  }

  /** The effect a run does next; its CLA pass comes first. */
  function NextEffect(run: Running): Option<Effect>
  {
    if run.read.None? then None
    else if run.cla != [] then Some(run.cla[0])
    else if run.draft != [] then Some(run.draft[0])
    else None
  }

  function AfterEffect(run: Running): Running
  {
    if run.cla != [] then run.(cla := run.cla[1..])
    else if run.draft != [] then run.(draft := run.draft[1..])
    else run
  }

  function Did(s: State, run: Running, effect: Effect, at: int): State
  {
    match effect
    case Posted(_, body) =>
      s.(comments := s.comments + [Comment(COMMUNITY_BOT_LOGIN, at, body)],
         listed := s.listed + [LatestDraftActivityAt(run.pr)], run := Next(run), clock := at)
    case Closed(_) => s.(pr := s.pr.(isOpen := false), run := Next(run), clock := at)
  }

  function Reading(run: Running, comments: seq<Comment>): Running
  {
    run.(read := Some(comments), cla := ClaEffects(run.pr, comments, run.now),
         draft := DraftEffects(run.pr, comments, run.now))
  }

  function Apply(s: State, step: Step): State
  {
    match step
    case Say(author, body, at) =>
      s.(comments := s.comments + [Comment(author, at, body)], listed := s.listed + [None], clock := at)
    case Push(commitAt, at) => s.(pr := s.pr.(commitAt := commitAt), clock := at)
    case MarkDraft(at) =>
      s.(pr := s.pr.(isDraft := true, transitions := s.pr.transitions + [ConvertToDraft(at)]), clock := at)
    case MarkReady(at) =>
      s.(pr := s.pr.(isDraft := false, transitions := s.pr.transitions + [ReadyForReview(at)]), clock := at)
    case SetLabels(labels, at) => s.(pr := s.pr.(labels := labels), clock := at)
    case SetOpen(isOpen, at) => s.(pr := s.pr.(isOpen := isOpen), clock := at)
    case StartRun(now, at) =>
      s.(run := if s.pr.isOpen then Some(Running(now, s.pr, None, [], [])) else None, clock := at)
    case ReadComments(at) =>
      if s.run.Some? && s.run.value.read.None? then s.(run := Next(Reading(s.run.value, s.comments)), clock := at)
      else s.(clock := at)
    case Perform(at) =>
      if s.run.Some? && NextEffect(s.run.value).Some? then
        Did(s, AfterEffect(s.run.value), NextEffect(s.run.value).value, at)
      else s.(clock := at)
    case StopRun(at) => s.(run := None, clock := at)
  }

  /**
    Time does not run backwards, and a run acts within its limit. Only the script posts its markers,
    and its bot the bare checks.
  */
  predicate Valid(s: State, step: Step)
  {
    && s.clock <= step.at
    && (match step
        case Say(author, body, at) =>
          && !body.draftWarning && !body.draftClose && !body.claClose
          && !IsBotCheck(Comment(author, at, body))
        case Push(commitAt, at) => commitAt.Some? ==> commitAt.value <= at
        case StartRun(now, at) => now <= at
        case Perform(at) => s.run.Some? ==> at <= s.run.value.now + RUN_LIMIT
        case _ => true)
  }

  function RunFrom(s: State, steps: seq<Step>): State
  {
    if steps == [] then s else Apply(RunFrom(s, steps[..|steps| - 1]), steps[|steps| - 1])
  }

  predicate ValidRun(s: State, steps: seq<Step>)
  {
    steps != [] ==>
      ValidRun(s, steps[..|steps| - 1]) && Valid(RunFrom(s, steps[..|steps| - 1]), steps[|steps| - 1])
  }

  /** A newly opened pull request. */
  predicate Initial(s: State)
  {
    && s.comments == [] && s.listed == [] && s.pr.transitions == [] && s.run.None?
    && s.pr.createdAt <= s.clock
    && (s.pr.commitAt.Some? ==> s.pr.commitAt.value <= s.clock)
  }

  /** A run over any list of pull requests, stopped anywhere, has done to this one a first part of what it decided on reading. */
  lemma RunOfPullRequest(prs: seq<PullRequest>, i: nat, commentsOf: nat -> seq<Comment>, run: Running, done: nat)
    requires i < |prs| && DistinctNumbers(prs) && prs[i] == run.pr
    requires done <= |RunEffects(prs, commentsOf, run.now)|
    ensures var decided := Reading(run, commentsOf(run.pr.number));
            var all := RunEffects(prs, commentsOf, run.now);
            && OnNumber(all, run.pr.number) == decided.cla + decided.draft
            && OnNumber(all[..done], run.pr.number) <= decided.cla + decided.draft
  {
    EffectsOnOne(prs, i, commentsOf, run.now, done);
  }

  /** The run's next effect is to close the pull request for its CLA. */
  predicate ClosesForCla(s: State)
  {
    s.run.Some? && s.run.value.read.Some? && s.run.value.cla != [] && s.run.value.cla[0].Closed?
  }

  /** The run's next effect is to close the pull request as a stale draft. */
  predicate ClosesDraft(s: State)
  {
    && s.run.Some? && s.run.value.read.Some?
    && s.run.value.cla == [] && s.run.value.draft != [] && s.run.value.draft[0].Closed?
  }

  // ----- the CLA, over all runs -----

  /** At most one of the comments satisfies the predicate. */
  predicate AtMostOne(comments: seq<Comment>, p: Comment -> bool)
  {
    forall i, j :: 0 <= i < j < |comments| ==> !(p(comments[i]) && p(comments[j]))
  }

  predicate NoneOf(comments: seq<Comment>, p: Comment -> bool)
  {
    forall c :: c in comments ==> !p(c)
  }

  const BOT_CHECK := (c: Comment) => IsBotCheck(c)
  const CLA_EXPLANATION := (c: Comment) => c.body.claClose

  predicate ChecksOk(comments: seq<Comment>, openedAt: int)
  {
    && AtMostOne(comments, BOT_CHECK)
    && AtMostOne(comments, CLA_EXPLANATION)
    && (forall c :: c in comments && IsBotCheck(c) ==> c.createdAt >= openedAt + 7 * DAY)
  }

  predicate ClosableForCla(run: Running)
  {
    run.now >= run.pr.createdAt + 8 * DAY && run.read.Some? && !AuthorReplied(run.read.value, run.pr.author)
  }

  /** What the run still has to do for the CLA, and why it may. */
  predicate ClaPending(run: Running, comments: seq<Comment>)
  {
    var n := run.pr.number;
    || run.cla == []
    || (run.cla == [Posted(n, CLA_RETRY_COMMENT)] && NoneOf(comments, BOT_CHECK) && run.now >= run.pr.createdAt + 7 * DAY)
    || (run.cla == [Posted(n, CLA_CLOSE_COMMENT), Closed(n)] && NoneOf(comments, CLA_EXPLANATION) && ClosableForCla(run))
    || (run.cla == [Closed(n)] && ClosableForCla(run))
  }

  predicate DraftForm(run: Running)
  {
    var n := run.pr.number;
    || run.draft == []
    || run.draft == [Posted(n, DRAFT_WARNING_COMMENT)]
    || run.draft == [Posted(n, DRAFT_CLOSE_COMMENT), Closed(n)]
    || run.draft == [Closed(n)]
  }

  predicate ClaOk(s: State)
  {
    && ChecksOk(s.comments, s.pr.createdAt)
    && (s.run.Some? ==>
          var run := s.run.value;
          && run.pr.createdAt == s.pr.createdAt && run.pr.author == s.pr.author && run.now <= s.clock
          && ClaPending(run, s.comments) && DraftForm(run))
  }

  lemma ChecksAfterPost(comments: seq<Comment>, openedAt: int, c: Comment)
    requires ChecksOk(comments, openedAt)
    requires IsBotCheck(c) ==> NoneOf(comments, BOT_CHECK) && c.createdAt >= openedAt + 7 * DAY
    requires c.body.claClose ==> NoneOf(comments, CLA_EXPLANATION)
    ensures ChecksOk(comments + [c], openedAt)
  {
  }

  /** Reading the comments: what a run decides for the CLA is allowed. */
  lemma ClaReading(run: Running, comments: seq<Comment>)
    requires ChecksOk(comments, run.pr.createdAt)
    ensures ClaPending(Reading(run, comments), comments) && DraftForm(Reading(run, comments))
  {
    LatestClaRetryIsMax(comments);
    LatestMarkerIsMax(comments, ClaClose, None);
    if LatestMarker(comments, ClaClose, None).None? {
      assert forall c :: c in comments && c.body.claClose ==> Holds(c.body, ClaClose);
    }
  }

  lemma ClaPerforming(s: State, at: int)
    requires ClaOk(s) && Valid(s, Perform(at)) && s.run.Some? && NextEffect(s.run.value).Some?
    ensures ClaOk(Apply(s, Perform(at)))
  {
    var effect := NextEffect(s.run.value).value;
    if effect.Posted? {
      ChecksAfterPost(s.comments, s.pr.createdAt, Comment(COMMUNITY_BOT_LOGIN, at, effect.body));
    }
  }

  lemma ClaSaying(s: State, author: string, body: Body, at: int)
    requires ClaOk(s) && Valid(s, Say(author, body, at))
    ensures ClaOk(Apply(s, Say(author, body, at)))
  {
    ChecksAfterPost(s.comments, s.pr.createdAt, Comment(author, at, body));
  }

  lemma ClaOkKept(s: State, step: Step)
    requires ClaOk(s) && Valid(s, step)
    ensures ClaOk(Apply(s, step)) && Apply(s, step).pr.createdAt == s.pr.createdAt
  {
    match step
    case Say(author, body, at) => ClaSaying(s, author, body, at);
    case ReadComments(at) =>
      if s.run.Some? {
        ClaReading(s.run.value, s.comments);
      }
    case Perform(at) =>
      if s.run.Some? && NextEffect(s.run.value).Some? {
        ClaPerforming(s, at);
      }
    case _ =>
  }

  lemma {:induction false} ClaOkOverRuns(s: State, steps: seq<Step>)
    requires ClaOk(s) && ValidRun(s, steps)
    ensures ClaOk(RunFrom(s, steps))
    decreases |steps|
  {
    if steps != [] {
      var n := |steps| - 1;
      ClaOkOverRuns(s, steps[..n]);
      ClaOkKept(RunFrom(s, steps[..n]), steps[n]);
    }
  }

  /**
    Over all runs a pull request gets at most one bot re-check and at most one CLA explanation. It
    is closed for its CLA only 8 days after it was opened, and only if it was unsigned when the run
    listed it and its author had written nothing but bare checks when the run read the comments.
  */
  lemma ClaPromises(s0: State, steps: seq<Step>, at: int)
    requires Initial(s0) && ValidRun(s0, steps)
    ensures var s := RunFrom(s0, steps);
            && AtMostOne(s.comments, BOT_CHECK)
            && AtMostOne(s.comments, CLA_EXPLANATION)
            && (ClosesForCla(s) && Valid(s, Perform(at)) ==>
                  && at >= s.pr.createdAt + 8 * DAY && IsUnsigned(s.run.value.pr)
                  && !HasReply(s.run.value.read.value, s.pr.author))
  {
    ClaOkOverRuns(s0, steps);
    RunsAreForUnsigned(s0, steps);
    if ClosesForCla(RunFrom(s0, steps)) {
      ReplyIs(RunFrom(s0, steps).run.value.read.value, RunFrom(s0, steps).pr.author);
    }
  }

  // ----- whose CLA is followed up -----

  /** What a run has to do for the CLA, it does to a pull request that was unsigned when it was listed. */
  predicate RunIsForUnsigned(s: State)
  {
    s.run.Some? && s.run.value.cla != [] ==> IsUnsigned(s.run.value.pr)
  }

  lemma ApplyIsForUnsigned(s: State, step: Step)
    requires RunIsForUnsigned(s)
    ensures RunIsForUnsigned(Apply(s, step))
  {
    if step.ReadComments? && s.run.Some? {
      ClaEffectsExactly(s.run.value.pr, s.comments, s.run.value.now);
    }
  }

  lemma {:induction false} RunsAreForUnsigned(s0: State, steps: seq<Step>)
    requires Initial(s0)
    ensures RunIsForUnsigned(RunFrom(s0, steps))
    decreases |steps|
  {
    if steps != [] {
      RunsAreForUnsigned(s0, steps[..|steps| - 1]);
      ApplyIsForUnsigned(RunFrom(s0, steps[..|steps| - 1]), steps[|steps| - 1]);
    }
  }

  /** The k-th step posts the i-th comment in a run that had listed the pull request as unsigned. */
  predicate PostsForUnsigned(s0: State, steps: seq<Step>, k: nat, i: nat)
  {
    && k < |steps| && steps[k].Perform?
    && var before := RunFrom(s0, steps[..k]);
       |before.comments| == i && before.run.Some? && IsUnsigned(before.run.value.pr)
  }

  lemma PostOfStep(s0: State, steps: seq<Step>, n: nat)
    requires Initial(s0) && ValidRun(s0, steps) && |steps| == n + 1
    requires var before, after := RunFrom(s0, steps[..n]), RunFrom(s0, steps);
             |after.comments| == |before.comments| + 1
             && (IsRecheck(after.comments[|before.comments|]) || after.comments[|before.comments|].body.claClose)
    ensures PostsForUnsigned(s0, steps, n, |RunFrom(s0, steps[..n]).comments|)
  {
    var before := RunFrom(s0, steps[..n]);
    RunsAreForUnsigned(s0, steps[..n]);
    ClaOkOverRuns(s0, steps[..n]);
    var c := RunFrom(s0, steps).comments[|before.comments|];
    RecheckIs(c);
  }

  /** Every re-check of the bot and every CLA explanation was posted to a pull request listed as unsigned. */
  lemma {:induction false} ClaCommentsAreForUnsigned(s0: State, steps: seq<Step>, i: nat)
    requires Initial(s0) && ValidRun(s0, steps) && i < |RunFrom(s0, steps).comments|
    requires var c := RunFrom(s0, steps).comments[i]; IsRecheck(c) || c.body.claClose
    ensures exists k: nat :: PostsForUnsigned(s0, steps, k, i)
    decreases |steps|
  {
    var n := |steps| - 1;
    var before := RunFrom(s0, steps[..n]);
    if i < |before.comments| {
      ClaCommentsAreForUnsigned(s0, steps[..n], i);
      var k: nat :| PostsForUnsigned(s0, steps[..n], k, i);
      assert steps[..n][..k] == steps[..k];
      assert PostsForUnsigned(s0, steps, k, i);
    } else {
      PostOfStep(s0, steps, n);
    }
  }

  // ----- stale drafts, over all runs -----

  /** The activity of the draft, as it would be seen if the pull request were open. */
  function DraftActivity(pr: PullRequest): Option<int>
  {
    LatestDraftActivityAt(pr.(isOpen := true))
  }

  /** The commits carry the time of their push. */
  predicate CommitsAreTimely(steps: seq<Step>)
  {
    forall i :: 0 <= i < |steps| && steps[i].Push? ==> steps[i].commitAt == Some(steps[i].at)
  }

  predicate TimesInPast(s: State)
  {
    && s.pr.createdAt <= s.clock
    && (s.pr.commitAt.Some? ==> s.pr.commitAt.value <= s.clock)
    && (forall t :: t in s.pr.transitions ==> t.at <= s.clock)
    && (forall c :: c in s.comments ==> c.createdAt <= s.clock)
  }

  /** A warning not before the activity and 7 days before time t. */
  predicate WarnedBefore(comments: seq<Comment>, activity: int, t: int)
  {
    exists c :: c in comments && c.body.draftWarning && activity <= c.createdAt <= t - 7 * DAY
  }

  predicate ExplainedSince(comments: seq<Comment>, activity: int)
  {
    exists c :: c in comments && c.body.draftClose && activity <= c.createdAt
  }

  predicate IsDraftPost(body: Body)
  {
    body.draftWarning || body.draftClose
  }

  /** A warning comes 21 days after the activity its run had listed. */
  predicate WarningOk(c: Comment, listed: Option<int>)
  {
    c.body.draftWarning ==> !c.body.draftClose && listed.Some? && listed.value <= c.createdAt - 21 * DAY
  }

  predicate ExplanationOk(comments: seq<Comment>, c: Comment, listed: Option<int>)
  {
    c.body.draftClose ==> listed.Some? && WarnedBefore(comments, listed.value, c.createdAt)
  }

  predicate PostsOk(comments: seq<Comment>, listed: seq<Option<int>>)
  {
    && |listed| == |comments|
    && (forall i :: 0 <= i < |comments| ==> WarningOk(comments[i], listed[i]))
    && (forall i :: 0 <= i < |comments| ==> ExplanationOk(comments, comments[i], listed[i]))
  }

  /**
    The run that posted had listed this activity, or the activity is too recent: then it came after
    that run's listing, and the post is at most a run younger.
  */
  predicate ListedOrRecent(c: Comment, listed: Option<int>, activity: Option<int>)
  {
    IsDraftPost(c.body) ==> activity.None? || listed == activity || c.createdAt <= activity.value + RUN_LIMIT
  }

  predicate AllListedOrRecent(comments: seq<Comment>, listed: seq<Option<int>>, activity: Option<int>)
  {
    |listed| == |comments| && forall i :: 0 <= i < |comments| ==> ListedOrRecent(comments[i], listed[i], activity)
  }

  /** A run warns only if there is no post since the activity it has listed, and explains 7 days after every warning since. */
  predicate Follows(earlier: Comment, c: Comment, listed: Option<int>)
  {
    && earlier.createdAt <= c.createdAt
    && (c.body.draftWarning && listed.Some? && IsDraftPost(earlier.body) ==> earlier.createdAt < listed.value)
    && (c.body.draftClose && listed.Some? && earlier.body.draftWarning && listed.value <= earlier.createdAt ==>
          earlier.createdAt <= c.createdAt - 7 * DAY)
  }

  predicate InOrder(comments: seq<Comment>, listed: seq<Option<int>>)
  {
    |listed| == |comments| && forall i, j :: 0 <= j < i < |comments| ==> Follows(comments[j], comments[i], listed[i])
  }

  /** The activity that the run going on has listed. */
  function Listed(s: State): Option<int>
  {
    if s.run.Some? then LatestDraftActivityAt(s.run.value.pr) else None
  }

  predicate NoPostSince(comments: seq<Comment>, activity: int)
  {
    forall c :: c in comments && IsDraftPost(c.body) ==> c.createdAt < activity
  }

  predicate NoWarningAfter(comments: seq<Comment>, activity: int, t: int)
  {
    forall c :: c in comments && c.body.draftWarning && activity <= c.createdAt ==> c.createdAt <= t
  }

  /** What the run still has to do for a stale draft, and why it may. */
  predicate DraftPending(run: Running, comments: seq<Comment>)
  {
    var n, a := run.pr.number, LatestDraftActivityAt(run.pr);
    run.draft == []
    || (&& a.Some? && a.value <= run.now - 21 * DAY
        && (|| (run.draft == [Posted(n, DRAFT_WARNING_COMMENT)] && NoPostSince(comments, a.value))
            || (&& run.draft == [Posted(n, DRAFT_CLOSE_COMMENT), Closed(n)]
                && WarnedBefore(comments, a.value, run.now) && NoWarningAfter(comments, a.value, run.now - 7 * DAY))
            || (run.draft == [Closed(n)] && ExplainedSince(comments, a.value))))
  }

  predicate ClaForm(run: Running)
  {
    var n := run.pr.number;
    || run.cla == []
    || run.cla == [Posted(n, CLA_RETRY_COMMENT)]
    || run.cla == [Posted(n, CLA_CLOSE_COMMENT), Closed(n)]
    || run.cla == [Closed(n)]
  }

  /** The last activity is the one the run has listed, unless there was some since the run began. */
  predicate ListedOrLater(run: Running, activity: Option<int>)
  {
    activity.None? || activity == LatestDraftActivityAt(run.pr) || run.now <= activity.value
  }

  predicate LogOk(s: State)
  {
    && PostsOk(s.comments, s.listed) && InOrder(s.comments, s.listed)
    && AllListedOrRecent(s.comments, s.listed, DraftActivity(s.pr))
    && AllListedOrRecent(s.comments, s.listed, Listed(s))
  }

  /** A run going on is in order with the last activity, and what is left of it has its reasons. */
  predicate RunOk(run: Running, comments: seq<Comment>, activity: Option<int>, clock: int)
  {
    run.now <= clock && ListedOrLater(run, activity) && DraftPending(run, comments) && ClaForm(run)
  }

  predicate DraftsOk(s: State)
  {
    && TimesInPast(s) && LogOk(s)
    && (s.run.Some? ==> RunOk(s.run.value, s.comments, DraftActivity(s.pr), s.clock))
  }

  lemma ActivityAfterPush(pr: PullRequest, at: int)
    requires pr.createdAt <= at && forall t :: t in pr.transitions ==> t.at <= at
    ensures var after := DraftActivity(pr.(commitAt := Some(at)));
            after.None? || after == Some(at)
  {
    if pr.transitions != [] {
      LatestTransitionIs(pr.transitions);
    }
  }

  lemma ActivityAfterDraft(pr: PullRequest, at: int)
    requires (pr.commitAt.Some? ==> pr.commitAt.value <= at) && forall t :: t in pr.transitions ==> t.at <= at
    ensures var after := DraftActivity(pr.(isDraft := true, transitions := pr.transitions + [ConvertToDraft(at)]));
            after.None? || after == Some(at)
  {
    var transitions := pr.transitions + [ConvertToDraft(at)];
    LatestTransitionIs(transitions);
    assert ConvertToDraft(at) in transitions;
  }

  /** A step leaves the last activity, ends the draft, or is activity itself. */
  lemma ActivityAfter(s: State, step: Step)
    requires TimesInPast(s) && Valid(s, step) && (step.Push? ==> step.commitAt == Some(step.at))
    ensures var after := DraftActivity(Apply(s, step).pr);
            after.None? || after == DraftActivity(s.pr) || after == Some(step.at)
  {
    match step
    case Push(_, at) => ActivityAfterPush(s.pr, at);
    case MarkDraft(at) => ActivityAfterDraft(s.pr, at);
    case _ =>
  }

  lemma DraftingMeans(pr: PullRequest, at: int)
    requires (pr.commitAt.Some? ==> pr.commitAt.value < at) && forall t :: t in pr.transitions ==> t.at < at
    ensures DraftActivity(pr.(isDraft := true, transitions := pr.transitions + [ConvertToDraft(at)])) == Some(at)
  {
    var drafted := pr.transitions + [ConvertToDraft(at)];
    forall j | 0 <= j < |pr.transitions| ensures drafted[j].at < at {
      assert pr.transitions[j] in pr.transitions;
    }
    DecidesIsLatest(drafted, |drafted| - 1);
  }

  lemma PushingMeans(pr: PullRequest, at: int)
    requires pr.createdAt < at && forall t :: t in pr.transitions ==> t.at < at
    ensures DraftActivity(pr.(commitAt := Some(at))) == if DraftActivity(pr).Some? then Some(at) else None
  {
    if pr.transitions != [] {
      LatestTransitionIs(pr.transitions);
    }
  }

  /** Marking as a draft and pushing to one are activity, and marking as ready ends the draft. */
  lemma ActivityStepsMean(s: State, at: int)
    requires TimesInPast(s) && s.clock < at
    ensures DraftActivity(Apply(s, MarkDraft(at)).pr) == Some(at)
    ensures DraftActivity(Apply(s, MarkReady(at)).pr) == None
    ensures DraftActivity(Apply(s, Push(Some(at), at)).pr) == if DraftActivity(s.pr).Some? then Some(at) else None
  {
    DraftingMeans(s.pr, at);
    PushingMeans(s.pr, at);
  }

  lemma TimesStayInPast(s: State, step: Step)
    requires TimesInPast(s) && Valid(s, step)
    ensures TimesInPast(Apply(s, step))
  {
  }

  /** A post is not younger than later activity. */
  lemma RecentAfterActivity(s: State, activity: Option<int>, at: int)
    requires TimesInPast(s) && AllListedOrRecent(s.comments, s.listed, DraftActivity(s.pr)) && s.clock <= at
    requires activity.None? || activity == DraftActivity(s.pr) || activity == Some(at)
    ensures AllListedOrRecent(s.comments, s.listed, activity)
  {
  }

  lemma WarnedBeforeGrows(comments: seq<Comment>, c: Comment, activity: int, t: int)
    requires WarnedBefore(comments, activity, t)
    ensures WarnedBefore(comments + [c], activity, t)
  {
    var w :| w in comments && w.body.draftWarning && activity <= w.createdAt <= t - 7 * DAY;
    assert w in comments + [c];
  }

  lemma PostsAfterPost(comments: seq<Comment>, listed: seq<Option<int>>, c: Comment, own: Option<int>)
    requires PostsOk(comments, listed)
    requires WarningOk(c, own) && ExplanationOk(comments, c, own)
    ensures PostsOk(comments + [c], listed + [own])
  {
    var all := comments + [c];
    forall i | 0 <= i < |all| ensures ExplanationOk(all, all[i], (listed + [own])[i]) {
      if all[i].body.draftClose {
        WarnedBeforeGrows(comments, c, (listed + [own])[i].value, all[i].createdAt);
      }
    }
  }

  lemma OrderAfterPost(comments: seq<Comment>, listed: seq<Option<int>>, c: Comment, own: Option<int>)
    requires InOrder(comments, listed) && forall d :: d in comments ==> Follows(d, c, own)
    ensures InOrder(comments + [c], listed + [own])
  {
  }

  lemma RecentAfterPost(comments: seq<Comment>, listed: seq<Option<int>>, c: Comment, own: Option<int>, activity: Option<int>)
    requires AllListedOrRecent(comments, listed, activity) && ListedOrRecent(c, own, activity)
    ensures AllListedOrRecent(comments + [c], listed + [own], activity)
  {
  }

  /** What has to hold of a new comment. */
  predicate MayFollow(s: State, c: Comment, own: Option<int>)
  {
    && s.clock <= c.createdAt
    && WarningOk(c, own) && ExplanationOk(s.comments, c, own)
    && (forall d :: d in s.comments ==> Follows(d, c, own))
    && ListedOrRecent(c, own, DraftActivity(s.pr)) && ListedOrRecent(c, own, Listed(s))
  }

  lemma LogAfterPost(s: State, c: Comment, own: Option<int>)
    requires LogOk(s) && MayFollow(s, c, own)
    ensures LogOk(s.(comments := s.comments + [c], listed := s.listed + [own]))
  {
    PostsAfterPost(s.comments, s.listed, c, own);
    OrderAfterPost(s.comments, s.listed, c, own);
    RecentAfterPost(s.comments, s.listed, c, own, DraftActivity(s.pr));
    RecentAfterPost(s.comments, s.listed, c, own, Listed(s));
  }

  lemma OtherMayFollow(s: State, c: Comment, own: Option<int>)
    requires TimesInPast(s) && s.clock <= c.createdAt && !IsDraftPost(c.body)
    ensures MayFollow(s, c, own)
  {
  }

  /** Comments other than the draft posts leave the reasons of a run as they are. */
  lemma PendingAfterPost(run: Running, comments: seq<Comment>, c: Comment)
    requires DraftPending(run, comments) && !IsDraftPost(c.body)
    ensures DraftPending(run, comments + [c])
  {
    var a := LatestDraftActivityAt(run.pr);
    if a.Some? && WarnedBefore(comments, a.value, run.now) {
      WarnedBeforeGrows(comments, c, a.value, run.now);
    }
    if a.Some? && ExplainedSince(comments, a.value) {
      var e :| e in comments && e.body.draftClose && a.value <= e.createdAt;
      assert e in comments + [c];
    }
  }

  /** Without a marker since the activity, every comment with that marker is older. */
  lemma MarkersBefore(comments: seq<Comment>, activity: int)
    ensures LatestMarker(comments, DraftClose, Some(activity)).Some? ==> ExplainedSince(comments, activity)
    ensures LatestMarker(comments, DraftClose, Some(activity)).None? && LatestMarker(comments, DraftWarning, Some(activity)).None? ==>
              NoPostSince(comments, activity)
  {
    LatestMarkerIsMax(comments, DraftClose, Some(activity));
    LatestMarkerIsMax(comments, DraftWarning, Some(activity));
    forall c | c in comments ensures c.body.draftClose == Holds(c.body, DraftClose) && c.body.draftWarning == Holds(c.body, DraftWarning) {
    }
  }

  lemma WarnedLast(comments: seq<Comment>, activity: int)
    requires LatestMarker(comments, DraftWarning, Some(activity)).Some?
    ensures var warnedAt := LatestMarker(comments, DraftWarning, Some(activity)).value;
            WarnedBefore(comments, activity, warnedAt + 7 * DAY) && NoWarningAfter(comments, activity, warnedAt)
  {
    LatestMarkerIsMax(comments, DraftWarning, Some(activity));
    forall c | c in comments ensures c.body.draftWarning == Holds(c.body, DraftWarning) {
    }
  }

  /** Reading the comments: what a run decides for the draft has its reason in them. */
  lemma DraftReading(run: Running, comments: seq<Comment>)
    ensures DraftPending(Reading(run, comments), comments) && ClaForm(Reading(run, comments))
  {
    if IsStaleDraft(run.pr, run.now) {
      var a := LatestDraftActivityAt(run.pr).value;
      MarkersBefore(comments, a);
      if LatestMarker(comments, DraftWarning, Some(a)).Some? {
        WarnedLast(comments, a);
      }
    }
  }

  lemma LogWithRun(s: State, run: Option<Running>)
    requires LogOk(s) && s.run.Some? && (run.Some? ==> run.value.pr == s.run.value.pr)
    ensures LogOk(s.(run := run))
  {
  }

  /** The effects of the CLA leave the drafts alone. */
  lemma ClaEffectKeepsDrafts(s: State, at: int)
    requires DraftsOk(s) && Valid(s, Perform(at)) && s.run.Some? && s.run.value.read.Some? && s.run.value.cla != []
    ensures DraftsOk(Apply(s, Perform(at)))
  {
    var next := Next(AfterEffect(s.run.value));
    TimesStayInPast(s, Perform(at));
    if s.run.value.cla[0].Posted? {
      var c := Comment(COMMUNITY_BOT_LOGIN, at, s.run.value.cla[0].body);
      OtherPostKeeps(s, c, Listed(s));
      LogWithRun(s.(comments := s.comments + [c], listed := s.listed + [Listed(s)]), next);
    } else {
      LogWithRun(s, next);
    }
  }

  lemma OtherPostKeeps(s: State, c: Comment, own: Option<int>)
    requires DraftsOk(s) && s.clock <= c.createdAt && !IsDraftPost(c.body)
    ensures LogOk(s.(comments := s.comments + [c], listed := s.listed + [own]))
    ensures s.run.Some? ==> DraftPending(s.run.value, s.comments + [c])
  {
    OtherMayFollow(s, c, own);
    LogAfterPost(s, c, own);
    if s.run.Some? {
      PendingAfterPost(s.run.value, s.comments, c);
    }
  }

  lemma DraftPostMayFollow(s: State, at: int)
    requires DraftsOk(s) && Valid(s, Perform(at)) && s.run.Some?
    requires s.run.value.draft != [] && s.run.value.draft[0].Posted?
    ensures MayFollow(s, Comment(COMMUNITY_BOT_LOGIN, at, s.run.value.draft[0].body), Listed(s))
  {
    var run := s.run.value;
    if run.draft[0].body.draftClose {
      var w :| w in s.comments && w.body.draftWarning && Listed(s).value <= w.createdAt <= run.now - 7 * DAY;
    }
  }

  /** After the explanation only the close is left. */
  lemma PendingAfterDraftPost(s: State, at: int)
    requires DraftsOk(s) && Valid(s, Perform(at)) && s.run.Some?
    requires s.run.value.draft != [] && s.run.value.draft[0].Posted?
    ensures var c := Comment(COMMUNITY_BOT_LOGIN, at, s.run.value.draft[0].body);
            DraftPending(s.run.value.(draft := s.run.value.draft[1..]), s.comments + [c])
  {
    var c := Comment(COMMUNITY_BOT_LOGIN, at, s.run.value.draft[0].body);
    assert c in s.comments + [c];
  }

  lemma DraftEffectKeepsDrafts(s: State, at: int)
    requires DraftsOk(s) && Valid(s, Perform(at)) && s.run.Some? && s.run.value.read.Some?
    requires s.run.value.cla == [] && s.run.value.draft != []
    ensures DraftsOk(Apply(s, Perform(at)))
  {
    TimesStayInPast(s, Perform(at));
    if s.run.value.draft[0].Posted? {
      DraftPostMayFollow(s, at);
      LogAfterPost(s, Comment(COMMUNITY_BOT_LOGIN, at, s.run.value.draft[0].body), Listed(s));
      PendingAfterDraftPost(s, at);
    }
  }

  /** A step of a person that posts nothing, or the start or the end of a run. */
  lemma SilentStepKeepsDrafts(s: State, step: Step)
    requires DraftsOk(s) && Valid(s, step) && (step.Push? ==> step.commitAt == Some(step.at))
    requires !step.Say? && !step.ReadComments? && !step.Perform?
    ensures DraftsOk(Apply(s, step))
  {
    TimesStayInPast(s, step);
    ActivityAfter(s, step);
    RecentAfterActivity(s, DraftActivity(Apply(s, step).pr), step.at);
  }

  lemma DraftsOkKept(s: State, step: Step)
    requires DraftsOk(s) && Valid(s, step) && (step.Push? ==> step.commitAt == Some(step.at))
    ensures DraftsOk(Apply(s, step))
  {
    TimesStayInPast(s, step);
    match step
    case Say(author, body, at) => OtherPostKeeps(s, Comment(author, at, body), None);
    case ReadComments(_) =>
      if s.run.Some? {
        DraftReading(s.run.value, s.comments);
      }
    case Perform(at) =>
      if s.run.Some? && NextEffect(s.run.value).Some? {
        if s.run.value.cla != [] {
          ClaEffectKeepsDrafts(s, at);
        } else {
          DraftEffectKeepsDrafts(s, at);
        }
      }
    case _ => SilentStepKeepsDrafts(s, step);
  }

  lemma {:induction false} DraftsOkOverRuns(s: State, steps: seq<Step>)
    requires DraftsOk(s) && ValidRun(s, steps) && CommitsAreTimely(steps)
    ensures DraftsOk(RunFrom(s, steps))
    decreases |steps|
  {
    if steps != [] {
      var n := |steps| - 1;
      DraftsOkOverRuns(s, steps[..n]);
      DraftsOkKept(RunFrom(s, steps[..n]), steps[n]);
    }
  }

  // ----- 28 days -----

  /** Every warning and explanation not older than the activity comes from a run that had listed that activity. */
  predicate PostedOn(s: State, activity: int)
  {
    |s.listed| == |s.comments| &&
    forall i :: 0 <= i < |s.comments| && IsDraftPost(s.comments[i].body) && activity <= s.comments[i].createdAt ==>
      s.listed[i] == Some(activity)
  }

  /** Every explanation not older than the activity does. */
  predicate ExplainedOn(s: State, activity: int)
  {
    |s.listed| == |s.comments| &&
    forall i :: 0 <= i < |s.comments| && s.comments[i].body.draftClose && activity <= s.comments[i].createdAt ==>
      s.listed[i] == Some(activity)
  }

  /** A warning 21 days after the activity and 7 days before time t. */
  predicate WarnedInTime(comments: seq<Comment>, activity: int, t: int)
  {
    exists c :: c in comments && c.body.draftWarning && activity + 21 * DAY <= c.createdAt <= t - 7 * DAY
  }

  /** An explanation posted on the activity stands on a warning. */
  lemma ExplainedIsWarned(s: State, activity: int, t: int)
    requires PostsOk(s.comments, s.listed) && ExplainedOn(s, activity)
    requires ExplainedSince(s.comments, activity) && forall c :: c in s.comments ==> c.createdAt <= t
    ensures WarnedBefore(s.comments, activity, t)
  {
    var c :| c in s.comments && c.body.draftClose && activity <= c.createdAt;
    var i :| 0 <= i < |s.comments| && s.comments[i] == c;
    assert ExplanationOk(s.comments, s.comments[i], s.listed[i]);
    var w :| w in s.comments && w.body.draftWarning && activity <= w.createdAt <= c.createdAt - 7 * DAY;
    assert w in s.comments && w.body.draftWarning && activity <= w.createdAt <= t - 7 * DAY;
  }

  /** With both a warning and an explanation since the activity, the explanation was posted on that activity. */
  lemma WarnedIsExplainedOn(s: State, activity: int, w: nat, e: nat)
    requires PostsOk(s.comments, s.listed) && InOrder(s.comments, s.listed)
    requires AllListedOrRecent(s.comments, s.listed, Some(activity))
    requires w < |s.comments| && s.comments[w].body.draftWarning && activity <= s.comments[w].createdAt
    requires e < |s.comments| && s.comments[e].body.draftClose && activity <= s.comments[e].createdAt
    ensures s.listed[e] == Some(activity)
  {
    assert WarningOk(s.comments[w], s.listed[w]) && ExplanationOk(s.comments, s.comments[e], s.listed[e]);
    assert ListedOrRecent(s.comments[w], s.listed[w], Some(activity));
    assert ListedOrRecent(s.comments[e], s.listed[e], Some(activity));
    assert w < e ==> Follows(s.comments[w], s.comments[e], s.listed[e]);
    assert e < w ==> Follows(s.comments[e], s.comments[w], s.listed[w]);
  }

  /** With a warning 21 days after the activity there is no other warning since the activity. */
  lemma WarnedInTimeIsAlone(s: State, activity: int, w: nat, v: nat)
    requires PostsOk(s.comments, s.listed) && InOrder(s.comments, s.listed)
    requires AllListedOrRecent(s.comments, s.listed, Some(activity))
    requires w < |s.comments| && s.comments[w].body.draftWarning && activity + 21 * DAY <= s.comments[w].createdAt
    requires v < |s.comments| && s.comments[v].body.draftWarning && activity <= s.comments[v].createdAt
    ensures s.listed[v] == Some(activity)
  {
    assert ListedOrRecent(s.comments[w], s.listed[w], Some(activity));
    assert ListedOrRecent(s.comments[v], s.listed[v], Some(activity));
    assert v < w ==> Follows(s.comments[v], s.comments[w], s.listed[w]);
    assert w < v ==> Follows(s.comments[w], s.comments[v], s.listed[v]);
  }

  /** Which of the posts the warning depends on. */
  lemma ClosingIsWarnedExactly(s: State, at: int)
    requires DraftsOk(s) && ClosesDraft(s) && Valid(s, Perform(at))
    ensures Listed(s).Some?
    ensures WarnedBefore(s.comments, Listed(s).value, at) <==> ExplainedOn(s, Listed(s).value)
    ensures WarnedInTime(s.comments, Listed(s).value, at) <==> PostedOn(s, Listed(s).value)
  {
    var a := Listed(s).value;
    if ExplainedOn(s, a) {
      ExplainedIsWarned(s, a, at);
    }
    if WarnedBefore(s.comments, a, at) {
      WarnedBeforeIsExplainedOn(s, a, at);
    }
    if PostedOn(s, a) {
      ExplainedIsWarned(s, a, at);
      WarnedBeforeIsInTime(s, a, at);
    }
    if WarnedInTime(s.comments, a, at) {
      WarnedInTimeIsPostedOn(s, a, at);
    }
  }

  lemma WarnedBeforeIsExplainedOn(s: State, activity: int, t: int)
    requires PostsOk(s.comments, s.listed) && InOrder(s.comments, s.listed)
    requires AllListedOrRecent(s.comments, s.listed, Some(activity))
    requires WarnedBefore(s.comments, activity, t)
    ensures ExplainedOn(s, activity)
  {
    var c :| c in s.comments && c.body.draftWarning && activity <= c.createdAt <= t - 7 * DAY;
    var w :| 0 <= w < |s.comments| && s.comments[w] == c;
    forall e | 0 <= e < |s.comments| && s.comments[e].body.draftClose && activity <= s.comments[e].createdAt
      ensures s.listed[e] == Some(activity)
    {
      WarnedIsExplainedOn(s, activity, w, e);
    }
  }

  lemma WarnedInTimeIsPostedOn(s: State, activity: int, t: int)
    requires PostsOk(s.comments, s.listed) && InOrder(s.comments, s.listed)
    requires AllListedOrRecent(s.comments, s.listed, Some(activity))
    requires WarnedInTime(s.comments, activity, t)
    ensures PostedOn(s, activity)
  {
    var c :| c in s.comments && c.body.draftWarning && activity + 21 * DAY <= c.createdAt <= t - 7 * DAY;
    var w :| 0 <= w < |s.comments| && s.comments[w] == c;
    assert WarnedBefore(s.comments, activity, t);
    WarnedBeforeIsExplainedOn(s, activity, t);
    forall v | 0 <= v < |s.comments| && s.comments[v].body.draftWarning && activity <= s.comments[v].createdAt
      ensures s.listed[v] == Some(activity)
    {
      WarnedInTimeIsAlone(s, activity, w, v);
    }
  }

  lemma WarnedBeforeIsInTime(s: State, activity: int, t: int)
    requires PostsOk(s.comments, s.listed) && PostedOn(s, activity) && WarnedBefore(s.comments, activity, t)
    ensures WarnedInTime(s.comments, activity, t)
  {
    var c :| c in s.comments && c.body.draftWarning && activity <= c.createdAt <= t - 7 * DAY;
    var i :| 0 <= i < |s.comments| && s.comments[i] == c;
    assert WarningOk(s.comments[i], s.listed[i]);
  }

  /**
    When a run closes a stale draft, there is a warning 7 days before the close that is not older than
    the listed activity exactly when every explanation since that activity comes from a run that had
    listed it; and one that is 21 days younger than the activity exactly when every warning does as
    well. The 28 days then hold of the draft as it is exactly when there was no activity since the
    listing.
  */
  lemma DraftCloseIsLate(s0: State, steps: seq<Step>, at: int)
    requires Initial(s0) && ValidRun(s0, steps) && CommitsAreTimely(steps)
    requires ClosesDraft(RunFrom(s0, steps)) && Valid(RunFrom(s0, steps), Perform(at))
    ensures var s := RunFrom(s0, steps);
            var listed, activity := Listed(s), DraftActivity(s.pr);
            && listed.Some?
            && (WarnedBefore(s.comments, listed.value, at) <==> ExplainedOn(s, listed.value))
            && (WarnedInTime(s.comments, listed.value, at) <==> PostedOn(s, listed.value))
            && (PostedOn(s, listed.value) ==> listed.value <= at - 28 * DAY)
            && (activity.Some? && activity.value <= at - 28 * DAY
                <==> activity == listed && listed.value <= at - 28 * DAY)
  {
    DraftsOkOverRuns(s0, steps);
    ClosingIsWarnedExactly(RunFrom(s0, steps), at);
  }

  predicate WarnedLastAt(s: State, i: nat)
  {
    && i < |s.comments| == |s.listed| && s.comments[i].body.draftWarning
    && LatestDraftActivityAt(s.pr).Some?
    && LatestMarker(s.comments, DraftClose, LatestDraftActivityAt(s.pr)).None?
    && LatestMarker(s.comments, DraftWarning, LatestDraftActivityAt(s.pr)) == Some(s.comments[i].createdAt)
  }

  /** The warning is 21 days after the last activity exactly when its run had listed that activity. */
  lemma WarningIsInTimeExactly(s: State, i: nat)
    requires PostsOk(s.comments, s.listed) && AllListedOrRecent(s.comments, s.listed, LatestDraftActivityAt(s.pr))
    requires WarnedLastAt(s, i)
    ensures var activity, warnedAt := LatestDraftActivityAt(s.pr), s.comments[i].createdAt;
            && (warnedAt - activity.value >= 21 * DAY <==> s.listed[i] == activity)
            && (s.listed[i] != activity ==> warnedAt - RUN_LIMIT <= activity.value <= warnedAt)
  {
    assert WarningOk(s.comments[i], s.listed[i]);
    assert ListedOrRecent(s.comments[i], s.listed[i], LatestDraftActivityAt(s.pr));
    LatestMarkerIsMax(s.comments, DraftWarning, LatestDraftActivityAt(s.pr));
  }

  /**
    After a warning, the draft keeps its 28 days for every time the closing run may come exactly when
    the run that warned had listed the last activity: there was none between its listing and its
    posting, which are at most a run apart, nor in the instant of the posting.
  */
  lemma TwentyEightDaysExactly(s0: State, steps: seq<Step>, i: nat)
    requires Initial(s0) && ValidRun(s0, steps) && CommitsAreTimely(steps) && WarnedLastAt(RunFrom(s0, steps), i)
    ensures var s := RunFrom(s0, steps);
            var activity, warnedAt := LatestDraftActivityAt(s.pr), s.comments[i].createdAt;
            && ((forall now :: DraftCloses(s.pr, s.comments, now) ==> now - activity.value >= 28 * DAY)
                <==> s.listed[i] == activity)
            && (s.listed[i] != activity ==> warnedAt - RUN_LIMIT <= activity.value <= warnedAt)
  {
    DraftsOkOverRuns(s0, steps);
    var s := RunFrom(s0, steps);
    assert s.pr.(isOpen := true) == s.pr;
    WarningIsInTimeExactly(s, i);
    ExplainedCloseExactly(s.pr, s.comments);
  }

  // ----- a run that stops between explaining and closing -----

  lemma {:induction false} CommentsStay(s: State, steps: seq<Step>)
    ensures s.comments <= RunFrom(s, steps).comments
    decreases |steps|
  {
    if steps != [] {
      CommentsStay(s, steps[..|steps| - 1]);
    }
  }

  /**
    Once a run has posted the explanation, whatever happens later, a run that finds the draft with
    the same last activity (or an earlier one) closes it without a second explanation.
  */
  lemma StoppedRunIsFinished(s: State, at: int, steps: seq<Step>, later: int)
    requires s.run.Some? && NextEffect(s.run.value) == Some(Posted(s.run.value.pr.number, DRAFT_CLOSE_COMMENT))
    requires var s' := RunFrom(Apply(s, Perform(at)), steps);
             IsStaleDraft(s'.pr, later) && LatestDraftActivityAt(s'.pr).value <= at
    ensures var s' := RunFrom(Apply(s, Perform(at)), steps);
            DraftEffects(s'.pr, s'.comments, later) == [Closed(s'.pr.number)]
  {
    var after := Apply(s, Perform(at));
    var s' := RunFrom(after, steps);
    CommentsStay(after, steps);
    var explanation := Comment(COMMUNITY_BOT_LOGIN, at, DRAFT_CLOSE_COMMENT);
    assert after.comments == s.comments + [explanation];
    assert s'.comments[|s.comments|] == explanation;
    LatestMarkerIsMax(s'.comments, DraftClose, LatestDraftActivityAt(s'.pr));
    assert Holds(explanation.body, DraftClose);
  }

  // ----- what the theorems leave open happens -----

  lemma RunPush(s: State, steps: seq<Step>, step: Step)
    ensures RunFrom(s, steps + [step]) == Apply(RunFrom(s, steps), step)
    ensures ValidRun(s, steps + [step]) <==> ValidRun(s, steps) && Valid(RunFrom(s, steps), step)
    ensures CommitsAreTimely(steps) && (step.Push? ==> step.commitAt == Some(step.at)) ==> CommitsAreTimely(steps + [step])
  {
  }

  const DRAFT := PullRequest(1, true, true, 0, false, "", [], Some(0), [])
  const NEW_DRAFT := State(DRAFT, [], [], None, 0)
  const WARNING_RUN := Running(21 * DAY, DRAFT, Some([]), [], [Posted(1, DRAFT_WARNING_COMMENT)])

  function BotComment(at: int, body: Body): Comment
  {
    Comment(COMMUNITY_BOT_LOGIN, at, body)
  }

  /** A run has listed the draft and read its comments, and is about to warn. */
  function AboutToWarn(): seq<Step>
  {
    [] + [StartRun(21 * DAY, 21 * DAY)] + [ReadComments(21 * DAY)]
  }

  lemma WarningIsDue()
    ensures ClaEffects(DRAFT, [], 21 * DAY) == [] && DraftEffects(DRAFT, [], 21 * DAY) == WARNING_RUN.draft
  {
  }

  lemma AboutToWarnState()
    ensures ValidRun(NEW_DRAFT, AboutToWarn()) && CommitsAreTimely(AboutToWarn())
    ensures RunFrom(NEW_DRAFT, AboutToWarn()) == State(DRAFT, [], [], Some(WARNING_RUN), 21 * DAY)
  {
    WarningIsDue();
    RunPush(NEW_DRAFT, [], StartRun(21 * DAY, 21 * DAY));
    RunPush(NEW_DRAFT, [] + [StartRun(21 * DAY, 21 * DAY)], ReadComments(21 * DAY));
  }

  function Warned(): seq<Step>
  {
    AboutToWarn() + [Perform(21 * DAY)]
  }

  const WARNED := State(DRAFT, [BotComment(21 * DAY, DRAFT_WARNING_COMMENT)], [Some(0)], None, 21 * DAY)

  lemma WarnedState()
    ensures ValidRun(NEW_DRAFT, Warned()) && CommitsAreTimely(Warned()) && RunFrom(NEW_DRAFT, Warned()) == WARNED
  {
    AboutToWarnState();
    RunPush(NEW_DRAFT, AboutToWarn(), Perform(21 * DAY));
    assert WARNING_RUN.draft[1..] == [];
    assert [] + WARNED.comments == WARNED.comments && [] + WARNED.listed == WARNED.listed;
  }

  lemma MarkersOfOne(c: Comment, marker: Marker, notBefore: Option<int>)
    ensures LatestMarker([c], marker, notBefore)
         == if !Holds(c.body, marker) || (notBefore.Some? && c.createdAt < notBefore.value) then None else Some(c.createdAt)
  {
    assert [c][..0] == [];
  }

  /** A commit pushed after the warning but dated before it does not renew the 28 days. */
  lemma BackdatedCommitIsClosedEarly()
    ensures var steps := Warned() + [Push(Some(20 * DAY), 22 * DAY)];
            var s := RunFrom(NEW_DRAFT, steps);
            && Initial(NEW_DRAFT) && ValidRun(NEW_DRAFT, steps)
            && LatestDraftActivityAt(s.pr) == Some(20 * DAY) && DraftCloses(s.pr, s.comments, 41 * DAY)
  {
    WarnedState();
    RunPush(NEW_DRAFT, Warned(), Push(Some(20 * DAY), 22 * DAY));
    MarkersOfOne(WARNED.comments[0], DraftWarning, Some(20 * DAY));
    MarkersOfOne(WARNED.comments[0], DraftClose, Some(20 * DAY));
  }

  const EARLY_PUSH := Push(Some(21 * DAY + 1), 21 * DAY + 1)
  const EARLY_PUSHED := DRAFT.(commitAt := Some(21 * DAY + 1))

  function PushWhileWarned(): seq<Step>
  {
    AboutToWarn() + [EARLY_PUSH] + [Perform(21 * DAY + 2)]
  }

  lemma PushWhileWarnedState()
    ensures ValidRun(NEW_DRAFT, PushWhileWarned()) && CommitsAreTimely(PushWhileWarned())
    ensures var s := RunFrom(NEW_DRAFT, PushWhileWarned());
            s.pr == EARLY_PUSHED && s.comments == [BotComment(21 * DAY + 2, DRAFT_WARNING_COMMENT)]
  {
    AboutToWarnState();
    RunPush(NEW_DRAFT, AboutToWarn(), EARLY_PUSH);
    RunPush(NEW_DRAFT, AboutToWarn() + [EARLY_PUSH], Perform(21 * DAY + 2));
    var c := BotComment(21 * DAY + 2, DRAFT_WARNING_COMMENT);
    assert [] + [c] == [c];
  }

  /** Nor does one pushed between the listing and the warning, although it is dated right. */
  lemma PushWhileWarnedIsClosedEarly()
    ensures var s := RunFrom(NEW_DRAFT, PushWhileWarned());
            && Initial(NEW_DRAFT) && ValidRun(NEW_DRAFT, PushWhileWarned()) && CommitsAreTimely(PushWhileWarned())
            && LatestDraftActivityAt(s.pr) == Some(21 * DAY + 1) && DraftCloses(s.pr, s.comments, 42 * DAY + 1)
  {
    PushWhileWarnedState();
    var c := BotComment(21 * DAY + 2, DRAFT_WARNING_COMMENT);
    MarkersOfOne(c, DraftWarning, Some(21 * DAY + 1));
    MarkersOfOne(c, DraftClose, Some(21 * DAY + 1));
  }

  const CLOSING_RUN := Running(28 * DAY, DRAFT, Some(WARNED.comments), [], [Posted(1, DRAFT_CLOSE_COMMENT), Closed(1)])

  function AboutToExplain(): seq<Step>
  {
    Warned() + [StartRun(28 * DAY, 28 * DAY)] + [ReadComments(28 * DAY)]
  }

  lemma AboutToExplainState()
    ensures ValidRun(NEW_DRAFT, AboutToExplain()) && CommitsAreTimely(AboutToExplain())
    ensures RunFrom(NEW_DRAFT, AboutToExplain()) == WARNED.(run := Some(CLOSING_RUN), clock := 28 * DAY)
  {
    WarnedState();
    RunPush(NEW_DRAFT, Warned(), StartRun(28 * DAY, 28 * DAY));
    RunPush(NEW_DRAFT, Warned() + [StartRun(28 * DAY, 28 * DAY)], ReadComments(28 * DAY));
    MarkersOfOne(WARNED.comments[0], DraftWarning, Some(0));
    MarkersOfOne(WARNED.comments[0], DraftClose, Some(0));
    assert DraftEffects(DRAFT, WARNED.comments, 28 * DAY) == CLOSING_RUN.draft;
  }

  function AboutToClose(): seq<Step>
  {
    AboutToExplain() + [Perform(28 * DAY)]
  }

  lemma AboutToCloseState()
    ensures ValidRun(NEW_DRAFT, AboutToClose()) && CommitsAreTimely(AboutToClose())
    ensures var s := RunFrom(NEW_DRAFT, AboutToClose());
            s.pr == DRAFT && s.run == Some(CLOSING_RUN.(draft := [Closed(1)])) && s.clock == 28 * DAY
  {
    AboutToExplainState();
    RunPush(NEW_DRAFT, AboutToExplain(), Perform(28 * DAY));
    assert CLOSING_RUN.draft[1..] == [Closed(1)];
  }

  /** A commit pushed between the listing and the close does not stop the close. */
  lemma PushWhileClosingIsClosed()
    ensures var steps := AboutToClose() + [Push(Some(28 * DAY + 1), 28 * DAY + 1)];
            var s := RunFrom(NEW_DRAFT, steps);
            && Initial(NEW_DRAFT) && ValidRun(NEW_DRAFT, steps) && CommitsAreTimely(steps)
            && DraftActivity(s.pr) == Some(28 * DAY + 1)
            && ClosesDraft(s) && Valid(s, Perform(28 * DAY + 2)) && !Apply(s, Perform(28 * DAY + 2)).pr.isOpen
  {
    AboutToCloseState();
    RunPush(NEW_DRAFT, AboutToClose(), Push(Some(28 * DAY + 1), 28 * DAY + 1));
  }

  const PUSH := Push(Some(28 * DAY + 1), 28 * DAY + 1)

  /** The run that explains stops before it closes, and a commit was pushed while it was going on. */
  function StoppedAfterPush(): seq<Step>
  {
    AboutToExplain() + [PUSH] + [Perform(28 * DAY + 2)] + [StopRun(28 * DAY + 3)]
  }

  const PUSHED := DRAFT.(commitAt := Some(28 * DAY + 1))
  const EXPLANATION := BotComment(28 * DAY + 2, DRAFT_CLOSE_COMMENT)

  lemma StoppedAfterPushState()
    ensures ValidRun(NEW_DRAFT, StoppedAfterPush()) && CommitsAreTimely(StoppedAfterPush())
    ensures RunFrom(NEW_DRAFT, StoppedAfterPush())
         == State(PUSHED, [WARNED.comments[0], EXPLANATION], [Some(0), Some(0)], None, 28 * DAY + 3)
  {
    AboutToExplainState();
    RunPush(NEW_DRAFT, AboutToExplain(), PUSH);
    RunPush(NEW_DRAFT, AboutToExplain() + [PUSH], Perform(28 * DAY + 2));
    RunPush(NEW_DRAFT, AboutToExplain() + [PUSH] + [Perform(28 * DAY + 2)], StopRun(28 * DAY + 3));
    assert WARNED.comments + [EXPLANATION] == [WARNED.comments[0], EXPLANATION];
    assert WARNED.listed + [Some(0)] == [Some(0), Some(0)];
  }

  /** The next run then closes the draft 21 days after the push, without any warning since. */
  lemma StoppedRunClosesUnwarned()
    ensures var s := RunFrom(NEW_DRAFT, StoppedAfterPush());
            && Initial(NEW_DRAFT) && ValidRun(NEW_DRAFT, StoppedAfterPush()) && CommitsAreTimely(StoppedAfterPush())
            && LatestDraftActivityAt(s.pr) == Some(28 * DAY + 1) && DraftCloses(s.pr, s.comments, 49 * DAY + 1)
            && !ExplainedOn(s, 28 * DAY + 1)
            && forall c :: c in s.comments && c.body.draftWarning ==> c.createdAt < 28 * DAY + 1
  {
    StoppedAfterPushState();
    var s := RunFrom(NEW_DRAFT, StoppedAfterPush());
    LatestMarkerIsMax(s.comments, DraftClose, Some(28 * DAY + 1));
    assert s.comments[1] == EXPLANATION && Holds(EXPLANATION.body, DraftClose);
    assert !WARNED.comments[0].body.draftClose && WARNED.comments[0].createdAt == 21 * DAY;
  }

  // ----- a reply while the CLA run is closing -----

  const UNSIGNED := PullRequest(1, true, false, 0, true, "ann", [], Some(0), [])
  const NEW_UNSIGNED := State(UNSIGNED, [], [], None, 0)
  const CHECK := BotComment(7 * DAY, CLA_RETRY_COMMENT)
  const REPLY := Comment("ann", 8 * DAY + 1, Body(false, false, false, false))
  const CLA_RUN := Running(8 * DAY, UNSIGNED, Some([CHECK]), [Posted(1, CLA_CLOSE_COMMENT), Closed(1)], [])

  lemma CheckIsByTheBot()
    ensures IsBotCheck(CHECK) && !AuthorReplied([CHECK], "ann") && LatestClaRetryAt([CHECK]) == Some(7 * DAY)
  {
    assert Lower(COMMUNITY_BOT_LOGIN) == COMMUNITY_BOT_LOGIN;
    assert [CHECK][..0] == [];
  }

  function Rechecked(): seq<Step>
  {
    [] + [StartRun(7 * DAY, 7 * DAY)] + [ReadComments(7 * DAY)] + [Perform(7 * DAY)]
  }

  lemma RecheckedState()
    ensures ValidRun(NEW_UNSIGNED, Rechecked())
    ensures RunFrom(NEW_UNSIGNED, Rechecked()) == State(UNSIGNED, [CHECK], [None], None, 7 * DAY)
  {
    var start, read := StartRun(7 * DAY, 7 * DAY), ReadComments(7 * DAY);
    RunPush(NEW_UNSIGNED, [], start);
    RunPush(NEW_UNSIGNED, [] + [start], read);
    RunPush(NEW_UNSIGNED, [] + [start] + [read], Perform(7 * DAY));
    assert ClaEffects(UNSIGNED, [], 7 * DAY) == [Posted(1, CLA_RETRY_COMMENT)];
    assert [Posted(1, CLA_RETRY_COMMENT)][1..] == [];
  }

  function ReadForCla(): seq<Step>
  {
    Rechecked() + [StartRun(8 * DAY, 8 * DAY)] + [ReadComments(8 * DAY)]
  }

  lemma ReadForClaState()
    ensures ValidRun(NEW_UNSIGNED, ReadForCla())
    ensures RunFrom(NEW_UNSIGNED, ReadForCla()) == State(UNSIGNED, [CHECK], [None], Some(CLA_RUN), 8 * DAY)
  {
    var start, read := StartRun(8 * DAY, 8 * DAY), ReadComments(8 * DAY);
    RecheckedState();
    CheckIsByTheBot();
    MarkersOfOne(CHECK, ClaClose, None);
    assert ClaEffects(UNSIGNED, [CHECK], 8 * DAY) == CLA_RUN.cla;
    RunPush(NEW_UNSIGNED, Rechecked(), start);
    RunPush(NEW_UNSIGNED, Rechecked() + [start], read);
  }

  const SAY := Say("ann", REPLY.body, 8 * DAY + 1)

  lemma RepliedState()
    ensures ValidRun(NEW_UNSIGNED, ReadForCla() + [SAY])
    ensures RunFrom(NEW_UNSIGNED, ReadForCla() + [SAY])
         == State(UNSIGNED, [CHECK, REPLY], [None, None], Some(CLA_RUN), 8 * DAY + 1)
  {
    ReadForClaState();
    RunPush(NEW_UNSIGNED, ReadForCla(), SAY);
  }

  /** A reply of the author after the run has read the comments does not stop the close. */
  lemma ReplyWhileClosingIsClosed()
    ensures var steps := ReadForCla() + [SAY] + [Perform(8 * DAY + 2)];
            var s := RunFrom(NEW_UNSIGNED, steps);
            && Initial(NEW_UNSIGNED) && ValidRun(NEW_UNSIGNED, steps)
            && AuthorReplied(s.comments, s.pr.author)
            && ClosesForCla(s) && Valid(s, Perform(8 * DAY + 3)) && !Apply(s, Perform(8 * DAY + 3)).pr.isOpen
  {
    RepliedState();
    RunPush(NEW_UNSIGNED, ReadForCla() + [SAY], Perform(8 * DAY + 2));
    assert RunFrom(NEW_UNSIGNED, ReadForCla() + [SAY] + [Perform(8 * DAY + 2)]).comments[1] == REPLY;
  }
}
