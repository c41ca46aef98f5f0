/**
  The clean-up of community pull requests: the CLA re-check and the closing of stale drafts. Every
  run decides anew from the comments and events of a pull request. Times are microseconds.
*/
module PrCleanup {
  import opened Sequences
  import opened Wrappers

  const DAY: int := 86_400_000_000
  const DRAFT_WARNING_AFTER := 21 * DAY
  const DRAFT_CLOSE_AFTER_WARNING := 7 * DAY
  const CLA_RETRY_AFTER := 7 * DAY
  const CLA_CLOSE_AFTER_RETRY := DAY

  const COMMUNITY_BOT_LOGIN := "zed-community-bot[bot]"
  const CLA_SIGNED_LABEL := "cla-signed"

  /** What the script looks for in a comment: its three markers, and a bare `@cla-bot check`. */
  datatype Body = Body(draftWarning: bool, draftClose: bool, claClose: bool, bareCheck: bool)

  const DRAFT_WARNING_COMMENT := Body(true, false, false, false)
  const DRAFT_CLOSE_COMMENT := Body(false, true, false, false)
  const CLA_CLOSE_COMMENT := Body(false, false, true, false)
  const CLA_RETRY_COMMENT := Body(false, false, false, true)

  datatype Marker = DraftWarning | DraftClose | ClaClose

  predicate Holds(body: Body, marker: Marker)
  {
    match marker
    case DraftWarning => body.draftWarning
    case DraftClose => body.draftClose
    case ClaClose => body.claClose
  }

  datatype Comment = Comment(author: string, createdAt: int, body: Body)

  datatype Transition = ConvertToDraft(at: int) | ReadyForReview(at: int)

  datatype PullRequest = PullRequest(
    number: nat,
    isOpen: bool,
    isDraft: bool,
    createdAt: int,
    authorIsUser: bool,
    author: string,
    labels: seq<string>,
    commitAt: Option<int>,
    transitions: seq<Transition>)

  function LowerChar(c: char): char
  {
    if 'A' <= c <= 'Z' then (c as int + 32) as char else c
  }

  function Lower(s: string): string
  {
    seq(|s|, i requires 0 <= i < |s| => LowerChar(s[i]))
  }

  // ----- the decisions -----

  /** The first of the latest transitions, as `max` picks it. */
  function LatestTransition(transitions: seq<Transition>): Transition
    requires transitions != []
  {
    var n := |transitions| - 1;
    if n == 0 then transitions[0]
    else
      var before := LatestTransition(transitions[..n]);
      if transitions[n].at > before.at then transitions[n] else before
  }

  function CurrentDraftStartedAt(pr: PullRequest): Option<int>
  {
    if !pr.isOpen || !pr.isDraft then None
    else if pr.transitions == [] then Some(pr.createdAt)
    else
      match LatestTransition(pr.transitions)
      case ConvertToDraft(at) => Some(at)
      case ReadyForReview(_) => None
  }

  function LatestDraftActivityAt(pr: PullRequest): Option<int>
  {
    match CurrentDraftStartedAt(pr)
    case None => None
    case Some(started) =>
      if pr.commitAt.None? || pr.commitAt.value <= started then Some(started) else pr.commitAt
  }

  /** The latest comment with the marker that is not older than notBefore. */
  function LatestMarker(comments: seq<Comment>, marker: Marker, notBefore: Option<int>): Option<int>
  {
    if comments == [] then None
    else
      var n := |comments| - 1;
      var c, before := comments[n], LatestMarker(comments[..n], marker, notBefore);
      if !Holds(c.body, marker) || (notBefore.Some? && c.createdAt < notBefore.value) then before
      else if before.None? || c.createdAt > before.value then Some(c.createdAt)
      else before
  }

  /** Nothing, or a comment to post (if any) and whether to close afterwards. */
  datatype Action = NoAction | Act(comment: Option<Body>, close: bool)

  function DraftAction(activityAt: int, comments: seq<Comment>, now: int): Action
  {
    if LatestMarker(comments, DraftClose, Some(activityAt)).Some? then Act(None, true)
    else
      match LatestMarker(comments, DraftWarning, Some(activityAt))
      case None => Act(Some(DRAFT_WARNING_COMMENT), false)
      case Some(warningAt) =>
        if now - warningAt >= DRAFT_CLOSE_AFTER_WARNING then Act(Some(DRAFT_CLOSE_COMMENT), true) else NoAction
  }

  predicate IsBotCheck(c: Comment)
  {
    Lower(c.author) == COMMUNITY_BOT_LOGIN && c.body.bareCheck
  }

  predicate AuthorReplied(comments: seq<Comment>, author: string)
  {
    exists i :: 0 <= i < |comments| && Lower(comments[i].author) == Lower(author) && !comments[i].body.bareCheck
  }

  function LatestClaRetryAt(comments: seq<Comment>): Option<int>
  {
    if comments == [] then None
    else
      var n := |comments| - 1;
      var c, before := comments[n], LatestClaRetryAt(comments[..n]);
      if IsBotCheck(c) && (before.None? || c.createdAt > before.value) then Some(c.createdAt) else before
  }

  function ClaAction(author: string, comments: seq<Comment>, now: int): Action
  {
    if AuthorReplied(comments, author) then NoAction
    else
      match LatestClaRetryAt(comments)
      case None => Act(Some(CLA_RETRY_COMMENT), false)
      case Some(retryAt) =>
        if now - retryAt < CLA_CLOSE_AFTER_RETRY then NoAction
        else if LatestMarker(comments, ClaClose, None).Some? then Act(None, true)
        else Act(Some(CLA_CLOSE_COMMENT), true)
  }

  predicate NeedsClaFollowUp(pr: PullRequest, now: int)
  {
    && now - pr.createdAt >= CLA_RETRY_AFTER
    && pr.authorIsUser
    && pr.author != ""
    && forall i :: 0 <= i < |pr.labels| ==> Lower(pr.labels[i]) != CLA_SIGNED_LABEL
  }

  predicate IsStaleDraft(pr: PullRequest, now: int)
  {
    LatestDraftActivityAt(pr).Some? && now - LatestDraftActivityAt(pr).value >= DRAFT_WARNING_AFTER
  }

  // ----- the loops of the source -----

  method LatestMarkerCommentAt(comments: seq<Comment>, marker: Marker, notBefore: Option<int>) returns (latest: Option<int>)
    ensures latest == LatestMarker(comments, marker, notBefore)
  {
    latest := None;
    var i := 0;
    while i < |comments|
      invariant 0 <= i <= |comments|
      invariant latest == LatestMarker(comments[..i], marker, notBefore)
    {
      assert comments[..i + 1][..i] == comments[..i];
      var c := comments[i];
      i := i + 1;
      if !Holds(c.body, marker) {
        continue;
      }
      if notBefore.Some? && c.createdAt < notBefore.value {
        continue;
      }
      if latest.None? || c.createdAt > latest.value {
        latest := Some(c.createdAt);
      }
    }
    assert comments[..|comments|] == comments;
  }

  /** The stale drafts with their last activity, in order. */
  function StaleDrafts(prs: seq<PullRequest>, now: int): seq<(PullRequest, int)>
  {
    if prs == [] then []
    else
      var n := |prs| - 1;
      StaleDrafts(prs[..n], now)
      + (if IsStaleDraft(prs[n], now) then [(prs[n], LatestDraftActivityAt(prs[n]).value)] else [])
  }

  method FindStaleDrafts(prs: seq<PullRequest>, now: int) returns (stale: seq<(PullRequest, int)>)
    ensures stale == StaleDrafts(prs, now)
  {
    stale := [];
    var i := 0;
    while i < |prs|
      invariant 0 <= i <= |prs|
      invariant stale == StaleDrafts(prs[..i], now)
    {
      assert prs[..i + 1][..i] == prs[..i];
      var activityAt := LatestDraftActivityAt(prs[i]);
      if activityAt.Some? && now - activityAt.value >= DRAFT_WARNING_AFTER {
        stale := stale + [(prs[i], activityAt.value)];
      }
      i := i + 1;
    }
    assert prs[..|prs|] == prs;
  }

  datatype Effect = Posted(number: nat, body: Body) | Closed(number: nat)

  function EffectsOf(number: nat, action: Action): seq<Effect>
  {
    match action
    case NoAction => []
    case Act(comment, close) =>
      (if comment.Some? then [Posted(number, comment.value)] else []) + (if close then [Closed(number)] else [])
  }

  /** What the run does to one pull request for its CLA, given the comments it sees. */
  function ClaEffects(pr: PullRequest, comments: seq<Comment>, now: int): seq<Effect>
  {
    if NeedsClaFollowUp(pr, now) then EffectsOf(pr.number, ClaAction(pr.author, comments, now)) else []
  }

  function DraftEffects(pr: PullRequest, comments: seq<Comment>, now: int): seq<Effect>
  {
    if IsStaleDraft(pr, now) then EffectsOf(pr.number, DraftAction(LatestDraftActivityAt(pr).value, comments, now))
    else []
  }

  function ClaPass(prs: seq<PullRequest>, commentsOf: nat -> seq<Comment>, now: int): seq<Effect>
  {
    if prs == [] then []
    else
      var pr := prs[|prs| - 1];
      ClaPass(prs[..|prs| - 1], commentsOf, now) + EffectsOf(pr.number, ClaAction(pr.author, commentsOf(pr.number), now))
  }

  function DraftPass(stale: seq<(PullRequest, int)>, commentsOf: nat -> seq<Comment>, now: int): seq<Effect>
  {
    if stale == [] then []
    else
      var (pr, activityAt) := stale[|stale| - 1];
      DraftPass(stale[..|stale| - 1], commentsOf, now)
      + EffectsOf(pr.number, DraftAction(activityAt, commentsOf(pr.number), now))
  }

  /** The pull requests whose CLA is to be followed up, in order. */
  function Unsigned(prs: seq<PullRequest>, now: int): seq<PullRequest>
  {
    Filter(prs, (pr: PullRequest) => NeedsClaFollowUp(pr, now))
  }

  /** What a whole run does: the CLA pass, then the draft pass. */
  function RunEffects(prs: seq<PullRequest>, commentsOf: nat -> seq<Comment>, now: int): seq<Effect>
  {
    ClaPass(Unsigned(prs, now), commentsOf, now) + DraftPass(StaleDrafts(prs, now), commentsOf, now)
  }

  function Closings(effects: seq<Effect>): nat
  {
    |Filter(effects, (e: Effect) => e.Closed?)|
  }

  function Warnings(effects: seq<Effect>): nat
  {
    |Filter(effects, (e: Effect) => e == Posted(e.number, DRAFT_WARNING_COMMENT))|
  }

  /** The effects on one pull request. */
  function OnNumber(effects: seq<Effect>, number: nat): seq<Effect>
  {
    Filter(effects, (e: Effect) => e.number == number)
  }

  predicate DistinctNumbers(prs: seq<PullRequest>)
  {
    forall i, j :: 0 <= i < j < |prs| ==> prs[i].number != prs[j].number
  }

  predicate DistinctDrafts(stale: seq<(PullRequest, int)>)
  {
    forall i, j :: 0 <= i < j < |stale| ==> stale[i].0.number != stale[j].0.number
  }

  // ----- the effects of one action -----

  lemma CountInEffects(number: nat, action: Action, p: Effect -> bool)
    ensures |Filter(EffectsOf(number, action), p)|
         == (if action.Act? && action.comment.Some? && p(Posted(number, action.comment.value)) then 1 else 0)
            + (if action.Act? && action.close && p(Closed(number)) then 1 else 0)
  {
    if action.Act? {
      var post := if action.comment.Some? then [Posted(number, action.comment.value)] else [];
      var close := if action.close then [Closed(number)] else [];
      FilterConcat(post, close, p);
      if action.comment.Some? {
        FilterOne(post[0], p);
      }
      if action.close {
        FilterOne(close[0], p);
      }
    }
  }

  /** One more action adds its effects, and to the counts of closings and of warnings. */
  lemma AddAction(effects: seq<Effect>, number: nat, action: Action)
    ensures Closings(effects + EffectsOf(number, action))
         == Closings(effects) + if action.Act? && action.close then 1 else 0
    ensures Warnings(effects + EffectsOf(number, action))
         == Warnings(effects) + if action.Act? && action.comment == Some(DRAFT_WARNING_COMMENT) then 1 else 0
  {
    FilterConcat(effects, EffectsOf(number, action), (e: Effect) => e.Closed?);
    FilterConcat(effects, EffectsOf(number, action), (e: Effect) => e == Posted(e.number, DRAFT_WARNING_COMMENT));
    CountInEffects(number, action, (e: Effect) => e.Closed?);
    CountInEffects(number, action, (e: Effect) => e == Posted(e.number, DRAFT_WARNING_COMMENT));
  }

  /** One turn of the loop over the stale drafts. */
  lemma DraftTurn(before: seq<Effect>, stale: seq<(PullRequest, int)>, i: nat, commentsOf: nat -> seq<Comment>, now: int)
    requires i < |stale|
    ensures var number := stale[i].0.number;
            var action := DraftAction(stale[i].1, commentsOf(number), now);
            var pass, after := DraftPass(stale[..i], commentsOf, now), DraftPass(stale[..i + 1], commentsOf, now);
            && after == pass + EffectsOf(number, action)
            && before + after == before + pass + EffectsOf(number, action)
            && Closings(after) == Closings(pass) + (if action.Act? && action.close then 1 else 0)
            && Warnings(after) == Warnings(pass) + if action.Act? && !action.close then 1 else 0
  {
    var number := stale[i].0.number;
    var action := DraftAction(stale[i].1, commentsOf(number), now);
    var pass := DraftPass(stale[..i], commentsOf, now);
    assert stale[..i + 1][..i] == stale[..i];
    AddAction(pass, number, action);
    Associative(before, pass, EffectsOf(number, action));
  }

  lemma EffectsOnNumber(effects: seq<Effect>, number: nat, action: Action, other: nat)
    ensures OnNumber(effects + EffectsOf(number, action), other)
         == if number == other then OnNumber(effects, other) + EffectsOf(number, action) else OnNumber(effects, other)
  {
    FilterConcat(effects, EffectsOf(number, action), (e: Effect) => e.number == other);
    if number == other {
      FilterAll(EffectsOf(number, action), (e: Effect) => e.number == other);
    } else {
      FilterNone(EffectsOf(number, action), (e: Effect) => e.number == other);
      EmptyIsNeutral(OnNumber(effects, other));
    }
  }

  /** The repository as the script changes it; in a dry run nothing changes. */
  class Repository {
    var effects: seq<Effect>

    constructor ()
      ensures effects == []
    {
      effects := [];
    }

    method PostComment(number: nat, body: Body, dryRun: bool)
      modifies this
      ensures effects == if dryRun then old(effects) else old(effects) + [Posted(number, body)]
    {
      if !dryRun {
        effects := effects + [Posted(number, body)];
      }
    }

    method ClosePullRequest(number: nat, dryRun: bool)
      modifies this
      ensures effects == if dryRun then old(effects) else old(effects) + [Closed(number)]
    {
      if !dryRun {
        effects := effects + [Closed(number)];
      }
    }

    /** Closes after posting, if there is something to post; otherwise only posts. */
    method Perform(number: nat, action: Action, dryRun: bool)
      requires action.Act? && (action.close || action.comment.Some?)
      modifies this
      ensures effects == if dryRun then old(effects) else old(effects) + EffectsOf(number, action)
    {
      if action.close {
        if action.comment.Some? {
          PostComment(number, action.comment.value, dryRun);
        }
        ClosePullRequest(number, dryRun);
      } else {
        PostComment(number, action.comment.value, dryRun);
      }
    }

    method RetryOrCloseUnsigned(prs: seq<PullRequest>, commentsOf: nat -> seq<Comment>, now: int, dryRun: bool)
      returns (closed: nat)
      modifies this
      ensures effects == if dryRun then old(effects) else old(effects) + ClaPass(prs, commentsOf, now)
      ensures closed == Closings(ClaPass(prs, commentsOf, now))
      ensures DistinctNumbers(prs) ==> forall i :: 0 <= i < |prs| ==>
                OnNumber(effects, prs[i].number) == OnNumber(old(effects), prs[i].number)
                + if dryRun then [] else EffectsOf(prs[i].number, ClaAction(prs[i].author, commentsOf(prs[i].number), now))
    {
      closed := 0;
      ghost var pass: seq<Effect> := [];
      for i := 0 to |prs|
        invariant pass == ClaPass(prs[..i], commentsOf, now) && closed == Closings(pass)
        invariant effects == if dryRun then old(effects) else old(effects) + pass
      {
        var number := prs[i].number;
        var action := ClaAction(prs[i].author, commentsOf(number), now);
        assert prs[..i + 1][..i] == prs[..i];
        AddAction(pass, number, action);
        Associative(old(effects), pass, EffectsOf(number, action));
        pass := pass + EffectsOf(number, action);
        if action.NoAction? {
          continue;
        }
        Perform(number, action, dryRun);
        if action.close {
          closed := closed + 1;
        }
      }
      assert prs[..|prs|] == prs;
      if DistinctNumbers(prs) {
        ClaPassOnEach(old(effects), prs, commentsOf, now);
      }
    }

    method WarnOrCloseStaleDrafts(stale: seq<(PullRequest, int)>, commentsOf: nat -> seq<Comment>, now: int, dryRun: bool)
      returns (warned: nat, closed: nat)
      modifies this
      ensures effects == if dryRun then old(effects) else old(effects) + DraftPass(stale, commentsOf, now)
      ensures warned == Warnings(DraftPass(stale, commentsOf, now))
      ensures closed == Closings(DraftPass(stale, commentsOf, now))
      ensures DistinctDrafts(stale) ==> forall i :: 0 <= i < |stale| ==>
                OnNumber(effects, stale[i].0.number) == OnNumber(old(effects), stale[i].0.number)
                + if dryRun then []
                  else EffectsOf(stale[i].0.number, DraftAction(stale[i].1, commentsOf(stale[i].0.number), now))
    {
      warned, closed := 0, 0;
      for i := 0 to |stale|
        invariant warned == Warnings(DraftPass(stale[..i], commentsOf, now))
        invariant closed == Closings(DraftPass(stale[..i], commentsOf, now))
        invariant effects == if dryRun then old(effects) else old(effects) + DraftPass(stale[..i], commentsOf, now)
      {
        var number := stale[i].0.number;
        var action := DraftAction(stale[i].1, commentsOf(number), now);
        DraftTurn(old(effects), stale, i, commentsOf, now);
        if action.NoAction? {
          continue;
        }
        Perform(number, action, dryRun);
        if action.close {
          closed := closed + 1;
        } else {
          warned := warned + 1;
        }
      }
      assert stale[..|stale|] == stale;
      if DistinctDrafts(stale) {
        DraftPassOnEach(old(effects), stale, commentsOf, now);
      }
    }

    /** One whole run; the comments of a pull request are fetched once and cached for both passes. */
    method CleanUp(prs: seq<PullRequest>, commentsOf: nat -> seq<Comment>, now: int, dryRun: bool)
      returns (unsignedClosed: nat, draftsWarned: nat, draftsClosed: nat)
      modifies this
      ensures effects == if dryRun then old(effects) else old(effects) + RunEffects(prs, commentsOf, now)
      ensures unsignedClosed + draftsClosed == Closings(RunEffects(prs, commentsOf, now))
    {
      var unsigned := Unsigned(prs, now);
      unsignedClosed := RetryOrCloseUnsigned(unsigned, commentsOf, now, dryRun);
      var stale := FindStaleDrafts(prs, now);
      draftsWarned, draftsClosed := WarnOrCloseStaleDrafts(stale, commentsOf, now, dryRun);
      var cla, draft := ClaPass(unsigned, commentsOf, now), DraftPass(stale, commentsOf, now);
      FilterConcat(cla, draft, (e: Effect) => e.Closed?);
      Associative(old(effects), cla, draft);
    }
  }

  // ----- one pull request within a run -----

  lemma ClaPassPush(prs: seq<PullRequest>, n: nat, commentsOf: nat -> seq<Comment>, now: int, number: nat)
    requires |prs| == n + 1
    ensures var before := OnNumber(ClaPass(prs[..n], commentsOf, now), number);
            OnNumber(ClaPass(prs, commentsOf, now), number) ==
              if prs[n].number == number
              then before + EffectsOf(number, ClaAction(prs[n].author, commentsOf(number), now)) else before
  {
    EffectsOnNumber(ClaPass(prs[..n], commentsOf, now), prs[n].number,
                    ClaAction(prs[n].author, commentsOf(prs[n].number), now), number);
  }

  lemma {:induction false} NoClaEffectsOnOthers(prs: seq<PullRequest>, commentsOf: nat -> seq<Comment>, now: int, number: nat)
    requires forall i :: 0 <= i < |prs| ==> prs[i].number != number
    ensures OnNumber(ClaPass(prs, commentsOf, now), number) == []
  {
    if prs != [] {
      var n := |prs| - 1;
      NoClaEffectsOnOthers(prs[..n], commentsOf, now, number);
      ClaPassPush(prs, n, commentsOf, now, number);
    }
  }

  lemma FrontNumbers(prs: seq<PullRequest>, n: nat)
    requires |prs| == n + 1 && DistinctNumbers(prs)
    ensures DistinctNumbers(prs[..n])
    ensures forall k :: 0 <= k < n ==> prs[..n][k] == prs[k] && prs[..n][k].number != prs[n].number
  {
  }

  lemma {:induction false} ClaPassOnNumber(prs: seq<PullRequest>, i: nat, commentsOf: nat -> seq<Comment>, now: int)
    requires i < |prs| && DistinctNumbers(prs)
    ensures OnNumber(ClaPass(prs, commentsOf, now), prs[i].number)
         == EffectsOf(prs[i].number, ClaAction(prs[i].author, commentsOf(prs[i].number), now))
    decreases |prs|
  {
    var n, number := |prs| - 1, prs[i].number;
    var front := prs[..n];
    ClaPassPush(prs, n, commentsOf, now, number);
    FrontNumbers(prs, n);
    if i < n {
      ClaPassOnNumber(front, i, commentsOf, now);
    } else {
      NoClaEffectsOnOthers(front, commentsOf, now, number);
      EmptyIsNeutral(EffectsOf(number, ClaAction(prs[i].author, commentsOf(number), now)));
    }
  }

  lemma ClaPassOnEach(before: seq<Effect>, prs: seq<PullRequest>, commentsOf: nat -> seq<Comment>, now: int)
    requires DistinctNumbers(prs)
    ensures forall i :: 0 <= i < |prs| ==>
              OnNumber(before + ClaPass(prs, commentsOf, now), prs[i].number) == OnNumber(before, prs[i].number)
              + EffectsOf(prs[i].number, ClaAction(prs[i].author, commentsOf(prs[i].number), now))
  {
    forall i | 0 <= i < |prs|
      ensures OnNumber(before + ClaPass(prs, commentsOf, now), prs[i].number) == OnNumber(before, prs[i].number)
           + EffectsOf(prs[i].number, ClaAction(prs[i].author, commentsOf(prs[i].number), now))
    {
      FilterConcat(before, ClaPass(prs, commentsOf, now), (e: Effect) => e.number == prs[i].number);
      ClaPassOnNumber(prs, i, commentsOf, now);
    }
  }

  lemma DraftPassPush(stale: seq<(PullRequest, int)>, n: nat, commentsOf: nat -> seq<Comment>, now: int, number: nat)
    requires |stale| == n + 1
    ensures var before := OnNumber(DraftPass(stale[..n], commentsOf, now), number);
            OnNumber(DraftPass(stale, commentsOf, now), number) ==
              if stale[n].0.number == number
              then before + EffectsOf(number, DraftAction(stale[n].1, commentsOf(number), now)) else before
  {
    var (pr, activityAt) := stale[n];
    EffectsOnNumber(DraftPass(stale[..n], commentsOf, now), pr.number,
                    DraftAction(activityAt, commentsOf(pr.number), now), number);
  }

  lemma {:induction false} NoDraftEffectsOnOthers(stale: seq<(PullRequest, int)>, commentsOf: nat -> seq<Comment>,
                                                  now: int, number: nat)
    requires forall i :: 0 <= i < |stale| ==> stale[i].0.number != number
    ensures OnNumber(DraftPass(stale, commentsOf, now), number) == []
  {
    if stale != [] {
      var n := |stale| - 1;
      NoDraftEffectsOnOthers(stale[..n], commentsOf, now, number);
      DraftPassPush(stale, n, commentsOf, now, number);
    }
  }

  lemma FrontDrafts(stale: seq<(PullRequest, int)>, n: nat)
    requires |stale| == n + 1 && DistinctDrafts(stale)
    ensures DistinctDrafts(stale[..n])
    ensures forall k :: 0 <= k < n ==> stale[..n][k] == stale[k] && stale[..n][k].0.number != stale[n].0.number
  {
  }

  lemma {:induction false} DraftPassOnNumber(stale: seq<(PullRequest, int)>, i: nat, commentsOf: nat -> seq<Comment>,
                                             now: int)
    requires i < |stale| && DistinctDrafts(stale)
    ensures OnNumber(DraftPass(stale, commentsOf, now), stale[i].0.number)
         == EffectsOf(stale[i].0.number, DraftAction(stale[i].1, commentsOf(stale[i].0.number), now))
    decreases |stale|
  {
    var n, number := |stale| - 1, stale[i].0.number;
    var front := stale[..n];
    DraftPassPush(stale, n, commentsOf, now, number);
    FrontDrafts(stale, n);
    if i < n {
      DraftPassOnNumber(front, i, commentsOf, now);
    } else {
      NoDraftEffectsOnOthers(front, commentsOf, now, number);
      EmptyIsNeutral(EffectsOf(number, DraftAction(stale[i].1, commentsOf(number), now)));
    }
  }

  lemma DraftPassOnEach(before: seq<Effect>, stale: seq<(PullRequest, int)>, commentsOf: nat -> seq<Comment>, now: int)
    requires DistinctDrafts(stale)
    ensures forall i :: 0 <= i < |stale| ==>
              OnNumber(before + DraftPass(stale, commentsOf, now), stale[i].0.number) == OnNumber(before, stale[i].0.number)
              + EffectsOf(stale[i].0.number, DraftAction(stale[i].1, commentsOf(stale[i].0.number), now))
  {
    forall i | 0 <= i < |stale|
      ensures OnNumber(before + DraftPass(stale, commentsOf, now), stale[i].0.number)
           == OnNumber(before, stale[i].0.number)
              + EffectsOf(stale[i].0.number, DraftAction(stale[i].1, commentsOf(stale[i].0.number), now))
    {
      FilterConcat(before, DraftPass(stale, commentsOf, now), (e: Effect) => e.number == stale[i].0.number);
      DraftPassOnNumber(stale, i, commentsOf, now);
    }
  }

  function ClaOnNumber(prs: seq<PullRequest>, commentsOf: nat -> seq<Comment>, now: int, number: nat): seq<Effect>
  {
    OnNumber(ClaPass(Unsigned(prs, now), commentsOf, now), number)
  }

  function DraftOnNumber(prs: seq<PullRequest>, commentsOf: nat -> seq<Comment>, now: int, number: nat): seq<Effect>
  {
    OnNumber(DraftPass(StaleDrafts(prs, now), commentsOf, now), number)
  }

  /** The last pull request adds its own CLA effects. */
  lemma ClaOnNumberPush(prs: seq<PullRequest>, n: nat, commentsOf: nat -> seq<Comment>, now: int, number: nat)
    requires |prs| == n + 1
    ensures var before := ClaOnNumber(prs[..n], commentsOf, now, number);
            ClaOnNumber(prs, commentsOf, now, number) ==
              if prs[n].number == number then before + ClaEffects(prs[n], commentsOf(number), now) else before
  {
    var front, pr := Unsigned(prs[..n], now), prs[n];
    EmptyIsNeutral(ClaOnNumber(prs[..n], commentsOf, now, number));
    if NeedsClaFollowUp(pr, now) {
      var unsigned := front + [pr];
      assert Unsigned(prs, now) == unsigned && unsigned[..|front|] == front;
      ClaPassPush(unsigned, |front|, commentsOf, now, number);
    } else {
      assert Unsigned(prs, now) == front;
    }
  }

  /** And its own draft effects. */
  lemma DraftOnNumberPush(prs: seq<PullRequest>, n: nat, commentsOf: nat -> seq<Comment>, now: int, number: nat)
    requires |prs| == n + 1
    ensures var before := DraftOnNumber(prs[..n], commentsOf, now, number);
            DraftOnNumber(prs, commentsOf, now, number) ==
              if prs[n].number == number then before + DraftEffects(prs[n], commentsOf(number), now) else before
  {
    var front, pr := StaleDrafts(prs[..n], now), prs[n];
    EmptyIsNeutral(DraftOnNumber(prs[..n], commentsOf, now, number));
    if IsStaleDraft(pr, now) {
      var stale := front + [(pr, LatestDraftActivityAt(pr).value)];
      assert StaleDrafts(prs, now) == stale && stale[..|front|] == front;
      DraftPassPush(stale, |front|, commentsOf, now, number);
    } else {
      assert StaleDrafts(prs, now) == front;
    }
  }

  lemma {:induction false} NothingOnOthers(prs: seq<PullRequest>, commentsOf: nat -> seq<Comment>, now: int, number: nat)
    requires forall i :: 0 <= i < |prs| ==> prs[i].number != number
    ensures ClaOnNumber(prs, commentsOf, now, number) == [] && DraftOnNumber(prs, commentsOf, now, number) == []
  {
    if prs != [] {
      var n := |prs| - 1;
      NothingOnOthers(prs[..n], commentsOf, now, number);
      ClaOnNumberPush(prs, n, commentsOf, now, number);
      DraftOnNumberPush(prs, n, commentsOf, now, number);
    }
  }

  lemma {:induction false} OwnEffects(prs: seq<PullRequest>, i: nat, commentsOf: nat -> seq<Comment>, now: int)
    requires i < |prs| && DistinctNumbers(prs)
    ensures var number := prs[i].number;
            && ClaOnNumber(prs, commentsOf, now, number) == ClaEffects(prs[i], commentsOf(number), now)
            && DraftOnNumber(prs, commentsOf, now, number) == DraftEffects(prs[i], commentsOf(number), now)
    decreases |prs|
  {
    var n, number := |prs| - 1, prs[i].number;
    var front := prs[..n];
    ClaOnNumberPush(prs, n, commentsOf, now, number);
    DraftOnNumberPush(prs, n, commentsOf, now, number);
    FrontNumbers(prs, n);
    if i < n {
      OwnEffects(front, i, commentsOf, now);
    } else {
      NothingOnOthers(front, commentsOf, now, number);
      EmptyIsNeutral(ClaEffects(prs[i], commentsOf(number), now));
      EmptyIsNeutral(DraftEffects(prs[i], commentsOf(number), now));
    }
  }

  /**
    A run over any list of pull requests does to each of them its CLA effects and then its draft
    effects; a run that stops anywhere has done a first part of them.
  */
  lemma EffectsOnOne(prs: seq<PullRequest>, i: nat, commentsOf: nat -> seq<Comment>, now: int, done: nat)
    requires i < |prs| && DistinctNumbers(prs) && done <= |RunEffects(prs, commentsOf, now)|
    ensures var number, run := prs[i].number, RunEffects(prs, commentsOf, now);
            var own := ClaEffects(prs[i], commentsOf(number), now) + DraftEffects(prs[i], commentsOf(number), now);
            OnNumber(run, number) == own && OnNumber(run[..done], number) <= own
  {
    var number, run := prs[i].number, RunEffects(prs, commentsOf, now);
    OwnEffects(prs, i, commentsOf, now);
    FilterConcat(ClaPass(Unsigned(prs, now), commentsOf, now), DraftPass(StaleDrafts(prs, now), commentsOf, now),
                 (e: Effect) => e.number == number);
    assert run == run[..done] + run[done..];
    FilterConcat(run[..done], run[done..], (e: Effect) => e.number == number);
  }

  // ----- the markers -----

  lemma {:induction false} LatestMarkerIsMax(comments: seq<Comment>, marker: Marker, notBefore: Option<int>)
    ensures var latest := LatestMarker(comments, marker, notBefore);
            && (forall c :: c in comments && Holds(c.body, marker) && (notBefore.Some? ==> c.createdAt >= notBefore.value) ==>
                  latest.Some? && c.createdAt <= latest.value)
            && (latest.Some? ==>
                  && (notBefore.Some? ==> latest.value >= notBefore.value)
                  && exists c :: c in comments && Holds(c.body, marker) && c.createdAt == latest.value)
    decreases |comments|
  {
    if comments != [] {
      var n := |comments| - 1;
      LatestMarkerIsMax(comments[..n], marker, notBefore);
      assert comments == comments[..n] + [comments[n]];
    }
  }

  lemma {:induction false} LatestClaRetryIsMax(comments: seq<Comment>)
    ensures var latest := LatestClaRetryAt(comments);
            && (forall c :: c in comments && IsBotCheck(c) ==> latest.Some? && c.createdAt <= latest.value)
            && (latest.Some? ==> exists c :: c in comments && IsBotCheck(c) && c.createdAt == latest.value)
    decreases |comments|
  {
    if comments != [] {
      var n := |comments| - 1;
      LatestClaRetryIsMax(comments[..n]);
      assert comments == comments[..n] + [comments[n]];
    }
  }

  // ----- any log: when a draft is closed -----

  predicate DraftCloses(pr: PullRequest, comments: seq<Comment>, now: int)
  {
    IsStaleDraft(pr, now) && var action := DraftAction(LatestDraftActivityAt(pr).value, comments, now); action.Act? && action.close
  }

  /**
    On any log: a draft is closed with an explanation only when 28 days have passed since its last
    activity, for every time the run may come, exactly when the warning came 21 days after it.
  */
  lemma ExplainedCloseExactly(pr: PullRequest, comments: seq<Comment>)
    requires LatestDraftActivityAt(pr).Some?
    requires var a := LatestDraftActivityAt(pr);
             LatestMarker(comments, DraftClose, a).None? && LatestMarker(comments, DraftWarning, a).Some?
    ensures var a := LatestDraftActivityAt(pr);
            (forall now :: DraftCloses(pr, comments, now) ==> now - a.value >= 28 * DAY)
            <==> LatestMarker(comments, DraftWarning, a).value - a.value >= 21 * DAY
  {
    var a := LatestDraftActivityAt(pr).value;
    var warningAt := LatestMarker(comments, DraftWarning, Some(a)).value;
    var earliest := if warningAt + 7 * DAY >= a + 21 * DAY then warningAt + 7 * DAY else a + 21 * DAY;
    assert DraftCloses(pr, comments, earliest);
  }

  /** No explanation is posted while one from the same activity period is there. */
  lemma NoSecondExplanation(pr: PullRequest, comments: seq<Comment>, now: int)
    requires Posted(pr.number, DRAFT_CLOSE_COMMENT) in DraftEffects(pr, comments, now)
    ensures forall c :: c in comments && c.body.draftClose ==> c.createdAt < LatestDraftActivityAt(pr).value
  {
    LatestMarkerIsMax(comments, DraftClose, LatestDraftActivityAt(pr));
    forall c | c in comments && c.body.draftClose ensures c.createdAt < LatestDraftActivityAt(pr).value {
      assert Holds(c.body, DraftClose);
    }
  }

  /** Likewise for a close without an explanation, which relies on the explanation of an earlier run. */
  lemma UnexplainedCloseExactly(pr: PullRequest, comments: seq<Comment>)
    requires LatestDraftActivityAt(pr).Some?
    requires LatestMarker(comments, DraftClose, LatestDraftActivityAt(pr)).Some?
    ensures var a := LatestDraftActivityAt(pr);
            var explainedAt := LatestMarker(comments, DraftClose, a).value;
            (forall now :: explainedAt <= now && DraftCloses(pr, comments, now) ==> now - a.value >= 28 * DAY)
            <==> explainedAt - a.value >= 28 * DAY
  {
    var a := LatestDraftActivityAt(pr).value;
    var explainedAt := LatestMarker(comments, DraftClose, Some(a)).value;
    var earliest := if explainedAt >= a + 21 * DAY then explainedAt else a + 21 * DAY;
    assert DraftCloses(pr, comments, earliest);
  }
}
