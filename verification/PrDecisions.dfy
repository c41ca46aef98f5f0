/**
  What the clean-up does to one pull request, said of its labels, its comments and its events alone:
  which comments there are and how old they are, letter by letter where case does not matter.
*/
module PrDecisions {
  import opened Sequences
  import opened Wrappers
  import opened PrCleanup

  // ----- text in any case -----

  predicate SameLetter(c: char, d: char)
  {
    || c == d
    || ('A' <= c <= 'Z' && d as int == c as int + 32)
    || ('A' <= d <= 'Z' && c as int == d as int + 32)
  }

  predicate SameText(a: string, b: string)
  {
    |a| == |b| && forall i :: 0 <= i < |a| ==> SameLetter(a[i], b[i])
  }

  lemma LowerIsSameText(a: string, b: string)
    ensures Lower(a) == Lower(b) <==> SameText(a, b)
  {
    if Lower(a) == Lower(b) {
      forall i | 0 <= i < |a| ensures |a| == |b| && SameLetter(a[i], b[i]) {
        assert |Lower(a)| == |Lower(b)| && Lower(a)[i] == Lower(b)[i];
      }
    }
  }

  lemma LowerLetters(text: string)
    requires forall i :: 0 <= i < |text| ==> !('A' <= text[i] <= 'Z')
    ensures Lower(text) == text
  {
  }

  // ----- the CLA -----

  /** The author is a person, and no label says in any case that the CLA is signed. */
  predicate IsUnsigned(pr: PullRequest)
  {
    pr.authorIsUser && pr.author != "" && forall text :: text in pr.labels ==> !SameText(text, "cla-signed")
  }

  predicate IsRecheck(c: Comment)
  {
    SameText(c.author, "zed-community-bot[bot]") && c.body.bareCheck
  }

  predicate HasRecheck(comments: seq<Comment>)
  {
    exists c :: c in comments && IsRecheck(c)
  }

  predicate HasReply(comments: seq<Comment>, author: string)
  {
    exists c :: c in comments && SameText(c.author, author) && !c.body.bareCheck
  }

  predicate IsClaExplained(comments: seq<Comment>)
  {
    exists c :: c in comments && c.body.claClose
  }

  /** Some re-check is less than a day old. */
  predicate RecheckedWithinADay(comments: seq<Comment>, now: int)
  {
    exists c :: c in comments && IsRecheck(c) && now < c.createdAt + DAY
  }

  lemma UnsignedIs(pr: PullRequest, now: int)
    ensures NeedsClaFollowUp(pr, now) <==> IsUnsigned(pr) && now >= pr.createdAt + 7 * DAY
  {
    LowerLetters("cla-signed");
    forall i | 0 <= i < |pr.labels| ensures Lower(pr.labels[i]) == CLA_SIGNED_LABEL <==> SameText(pr.labels[i], "cla-signed") {
      LowerIsSameText(pr.labels[i], "cla-signed");
    }
    if NeedsClaFollowUp(pr, now) {
      forall text | text in pr.labels ensures !SameText(text, "cla-signed") {
        var i :| 0 <= i < |pr.labels| && pr.labels[i] == text;
      }
    }
  }

  lemma RecheckIs(c: Comment)
    ensures IsBotCheck(c) <==> IsRecheck(c)
  {
    LowerLetters(COMMUNITY_BOT_LOGIN);
    LowerIsSameText(c.author, COMMUNITY_BOT_LOGIN);
  }

  lemma ReplyIs(comments: seq<Comment>, author: string)
    ensures AuthorReplied(comments, author) <==> HasReply(comments, author)
  {
    forall c | c in comments ensures Lower(c.author) == Lower(author) <==> SameText(c.author, author) {
      LowerIsSameText(c.author, author);
    }
    if HasReply(comments, author) {
      var c :| c in comments && SameText(c.author, author) && !c.body.bareCheck;
      var i :| 0 <= i < |comments| && comments[i] == c;
    }
  }

  lemma RetryIs(comments: seq<Comment>, now: int)
    ensures LatestClaRetryAt(comments).Some? <==> HasRecheck(comments)
    ensures HasRecheck(comments) ==>
              (now - LatestClaRetryAt(comments).value < DAY <==> RecheckedWithinADay(comments, now))
  {
    LatestClaRetryIsMax(comments);
    forall c | c in comments ensures IsBotCheck(c) <==> IsRecheck(c) {
      RecheckIs(c);
    }
  }

  lemma ClaExplanationIs(comments: seq<Comment>)
    ensures LatestMarker(comments, ClaClose, None).Some? <==> IsClaExplained(comments)
  {
    LatestMarkerIsMax(comments, ClaClose, None);
    forall c | c in comments ensures c.body.claClose == Holds(c.body, ClaClose) {
    }
  }

  /** What is done for the CLA: nothing, a re-check, or a close with at most one explanation. */
  lemma ClaEffectsExactly(pr: PullRequest, comments: seq<Comment>, now: int)
    ensures var n := pr.number;
            ClaEffects(pr, comments, now) ==
            if !IsUnsigned(pr) || now < pr.createdAt + 7 * DAY || HasReply(comments, pr.author) then []
            else if !HasRecheck(comments) then [Posted(n, Body(false, false, false, true))]
            else if RecheckedWithinADay(comments, now) then []
            else if IsClaExplained(comments) then [Closed(n)]
            else [Posted(n, Body(false, false, true, false)), Closed(n)]
    ensures DAY == 24 * 60 * 60 * 1_000_000
  {
    UnsignedIs(pr, now);
    ReplyIs(comments, pr.author);
    RetryIs(comments, now);
    ClaExplanationIs(comments);
  }

  // ----- stale drafts -----

  /** The transition that decides: none is later, and none before it is as late. */
  predicate Decides(transitions: seq<Transition>, i: nat)
  {
    && i < |transitions|
    && (forall j :: 0 <= j < |transitions| ==> transitions[j].at <= transitions[i].at)
    && (forall j :: 0 <= j < i ==> transitions[j].at < transitions[i].at)
  }

  lemma {:induction false} LatestTransitionIs(transitions: seq<Transition>)
    requires transitions != []
    ensures LatestTransition(transitions) in transitions
    ensures forall t :: t in transitions ==> t.at <= LatestTransition(transitions).at
    decreases |transitions|
  {
    var n := |transitions| - 1;
    assert transitions == transitions[..n] + [transitions[n]];
    if n > 0 {
      LatestTransitionIs(transitions[..n]);
    }
  }

  lemma {:induction false} DecidesIsLatest(transitions: seq<Transition>, i: nat)
    requires Decides(transitions, i)
    ensures LatestTransition(transitions) == transitions[i]
    decreases |transitions|
  {
    var n := |transitions| - 1;
    if n > 0 {
      var front := transitions[..n];
      assert forall j :: 0 <= j < n ==> front[j] == transitions[j];
      if i == n {
        LatestTransitionIs(front);
      } else {
        DecidesIsLatest(front, i);
      }
    }
  }

  /**
    A pull request counts as a draft while it is open and a draft, unless its last transition was the one
    to be ready for review. Its last activity is the start of the draft or the last commit.
  */
  lemma DraftActivityExactly(pr: PullRequest, i: nat)
    requires pr.transitions != [] ==> Decides(pr.transitions, i)
    ensures LatestDraftActivityAt(pr) ==
            if !pr.isOpen || !pr.isDraft || (pr.transitions != [] && pr.transitions[i].ReadyForReview?) then None
            else
              var started := if pr.transitions == [] then pr.createdAt else pr.transitions[i].at;
              if pr.commitAt.Some? && pr.commitAt.value > started then pr.commitAt else Some(started)
  {
    if pr.transitions != [] {
      DecidesIsLatest(pr.transitions, i);
    }
  }

  predicate IsWarnedSince(comments: seq<Comment>, activity: int)
  {
    exists c :: c in comments && c.body.draftWarning && c.createdAt >= activity
  }

  predicate IsExplainedSince(comments: seq<Comment>, activity: int)
  {
    exists c :: c in comments && c.body.draftClose && c.createdAt >= activity
  }

  /** Some warning since the activity is less than 7 days old. */
  predicate WarnedWithinAWeek(comments: seq<Comment>, activity: int, now: int)
  {
    exists c :: c in comments && c.body.draftWarning && c.createdAt >= activity && now < c.createdAt + 7 * DAY
  }

  lemma WarningIs(comments: seq<Comment>, activity: int, now: int)
    ensures LatestMarker(comments, DraftWarning, Some(activity)).Some? <==> IsWarnedSince(comments, activity)
    ensures IsWarnedSince(comments, activity) ==>
              (now - LatestMarker(comments, DraftWarning, Some(activity)).value < 7 * DAY
               <==> WarnedWithinAWeek(comments, activity, now))
  {
    LatestMarkerIsMax(comments, DraftWarning, Some(activity));
    forall c | c in comments ensures c.body.draftWarning == Holds(c.body, DraftWarning) {
    }
  }

  lemma DraftExplanationIs(comments: seq<Comment>, activity: int)
    ensures LatestMarker(comments, DraftClose, Some(activity)).Some? <==> IsExplainedSince(comments, activity)
  {
    LatestMarkerIsMax(comments, DraftClose, Some(activity));
    forall c | c in comments ensures c.body.draftClose == Holds(c.body, DraftClose) {
    }
  }

  /** What is done to a stale draft: a warning, nothing, or a close with at most one explanation. */
  lemma DraftEffectsExactly(pr: PullRequest, comments: seq<Comment>, now: int)
    ensures var n, activity := pr.number, LatestDraftActivityAt(pr);
            DraftEffects(pr, comments, now) ==
            if activity.None? || now < activity.value + 21 * DAY then []
            else if IsExplainedSince(comments, activity.value) then [Closed(n)]
            else if !IsWarnedSince(comments, activity.value) then [Posted(n, Body(true, false, false, false))]
            else if WarnedWithinAWeek(comments, activity.value, now) then []
            else [Posted(n, Body(false, true, false, false)), Closed(n)]
  {
    if LatestDraftActivityAt(pr).Some? {
      var activity := LatestDraftActivityAt(pr).value;
      WarningIs(comments, activity, now);
      DraftExplanationIs(comments, activity);
    }
  }

  // ----- within a run -----

  /** In a run over any list, a pull request with a signed CLA that is no stale draft is left alone. */
  lemma SignedIsLeftAlone(prs: seq<PullRequest>, i: nat, commentsOf: nat -> seq<Comment>, now: int)
    requires i < |prs| && DistinctNumbers(prs)
    requires exists text :: text in prs[i].labels && SameText(text, "cla-signed")
    requires LatestDraftActivityAt(prs[i]).None? || now < LatestDraftActivityAt(prs[i]).value + 21 * DAY
    ensures OnNumber(RunEffects(prs, commentsOf, now), prs[i].number) == []
  {
    EffectsOnOne(prs, i, commentsOf, now, 0);
    ClaEffectsExactly(prs[i], commentsOf(prs[i].number), now);
    DraftEffectsExactly(prs[i], commentsOf(prs[i].number), now);
  }

  /** And an unsigned one that is 7 days old is first of all re-checked, if nobody has done or said anything. */
  lemma UnsignedIsRechecked(prs: seq<PullRequest>, i: nat, commentsOf: nat -> seq<Comment>, now: int)
    requires i < |prs| && DistinctNumbers(prs) && IsUnsigned(prs[i]) && now >= prs[i].createdAt + 7 * DAY
    requires !HasReply(commentsOf(prs[i].number), prs[i].author) && !HasRecheck(commentsOf(prs[i].number))
    ensures var own := OnNumber(RunEffects(prs, commentsOf, now), prs[i].number);
            own != [] && own[0] == Posted(prs[i].number, Body(false, false, false, true))
  {
    EffectsOnOne(prs, i, commentsOf, now, 0);
    ClaEffectsExactly(prs[i], commentsOf(prs[i].number), now);
  }
}
