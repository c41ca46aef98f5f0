/**
  What becomes of a model's reply: resolving its matches against the candidates it was shown,
  dropping overlaps, and asking for a verdict on each remaining match.
*/
module MatchReview {
  import opened Wrappers
  import opened CandidateSelection
  import opened Sequences

  /** One entry of the reply. A missing key reads as one that no candidate has, a missing root cause as empty. */
  datatype Match = Match(key: string, rootCause: string, explanation: Option<string>)

  datatype Reply = Reply(likely: seq<Match>, possible: seq<Match>, relatedClosed: seq<Match>)

  datatype Resolved = Resolved(proposal: Match, candidate: Candidate)

  datatype Confidence = Likely | Possible

  /** CallFailed is a verdict call that raised; Other is an answer that is none of the others. */
  datatype Verdict = Keep | Downgrade | Other | CallFailed

  datatype Surfaced = Surfaced(likely: seq<Resolved>, possible: seq<Resolved>, relatedClosed: seq<Resolved>)

  // ----- resolving -----

  /** The dictionary by key; a later candidate replaces an earlier one with the same key. */
  function ByKey(candidates: seq<Candidate>): map<string, Candidate>
  {
    if candidates == [] then map[]
    else
      var last := candidates[|candidates| - 1];
      ByKey(candidates[..|candidates| - 1])[last.key := last]
  }

  predicate Acceptable(m: Match, byKey: map<string, Candidate>, expected: State)
  {
    && m.key in byKey && byKey[m.key].state == expected
    && (byKey[m.key].kind == IssueKind && expected == Open ==> m.rootCause != "")
  }

  function KeysOf(matches: seq<Resolved>): set<string>
  {
    set r | r in matches :: r.proposal.key
  }

  function ResolvedMatches(matches: seq<Match>, byKey: map<string, Candidate>, expected: State): seq<Resolved>
  {
    if matches == [] then []
    else
      var m := matches[|matches| - 1];
      var before := ResolvedMatches(matches[..|matches| - 1], byKey, expected);
      if Acceptable(m, byKey, expected) && m.key !in KeysOf(before) then before + [Resolved(m, byKey[m.key])]
      else before
  }

  function MatchKey(r: Resolved): string
  {
    r.proposal.key
  }

  predicate DistinctMatches(matches: seq<Resolved>)
  {
    Distinct(matches, MatchKey)
  }

  method ResolveMatches(matches: seq<Match>, byKey: map<string, Candidate>, expected: State)
    returns (resolved: seq<Resolved>, dropped: seq<string>)
    ensures resolved == ResolvedMatches(matches, byKey, expected)
    ensures |resolved| + |dropped| == |matches|
    ensures DistinctMatches(resolved)
  {
    resolved, dropped := [], [];
    var seen := {};
    for i := 0 to |matches|
      invariant resolved == ResolvedMatches(matches[..i], byKey, expected)
      invariant seen == KeysOf(resolved) && DistinctMatches(resolved)
      invariant |resolved| + |dropped| == i
    {
      var m := matches[i];
      assert matches[..i + 1][..i] == matches[..i];
      if m.key !in byKey || byKey[m.key].state != expected || m.key in seen {
        dropped := dropped + [m.key];
        continue;
      }
      var candidate := byKey[m.key];
      if candidate.kind == IssueKind && expected == Open && m.rootCause == "" {
        dropped := dropped + [m.key];
        continue;
      }
      forall r | r in resolved ensures r.proposal.key != m.key {
        assert r.proposal.key in KeysOf(resolved);
      }
      seen := seen + {m.key};
      resolved := resolved + [Resolved(m, candidate)];
    }
    assert matches[..|matches|] == matches;
  }

  lemma KeysOfPush(matches: seq<Resolved>, r: Resolved)
    ensures KeysOf(matches + [r]) == KeysOf(matches) + {r.proposal.key}
  {
  }

  /** Only acceptable entries are resolved, each key once, to the candidate the dictionary has for it. */
  lemma {:induction false} ResolvedAreAcceptable(matches: seq<Match>, byKey: map<string, Candidate>, expected: State)
    ensures DistinctMatches(ResolvedMatches(matches, byKey, expected))
    ensures forall x :: x in ResolvedMatches(matches, byKey, expected) ==>
              && x.proposal in matches && Acceptable(x.proposal, byKey, expected)
              && x.candidate == byKey[x.proposal.key]
  {
    if matches != [] {
      var n := |matches| - 1;
      ResolvedAreAcceptable(matches[..n], byKey, expected);
      var before := ResolvedMatches(matches[..n], byKey, expected);
      assert matches == matches[..n] + [matches[n]];
      assert forall i :: 0 <= i < |before| ==> before[i].proposal.key in KeysOf(before);
    }
  }

  /** A key is resolved exactly when one of its entries is acceptable. */
  lemma {:induction false} ResolvedExactly(matches: seq<Match>, byKey: map<string, Candidate>, expected: State, key: string)
    ensures key in KeysOf(ResolvedMatches(matches, byKey, expected))
       <==> exists m :: m in matches && m.key == key && Acceptable(m, byKey, expected)
  {
    if matches != [] {
      var n := |matches| - 1;
      var m := matches[n];
      ResolvedExactly(matches[..n], byKey, expected, key);
      var before := ResolvedMatches(matches[..n], byKey, expected);
      assert matches == matches[..n] + [m];
      if Acceptable(m, byKey, expected) && m.key !in KeysOf(before) {
        KeysOfPush(before, Resolved(m, byKey[m.key]));
      }
    }
  }

  lemma {:induction false} ByKeyHolds(candidates: seq<Candidate>)
    ensures ByKey(candidates).Keys == Keys(candidates)
    ensures forall k :: k in ByKey(candidates) ==> ByKey(candidates)[k] in candidates && ByKey(candidates)[k].key == k
  {
    if candidates != [] {
      var n := |candidates| - 1;
      ByKeyHolds(candidates[..n]);
      assert candidates == candidates[..n] + [candidates[n]];
      KeysPush(candidates[..n], candidates[n]);
    }
  }

  // ----- resolving, entry by entry -----

  /** The k-th candidate is the one that the key names: the last with that key. */
  predicate Names(shown: seq<Candidate>, k: nat, key: string)
  {
    k < |shown| && shown[k].key == key && forall j :: k < j < |shown| ==> shown[j].key != key
  }

  /** The entry may stand for the candidate: the state is the wanted one, and an open issue needs a root cause. */
  predicate Fits(m: Match, c: Candidate, state: State)
  {
    c.state == state && (c.kind == IssueKind && state == Open ==> m.rootCause != "")
  }

  /** The i-th entry is the first with its key that fits the candidate named. */
  predicate Resolves(matches: seq<Match>, i: nat, shown: seq<Candidate>, k: nat, state: State)
  {
    && i < |matches| && Names(shown, k, matches[i].key) && Fits(matches[i], shown[k], state)
    && forall j :: 0 <= j < i && matches[j].key == matches[i].key ==> !Fits(matches[j], shown[k], state)
  }

  predicate IsResolved(r: Resolved, matches: seq<Match>, shown: seq<Candidate>, state: State)
  {
    exists i, k :: 0 <= i < |matches| && 0 <= k < |shown|
      && Resolves(matches, i, shown, k, state) && r == Resolved(matches[i], shown[k])
  }

  lemma {:induction false} ByKeyNames(shown: seq<Candidate>, k: nat, key: string)
    requires Names(shown, k, key)
    ensures key in ByKey(shown) && ByKey(shown)[key] == shown[k]
    decreases |shown|
  {
    var n := |shown| - 1;
    if k < n {
      assert shown[n].key != key;
      ByKeyNames(shown[..n], k, key);
    }
  }

  lemma {:induction false} NamedByKey(shown: seq<Candidate>, key: string) returns (k: nat)
    requires key in ByKey(shown)
    ensures Names(shown, k, key)
    decreases |shown|
  {
    var n := |shown| - 1;
    if shown[n].key == key {
      k := n;
    } else {
      k := NamedByKey(shown[..n], key);
      assert forall j :: k < j < n ==> shown[..n][j] == shown[j];
    }
  }

  lemma AcceptableIs(m: Match, shown: seq<Candidate>, k: nat, state: State)
    requires Names(shown, k, m.key)
    ensures Acceptable(m, ByKey(shown), state) <==> Fits(m, shown[k], state)
  {
    ByKeyNames(shown, k, m.key);
  }

  /** The i-th entry is acceptable, and none before it with its key is. */
  predicate IsFirstAcceptable(matches: seq<Match>, i: nat, byKey: map<string, Candidate>, state: State)
  {
    && i < |matches| && Acceptable(matches[i], byKey, state)
    && forall j :: 0 <= j < i && matches[j].key == matches[i].key ==> !Acceptable(matches[j], byKey, state)
  }

  lemma {:induction false} ResolvedAreFirst(matches: seq<Match>, byKey: map<string, Candidate>, state: State, r: Resolved)
    ensures r in ResolvedMatches(matches, byKey, state)
       <==> exists i: nat :: IsFirstAcceptable(matches, i, byKey, state)
                             && r == Resolved(matches[i], byKey[matches[i].key])
    decreases |matches|
  {
    if matches != [] {
      var n := |matches| - 1;
      var front := matches[..n];
      ResolvedAreFirst(front, byKey, state, r);
      ResolvedExactly(front, byKey, state, matches[n].key);
      assert forall i :: 0 <= i < n ==> front[i] == matches[i];
      forall i: nat | i < n
        ensures IsFirstAcceptable(front, i, byKey, state) <==> IsFirstAcceptable(matches, i, byKey, state)
      {
      }
      LastIsFirst(matches, n, byKey, state);
    }
  }

  lemma LastIsFirst(matches: seq<Match>, n: nat, byKey: map<string, Candidate>, state: State)
    requires |matches| == n + 1
    ensures IsFirstAcceptable(matches, n, byKey, state)
       <==> Acceptable(matches[n], byKey, state) && matches[n].key !in KeysOf(ResolvedMatches(matches[..n], byKey, state))
  {
    ResolvedExactly(matches[..n], byKey, state, matches[n].key);
    if IsFirstAcceptable(matches, n, byKey, state) {
      forall m | m in matches[..n] && m.key == matches[n].key ensures !Acceptable(m, byKey, state) {
        var j :| 0 <= j < n && matches[j] == m;
      }
    } else if Acceptable(matches[n], byKey, state) {
      var j :| 0 <= j < n && matches[j].key == matches[n].key && Acceptable(matches[j], byKey, state);
      assert matches[..n][j] == matches[j];
    }
  }

  /** What is resolved, from the entries and the candidates alone. */
  lemma ResolvedFromEntries(matches: seq<Match>, shown: seq<Candidate>, state: State, r: Resolved)
    ensures r in ResolvedMatches(matches, ByKey(shown), state) <==> IsResolved(r, matches, shown, state)
  {
    var byKey := ByKey(shown);
    ResolvedAreFirst(matches, byKey, state, r);
    if r in ResolvedMatches(matches, byKey, state) {
      var i: nat :| IsFirstAcceptable(matches, i, byKey, state) && r == Resolved(matches[i], byKey[matches[i].key]);
      var k := NamedByKey(shown, matches[i].key);
      FirstIsResolves(matches, i, shown, k, state);
      ByKeyNames(shown, k, matches[i].key);
    }
    if IsResolved(r, matches, shown, state) {
      var i, k :| 0 <= i < |matches| && 0 <= k < |shown|
        && Resolves(matches, i, shown, k, state) && r == Resolved(matches[i], shown[k]);
      FirstIsResolves(matches, i, shown, k, state);
      ByKeyNames(shown, k, matches[i].key);
    }
  }

  lemma FirstIsResolves(matches: seq<Match>, i: nat, shown: seq<Candidate>, k: nat, state: State)
    requires i < |matches| && Names(shown, k, matches[i].key)
    ensures IsFirstAcceptable(matches, i, ByKey(shown), state) <==> Resolves(matches, i, shown, k, state)
  {
    AcceptableIs(matches[i], shown, k, state);
    forall j | 0 <= j < i && matches[j].key == matches[i].key
      ensures Acceptable(matches[j], ByKey(shown), state) <==> Fits(matches[j], shown[k], state)
    {
      AcceptableIs(matches[j], shown, k, state);
    }
  }

  /** Earlier entries are resolved the same way whatever follows, and come first. */
  lemma {:induction false} ResolvedInOrder(matches: seq<Match>, n: nat, byKey: map<string, Candidate>, state: State)
    requires n <= |matches|
    ensures ResolvedMatches(matches[..n], byKey, state) <= ResolvedMatches(matches, byKey, state)
    decreases |matches|
  {
    if n < |matches| {
      var front := matches[..|matches| - 1];
      ResolvedInOrder(front, n, byKey, state);
      assert front[..n] == matches[..n];
    } else {
      assert matches[..n] == matches;
    }
  }

  // ----- overlaps and verdicts -----

  datatype Proposed = Proposed(confidence: Confidence, found: Resolved)

  function Tagged(confidence: Confidence, matches: seq<Resolved>): (p: seq<Proposed>)
    ensures |p| == |matches| && forall i :: 0 <= i < |p| ==> p[i] == Proposed(confidence, matches[i])
  {
    seq(|matches|, i requires 0 <= i < |matches| => Proposed(confidence, matches[i]))
  }

  function Proposals(likely: seq<Resolved>, possible: seq<Resolved>): seq<Proposed>
  {
    Tagged(Likely, likely) + Tagged(Possible, possible)
  }

  lemma ProposalMembers(likely: seq<Resolved>, possible: seq<Resolved>, r: Resolved)
    ensures Proposed(Likely, r) in Proposals(likely, possible) <==> r in likely
    ensures Proposed(Possible, r) in Proposals(likely, possible) <==> r in possible
  {
  }

  /** Where a verdict puts a match; None omits it. A possible match is never downgraded. */
  function Destination(confidence: Confidence, verdict: Verdict): Option<Confidence>
  {
    if verdict == Keep then Some(confidence)
    else if verdict == Downgrade && confidence == Likely then Some(Possible)
    else None
  }

  function Kept(proposals: seq<Proposed>, verdictOf: Proposed -> Verdict, to: Confidence): seq<Resolved>
  {
    if proposals == [] then []
    else
      var last := proposals[|proposals| - 1];
      Kept(proposals[..|proposals| - 1], verdictOf, to)
      + if Destination(last.confidence, verdictOf(last)) == Some(to) then [last.found] else []
  }

  predicate Explained(proposals: seq<Proposed>)
  {
    forall p :: p in proposals ==> p.found.proposal.explanation.Some?
  }

  datatype Critique = Critique(likely: seq<Resolved>, possible: seq<Resolved>)

  /**
    A verdict is asked once for each proposal, so the answers are a function of the proposal. A
    proposal without an explanation raises an error that nothing catches, here None.
  */
  method CritiqueProposedMatches(likely: seq<Resolved>, possible: seq<Resolved>, verdictOf: Proposed -> Verdict)
    returns (critique: Option<Critique>)
    ensures critique.None? <==> exists r :: (r in likely || r in possible) && r.proposal.explanation.None?
    ensures critique.Some? ==>
              && critique.value.likely == Kept(Proposals(likely, possible), verdictOf, Likely)
              && critique.value.possible == Kept(Proposals(likely, possible), verdictOf, Possible)
  {
    var proposals := Proposals(likely, possible);
    ExplainedExactly(likely, possible);
    var keptLikely, keptPossible := [], [];
    for i := 0 to |proposals|
      invariant Explained(proposals[..i])
      invariant keptLikely == Kept(proposals[..i], verdictOf, Likely)
      invariant keptPossible == Kept(proposals[..i], verdictOf, Possible)
    {
      assert proposals[..i + 1][..i] == proposals[..i];
      var Proposed(confidence, found) := proposals[i];
      if found.proposal.explanation.None? {
        assert proposals[i] in proposals;
        return None;
      }
      var verdict := verdictOf(proposals[i]);
      if verdict == CallFailed {
        continue;
      }
      if verdict == Keep {
        if confidence == Likely {
          keptLikely := keptLikely + [found];
        } else {
          keptPossible := keptPossible + [found];
        }
      } else if verdict == Downgrade && confidence == Likely {
        keptPossible := keptPossible + [found];
      }
    }
    assert proposals[..|proposals|] == proposals;
    critique := Some(Critique(keptLikely, keptPossible));
  }

  lemma ExplainedExactly(likely: seq<Resolved>, possible: seq<Resolved>)
    ensures Explained(Proposals(likely, possible))
       <==> forall r :: r in likely || r in possible ==> r.proposal.explanation.Some?
  {
    forall r ensures Proposed(Likely, r) in Proposals(likely, possible) <==> r in likely
      ensures Proposed(Possible, r) in Proposals(likely, possible) <==> r in possible
    {
      ProposalMembers(likely, possible, r);
    }
  }

  lemma {:induction false} KeptMembers(proposals: seq<Proposed>, verdictOf: Proposed -> Verdict, to: Confidence)
    ensures forall r :: r in Kept(proposals, verdictOf, to) <==>
              exists p :: p in proposals && p.found == r && Destination(p.confidence, verdictOf(p)) == Some(to)
  {
    if proposals != [] {
      var n := |proposals| - 1;
      KeptMembers(proposals[..n], verdictOf, to);
      assert proposals == proposals[..n] + [proposals[n]];
    }
  }

  /** Verdicts are taken one by one, and what is kept stays in order. */
  lemma {:induction false} KeptConcat(a: seq<Proposed>, b: seq<Proposed>, verdictOf: Proposed -> Verdict, to: Confidence)
    ensures Kept(a + b, verdictOf, to) == Kept(a, verdictOf, to) + Kept(b, verdictOf, to)
    decreases |b|
  {
    if b == [] {
      EmptyIsNeutral(a);
      EmptyIsNeutral(Kept(a, verdictOf, to));
    } else {
      var n := |b| - 1;
      KeptConcat(a, b[..n], verdictOf, to);
      KeptPush(a + b[..n], b[n], verdictOf, to);
      KeptPush(b[..n], b[n], verdictOf, to);
      assert a + b == a + b[..n] + [b[n]] && b == b[..n] + [b[n]];
      Associative(Kept(a, verdictOf, to), Kept(b[..n], verdictOf, to), Kept([b[n]], verdictOf, to));
    }
  }

  lemma KeptPush(proposals: seq<Proposed>, p: Proposed, verdictOf: Proposed -> Verdict, to: Confidence)
    ensures Kept(proposals + [p], verdictOf, to) == Kept(proposals, verdictOf, to) + Kept([p], verdictOf, to)
  {
    assert (proposals + [p])[..|proposals|] == proposals && [p][..0] == [];
    EmptyIsNeutral(Kept([p], verdictOf, to));
  }

  predicate DistinctProposals(proposals: seq<Proposed>)
  {
    forall i, j :: 0 <= i < j < |proposals| ==> proposals[i].found.proposal.key != proposals[j].found.proposal.key
  }

  lemma {:induction false} KeptIsDistinct(proposals: seq<Proposed>, verdictOf: Proposed -> Verdict, to: Confidence)
    requires DistinctProposals(proposals)
    ensures DistinctMatches(Kept(proposals, verdictOf, to))
  {
    if proposals != [] {
      var n := |proposals| - 1;
      var front := Kept(proposals[..n], verdictOf, to);
      KeptIsDistinct(proposals[..n], verdictOf, to);
      KeptMembers(proposals[..n], verdictOf, to);
      forall i | 0 <= i < |front| ensures front[i].proposal.key != proposals[n].found.proposal.key {
        assert front[i] in front;
      }
    }
  }

  /** Which matches are kept where; in particular no possible match is kept as likely. */
  lemma KeptExactly(likely: seq<Resolved>, possible: seq<Resolved>, verdictOf: Proposed -> Verdict, r: Resolved)
    ensures r in Kept(Proposals(likely, possible), verdictOf, Likely)
       <==> r in likely && verdictOf(Proposed(Likely, r)) == Keep
    ensures r in Kept(Proposals(likely, possible), verdictOf, Possible)
       <==> || (r in likely && verdictOf(Proposed(Likely, r)) == Downgrade)
            || (r in possible && verdictOf(Proposed(Possible, r)) == Keep)
  {
    var proposals := Proposals(likely, possible);
    KeptMembers(proposals, verdictOf, Likely);
    KeptMembers(proposals, verdictOf, Possible);
    ProposalMembers(likely, possible, r);
    forall p: Proposed | p.found == r ensures p == Proposed(Likely, r) || p == Proposed(Possible, r) {
      assert p.confidence == Likely || p.confidence == Possible;
    }
  }

  lemma KeptAreApart(proposals: seq<Proposed>, verdictOf: Proposed -> Verdict)
    requires DistinctProposals(proposals)
    ensures KeysOf(Kept(proposals, verdictOf, Likely)) !! KeysOf(Kept(proposals, verdictOf, Possible))
  {
    KeptMembers(proposals, verdictOf, Likely);
    KeptMembers(proposals, verdictOf, Possible);
    forall a, b | a in Kept(proposals, verdictOf, Likely) && b in Kept(proposals, verdictOf, Possible)
      ensures a.proposal.key != b.proposal.key
    {
      var p :| p in proposals && p.found == a && Destination(p.confidence, verdictOf(p)) == Some(Likely);
      var q :| q in proposals && q.found == b && Destination(q.confidence, verdictOf(q)) == Some(Possible);
      DifferentProposals(proposals, p, q);
    }
  }

  lemma DifferentProposals(proposals: seq<Proposed>, p: Proposed, q: Proposed)
    requires DistinctProposals(proposals) && p in proposals && q in proposals && p != q
    ensures p.found.proposal.key != q.found.proposal.key
  {
  }

  lemma TaggedAreDistinct(likely: seq<Resolved>, possible: seq<Resolved>)
    requires DistinctMatches(likely) && DistinctMatches(possible)
    requires forall r :: r in possible ==> r.proposal.key !in KeysOf(likely)
    ensures DistinctProposals(Proposals(likely, possible))
  {
  }

  // ----- the whole review -----

  function LikelyIn(reply: Reply, byKey: map<string, Candidate>): seq<Resolved>
  {
    ResolvedMatches(reply.likely, byKey, Open)
  }

  function PossibleIn(reply: Reply, byKey: map<string, Candidate>): seq<Resolved>
  {
    var likelyKeys := KeysOf(LikelyIn(reply, byKey));
    Filter(ResolvedMatches(reply.possible, byKey, Open), (m: Resolved) => m.proposal.key !in likelyKeys)
  }

  /** None when the critique ends with an error. */
  function Review(reply: Reply, candidates: seq<Candidate>, verdictOf: Proposed -> Verdict, includes: Resolved -> bool)
    : Option<Surfaced>
  {
    var byKey := ByKey(Shown(candidates));
    var proposals := Proposals(LikelyIn(reply, byKey), PossibleIn(reply, byKey));
    if !Explained(proposals) then None
    else
      Some(Surfaced(Kept(proposals, verdictOf, Likely), Kept(proposals, verdictOf, Possible),
                    Filter(ResolvedMatches(reply.relatedClosed, byKey, Closed), includes)))
  }

  method ReviewReply(reply: Reply, candidates: seq<Candidate>, verdictOf: Proposed -> Verdict,
                     includes: Resolved -> bool)
    returns (surfaced: Option<Surfaced>)
    ensures surfaced == Review(reply, candidates, verdictOf, includes)
  {
    var byKey := ByKey(Shown(candidates));
    var likely, droppedLikely := ResolveMatches(reply.likely, byKey, Open);
    var possible, droppedPossible := ResolveMatches(reply.possible, byKey, Open);
    var closed, droppedClosed := ResolveMatches(reply.relatedClosed, byKey, Closed);
    var likelyKeys := KeysOf(likely);
    possible := Filter(possible, (m: Resolved) => m.proposal.key !in likelyKeys);
    ExplainedExactly(likely, possible);
    var critique := CritiqueProposedMatches(likely, possible, verdictOf);
    surfaced := if critique.None? then None
                else Some(Surfaced(critique.value.likely, critique.value.possible, Filter(closed, includes)));
  }

  /** What may be shown as a match: a candidate of the wanted state, and for an open issue a root cause. */
  predicate Sound(r: Resolved, candidates: seq<Candidate>, state: State)
  {
    && r.candidate in Shown(candidates) && r.candidate.key == r.proposal.key && r.candidate.state == state
    && (r.candidate.kind == IssueKind && state == Open ==> r.proposal.rootCause != "")
  }

  lemma ResolvedAreSound(matches: seq<Match>, candidates: seq<Candidate>, state: State)
    ensures var r := ResolvedMatches(matches, ByKey(Shown(candidates)), state);
            DistinctMatches(r) && forall x :: x in r ==> Sound(x, candidates, state) && x.proposal in matches
  {
    ResolvedAreAcceptable(matches, ByKey(Shown(candidates)), state);
    ByKeyHolds(Shown(candidates));
  }

  lemma ProposalsAreDistinct(reply: Reply, candidates: seq<Candidate>)
    ensures var byKey := ByKey(Shown(candidates));
            DistinctProposals(Proposals(LikelyIn(reply, byKey), PossibleIn(reply, byKey)))
  {
    var byKey := ByKey(Shown(candidates));
    var likely, possible := LikelyIn(reply, byKey), PossibleIn(reply, byKey);
    var likelyKeys := KeysOf(likely);
    ResolvedAreSound(reply.likely, candidates, Open);
    ResolvedAreSound(reply.possible, candidates, Open);
    FilterIsDistinct(ResolvedMatches(reply.possible, byKey, Open), (m: Resolved) => m.proposal.key !in likelyKeys, MatchKey);
    TaggedAreDistinct(likely, possible);
  }

  predicate IsLikelyOfKey(reply: Reply, i: nat, shown: seq<Candidate>, k: nat, key: string)
  {
    i < |reply.likely| && k < |shown| && Resolves(reply.likely, i, shown, k, Open) && reply.likely[i].key == key
  }

  /** A possible match counts unless a likely one with its key was resolved. */
  ghost predicate IsPossible(r: Resolved, reply: Reply, shown: seq<Candidate>)
  {
    && IsResolved(r, reply.possible, shown, Open)
    && forall i: nat, k: nat :: !IsLikelyOfKey(reply, i, shown, k, r.proposal.key)
  }

  lemma PossibleIs(reply: Reply, shown: seq<Candidate>, r: Resolved)
    ensures r in PossibleIn(reply, ByKey(shown)) <==> IsPossible(r, reply, shown)
  {
    var byKey := ByKey(shown);
    ResolvedFromEntries(reply.possible, shown, Open, r);
    if r.proposal.key in KeysOf(LikelyIn(reply, byKey)) {
      var q :| q in LikelyIn(reply, byKey) && q.proposal.key == r.proposal.key;
      ResolvedFromEntries(reply.likely, shown, Open, q);
      var i, k :| 0 <= i < |reply.likely| && 0 <= k < |shown|
        && Resolves(reply.likely, i, shown, k, Open) && q == Resolved(reply.likely[i], shown[k]);
      assert IsLikelyOfKey(reply, i, shown, k, r.proposal.key);
    }
    if exists i: nat, k: nat :: IsLikelyOfKey(reply, i, shown, k, r.proposal.key) {
      var i: nat, k: nat :| IsLikelyOfKey(reply, i, shown, k, r.proposal.key);
      var q := Resolved(reply.likely[i], shown[k]);
      ResolvedFromEntries(reply.likely, shown, Open, q);
      assert q.proposal.key in KeysOf(LikelyIn(reply, byKey));
    }
  }

  /**
    For every reply and all verdicts, from the entries of the reply alone: the critique ends with an
    error exactly when a likely or possible match has no explanation. Otherwise, what is surfaced as
    likely are exactly the likely matches with the verdict to keep them, so no match is promoted; what is
    surfaced as possible are exactly the downgraded likely ones and the kept possible ones; and as
    related closed, exactly the included ones.
  */
  lemma SurfacedExactly(reply: Reply, candidates: seq<Candidate>, verdictOf: Proposed -> Verdict,
                        includes: Resolved -> bool)
    ensures var s, shown := Review(reply, candidates, verdictOf, includes), Shown(candidates);
            && (s.None? <==> exists r :: (IsResolved(r, reply.likely, shown, Open) || IsPossible(r, reply, shown))
                                         && r.proposal.explanation.None?)
            && (s.Some? ==> forall r ::
                  && (r in s.value.likely
                      <==> IsResolved(r, reply.likely, shown, Open) && verdictOf(Proposed(Likely, r)) == Keep)
                  && (r in s.value.possible
                      <==> || (IsResolved(r, reply.likely, shown, Open) && verdictOf(Proposed(Likely, r)) == Downgrade)
                           || (IsPossible(r, reply, shown) && verdictOf(Proposed(Possible, r)) == Keep))
                  && (r in s.value.relatedClosed <==> IsResolved(r, reply.relatedClosed, shown, Closed) && includes(r)))
  {
    var shown := Shown(candidates);
    var byKey := ByKey(shown);
    var likely, possible := LikelyIn(reply, byKey), PossibleIn(reply, byKey);
    ExplainedExactly(likely, possible);
    forall r
      ensures r in likely <==> IsResolved(r, reply.likely, shown, Open)
      ensures r in possible <==> IsPossible(r, reply, shown)
      ensures r in ResolvedMatches(reply.relatedClosed, byKey, Closed) <==> IsResolved(r, reply.relatedClosed, shown, Closed)
    {
      ResolvedFromEntries(reply.likely, shown, Open, r);
      PossibleIs(reply, shown, r);
      ResolvedFromEntries(reply.relatedClosed, shown, Closed, r);
    }
    forall r
      ensures r in Kept(Proposals(likely, possible), verdictOf, Likely)
         <==> r in likely && verdictOf(Proposed(Likely, r)) == Keep
      ensures r in Kept(Proposals(likely, possible), verdictOf, Possible)
         <==> || (r in likely && verdictOf(Proposed(Likely, r)) == Downgrade)
              || (r in possible && verdictOf(Proposed(Possible, r)) == Keep)
    {
      KeptExactly(likely, possible, verdictOf, r);
    }
  }

  /**
    For every reply and all verdicts: no candidate is surfaced twice, in one list or in two; every
    surfaced match is a shown candidate of the right state, and an open issue comes with a root cause.
  */
  lemma SurfacedAreSound(reply: Reply, candidates: seq<Candidate>, verdictOf: Proposed -> Verdict,
                         includes: Resolved -> bool)
    requires Review(reply, candidates, verdictOf, includes).Some?
    ensures var s := Review(reply, candidates, verdictOf, includes).value;
            && DistinctMatches(s.likely) && DistinctMatches(s.possible) && DistinctMatches(s.relatedClosed)
            && KeysOf(s.likely) !! KeysOf(s.possible)
            && (forall r :: r in s.likely || r in s.possible ==> Sound(r, candidates, Open))
            && (forall r :: r in s.relatedClosed ==> Sound(r, candidates, Closed))
            && (forall r :: r in s.likely ==> r.proposal in reply.likely)
            && (forall r :: r in s.possible ==> r.proposal in reply.likely || r.proposal in reply.possible)
  {
    var s := Review(reply, candidates, verdictOf, includes).value;
    var byKey := ByKey(Shown(candidates));
    var proposals := Proposals(LikelyIn(reply, byKey), PossibleIn(reply, byKey));
    ProposalsAreDistinct(reply, candidates);
    KeptIsDistinct(proposals, verdictOf, Likely);
    KeptIsDistinct(proposals, verdictOf, Possible);
    KeptAreApart(proposals, verdictOf);
    ResolvedAreSound(reply.likely, candidates, Open);
    ResolvedAreSound(reply.possible, candidates, Open);
    ResolvedAreSound(reply.relatedClosed, candidates, Closed);
    FilterIsDistinct(ResolvedMatches(reply.relatedClosed, byKey, Closed), includes, MatchKey);
    forall r ensures r in s.likely ==> r in LikelyIn(reply, byKey)
      ensures r in s.possible ==> r in LikelyIn(reply, byKey) || r in PossibleIn(reply, byKey)
    {
      KeptExactly(LikelyIn(reply, byKey), PossibleIn(reply, byKey), verdictOf, r);
    }
  }
}
