/**
  Choosing the candidates that are shown to the proposer: a bounded list that reserves capacity for
  each search channel, and the four lists of one analysis.
*/
module CandidateSelection {
  import opened Sequences

  datatype Kind = IssueKind | DiscussionKind

  datatype State = Open | Closed | UnknownState

  datatype Search = SemanticQuery | ErrorPattern | TitleKeywords | PopularArea | AreaLabel

  datatype Candidate = Candidate(key: string, kind: Kind, state: State, isMagnet: bool, searches: set<Search>)

  const CHANNELS := [SemanticQuery, ErrorPattern, TitleKeywords, PopularArea, AreaLabel]

  function Max(a: int, b: int): int
  {
    if a >= b then a else b
  }

  function Min(a: int, b: int): int
  {
    if a <= b then a else b
  }

  function Quota(search: Search, limit: int): (q: nat)
    ensures q >= 1
  {
    match search
    case SemanticQuery => Max(2, limit / 3)
    case ErrorPattern => Max(1, limit / 10)
    case TitleKeywords => Max(1, limit / 6)
    case PopularArea => Max(1, limit / 5)
    case AreaLabel => Max(1, limit / 6)
  }

  function Keys(candidates: seq<Candidate>): set<string>
  {
    set c | c in candidates :: c.key
  }

  function Key(c: Candidate): string
  {
    c.key
  }

  predicate DistinctKeys(candidates: seq<Candidate>)
  {
    Distinct(candidates, Key)
  }

  function Take(candidates: seq<Candidate>, n: nat): seq<Candidate>
  {
    if n <= |candidates| then candidates[..n] else candidates
  }

  function Matching(candidates: seq<Candidate>, search: Search): seq<Candidate>
  {
    if candidates == [] then []
    else
      var n := |candidates| - 1;
      Matching(candidates[..n], search) + if search in candidates[n].searches then [candidates[n]] else []
  }

  /** The candidates a channel has capacity reserved for. */
  function Top(candidates: seq<Candidate>, search: Search, limit: int): seq<Candidate>
  {
    Take(Matching(candidates, search), Quota(search, limit))
  }

  function Tops(candidates: seq<Candidate>, channels: seq<Search>, limit: int): seq<Candidate>
  {
    if channels == [] then []
    else
      var n := |channels| - 1;
      Tops(candidates, channels[..n], limit) + Top(candidates, channels[n], limit)
  }

  function Add(selected: seq<Candidate>, c: Candidate, limit: int): seq<Candidate>
  {
    if c.key !in Keys(selected) && |selected| < limit then selected + [c] else selected
  }

  function AddAll(selected: seq<Candidate>, candidates: seq<Candidate>, limit: int): seq<Candidate>
  {
    if candidates == [] then selected
    else
      var n := |candidates| - 1;
      Add(AddAll(selected, candidates[..n], limit), candidates[n], limit)
  }

  function Selected(candidates: seq<Candidate>, limit: int): seq<Candidate>
  {
    AddAll(AddAll([], Tops(candidates, CHANNELS, limit), limit), candidates, limit)
  }

  lemma {:induction false} AddAllConcat(selected: seq<Candidate>, a: seq<Candidate>, b: seq<Candidate>, limit: int)
    ensures AddAll(selected, a + b, limit) == AddAll(AddAll(selected, a, limit), b, limit)
  {
    if b == [] {
      assert a + b == a;
    } else {
      var n := |b| - 1;
      AddAllConcat(selected, a, b[..n], limit);
      assert (a + b)[..|a + b| - 1] == a + b[..n];
    }
  }

  lemma TopsPush(candidates: seq<Candidate>, channels: seq<Search>, i: nat, limit: int)
    requires i < |channels|
    ensures Tops(candidates, channels[..i + 1], limit)
         == Tops(candidates, channels[..i], limit) + Top(candidates, channels[i], limit)
  {
    assert channels[..i + 1][..i] == channels[..i];
  }

  method AddEach(selected: seq<Candidate>, selectedKeys: set<string>, candidates: seq<Candidate>, limit: int)
    returns (more: seq<Candidate>, moreKeys: set<string>)
    requires selectedKeys == Keys(selected)
    ensures more == AddAll(selected, candidates, limit) && moreKeys == Keys(more)
  {
    more, moreKeys := selected, selectedKeys;
    for j := 0 to |candidates|
      invariant more == AddAll(selected, candidates[..j], limit) && moreKeys == Keys(more)
    {
      assert candidates[..j + 1][..j] == candidates[..j];
      var c := candidates[j];
      if c.key !in moreKeys && |more| < limit {
        KeysPush(more, c);
        more, moreKeys := more + [c], moreKeys + {c.key};
      }
    }
    assert candidates[..|candidates|] == candidates;
  }

  method SelectSearchCandidates(candidates: seq<Candidate>, limit: int) returns (selected: seq<Candidate>)
    ensures selected == Selected(candidates, limit)
    ensures DistinctKeys(selected) && forall c :: c in selected ==> c in candidates
    ensures |selected| == Max(0, Min(limit, |Keys(candidates)|))
  {
    var selectedKeys: set<string>;
    selected, selectedKeys := [], {};
    for i := 0 to |CHANNELS|
      invariant selected == AddAll([], Tops(candidates, CHANNELS[..i], limit), limit)
      invariant selectedKeys == Keys(selected)
    {
      var top := Top(candidates, CHANNELS[i], limit);
      TopsPush(candidates, CHANNELS, i, limit);
      AddAllConcat([], Tops(candidates, CHANNELS[..i], limit), top, limit);
      selected, selectedKeys := AddEach(selected, selectedKeys, top, limit);
    }
    assert CHANNELS[..|CHANNELS|] == CHANNELS;
    selected, selectedKeys := AddEach(selected, selectedKeys, candidates, limit);
    SelectedIsExact(candidates, limit);
  }

  // ----- the shares -----

  /** The share of a channel: one part in `parts` of the limit, rounded down, but at least the minimum. */
  predicate IsShare(share: nat, limit: int, parts: nat, minimum: nat)
  {
    share >= minimum && (share > minimum ==> share * parts <= limit) && limit < (share + 1) * parts
  }

  lemma QuotaIsShare(limit: int)
    ensures IsShare(Quota(SemanticQuery, limit), limit, 3, 2)
    ensures IsShare(Quota(ErrorPattern, limit), limit, 10, 1)
    ensures IsShare(Quota(TitleKeywords, limit), limit, 6, 1)
    ensures IsShare(Quota(PopularArea, limit), limit, 5, 1)
    ensures IsShare(Quota(AreaLabel, limit), limit, 6, 1)
  {
  }

  // ----- how many are selected -----

  lemma KeysOfFront(candidates: seq<Candidate>, n: nat)
    requires |candidates| == n + 1 && DistinctKeys(candidates)
    ensures DistinctKeys(candidates[..n])
    ensures |Keys(candidates)| == |Keys(candidates[..n])| + 1
  {
    LastKeyIsNew(candidates, n);
    KeysPush(candidates[..n], candidates[n]);
    assert candidates == candidates[..n] + [candidates[n]];
  }

  lemma {:induction false} KeysOfDistinct(candidates: seq<Candidate>)
    requires DistinctKeys(candidates)
    ensures |Keys(candidates)| == |candidates|
  {
    if candidates != [] {
      var n := |candidates| - 1;
      KeysOfFront(candidates, n);
      KeysOfDistinct(candidates[..n]);
    }
  }

  lemma LastKeyIsNew(candidates: seq<Candidate>, n: nat)
    requires |candidates| == n + 1 && DistinctKeys(candidates)
    ensures candidates[n].key !in Keys(candidates[..n])
  {
    forall c | c in candidates[..n] ensures c.key != candidates[n].key {
      var i :| 0 <= i < n && candidates[i] == c;
    }
  }

  lemma KeysPush(candidates: seq<Candidate>, c: Candidate)
    ensures Keys(candidates + [c]) == Keys(candidates) + {c.key}
  {
  }

  lemma AddIsExact(selected: seq<Candidate>, c: Candidate, limit: int)
    requires DistinctKeys(selected) && |selected| <= Max(0, limit)
    ensures var r := Add(selected, c, limit);
            && DistinctKeys(r) && |r| <= Max(0, limit) && Keys(selected) <= Keys(r)
            && (forall d :: d in r ==> d in selected || d == c)
            && |selected| <= |r|
            && (|r| < limit ==> Keys(r) == Keys(selected) + {c.key})
  {
    KeysPush(selected, c);
  }

  /** Adding keeps what is there, adds distinct keys only, and skips a key only when it is there or the list is full. */
  lemma {:induction false} AddAllIsExact(selected: seq<Candidate>, candidates: seq<Candidate>, limit: int)
    requires DistinctKeys(selected) && |selected| <= Max(0, limit)
    ensures var r := AddAll(selected, candidates, limit);
            && DistinctKeys(r) && |r| <= Max(0, limit) && Keys(selected) <= Keys(r)
            && (forall c :: c in r ==> c in selected || c in candidates)
            && (|r| < limit ==> Keys(r) == Keys(selected) + Keys(candidates))
  {
    if candidates == [] {
      assert Keys(candidates) == {};
    } else {
      var n := |candidates| - 1;
      AddAllIsExact(selected, candidates[..n], limit);
      assert candidates == candidates[..n] + [candidates[n]];
      KeysPush(candidates[..n], candidates[n]);
      AddIsExact(AddAll(selected, candidates[..n], limit), candidates[n], limit);
    }
  }

  lemma {:induction false} MatchingMembers(candidates: seq<Candidate>, search: Search)
    ensures forall c :: c in Matching(candidates, search) <==> c in candidates && search in c.searches
  {
    if candidates != [] {
      var n := |candidates| - 1;
      MatchingMembers(candidates[..n], search);
      assert candidates == candidates[..n] + [candidates[n]];
    }
  }

  lemma {:induction false} TopsAreCandidates(candidates: seq<Candidate>, channels: seq<Search>, limit: int)
    ensures forall c :: c in Tops(candidates, channels, limit) ==> c in candidates
  {
    if channels != [] {
      var n := |channels| - 1;
      TopsAreCandidates(candidates, channels[..n], limit);
      MatchingMembers(candidates, channels[n]);
    }
  }

  lemma SubsetSize(a: set<string>, b: set<string>)
    requires a <= b
    ensures |a| <= |b|
  {
    assert b == a + (b - a);
  }

  /** The selection has distinct keys, and as many as the limit and the candidates allow. */
  lemma SelectedIsExact(candidates: seq<Candidate>, limit: int)
    ensures var r := Selected(candidates, limit);
            && DistinctKeys(r) && (forall c :: c in r ==> c in candidates)
            && |r| == Max(0, Min(limit, |Keys(candidates)|))
  {
    var tops := Tops(candidates, CHANNELS, limit);
    var reserved := AddAll([], tops, limit);
    var r := Selected(candidates, limit);
    TopsAreCandidates(candidates, CHANNELS, limit);
    AddAllIsExact([], tops, limit);
    AddAllIsExact(reserved, candidates, limit);
    KeysOfDistinct(r);
    SubsetSize(Keys(r), Keys(candidates));
    if |r| < limit {
      assert Keys(reserved) + Keys(candidates) == Keys(candidates);
    }
  }

  // ----- the reserved capacity -----

  /** Every candidate a channel reserved capacity for is selected, at least under its key. */
  ghost predicate TopsAreSelected(candidates: seq<Candidate>, limit: int)
  {
    forall search, c :: c in Top(candidates, search, limit) ==> c.key in Keys(Selected(candidates, limit))
  }

  lemma {:induction false} TopInTops(candidates: seq<Candidate>, channels: seq<Search>, limit: int, c: Candidate)
    ensures c in Tops(candidates, channels, limit)
       <==> exists search :: search in channels && c in Top(candidates, search, limit)
  {
    if channels != [] {
      var n := |channels| - 1;
      TopInTops(candidates, channels[..n], limit, c);
      assert channels == channels[..n] + [channels[n]];
    }
  }

  function Quotas(channels: seq<Search>, limit: int): nat
  {
    if channels == [] then 0 else Quotas(channels[..|channels| - 1], limit) + Quota(channels[|channels| - 1], limit)
  }

  lemma {:induction false} TopsSize(candidates: seq<Candidate>, channels: seq<Search>, limit: int)
    ensures |Tops(candidates, channels, limit)| <= Quotas(channels, limit)
  {
    if channels != [] {
      TopsSize(candidates, channels[..|channels| - 1], limit);
    }
  }

  lemma QuotasPush(channels: seq<Search>, search: Search, limit: int)
    ensures Quotas(channels + [search], limit) == Quotas(channels, limit) + Quota(search, limit)
  {
    assert (channels + [search])[..|channels|] == channels;
  }

  lemma QuotasSum(limit: int)
    ensures Quotas(CHANNELS, limit)
         == Quota(SemanticQuery, limit) + Quota(ErrorPattern, limit) + Quota(TitleKeywords, limit)
            + Quota(PopularArea, limit) + Quota(AreaLabel, limit)
  {
    QuotasPush([], SemanticQuery, limit);
    QuotasPush([] + [SemanticQuery], ErrorPattern, limit);
    QuotasPush([] + [SemanticQuery] + [ErrorPattern], TitleKeywords, limit);
    QuotasPush([] + [SemanticQuery] + [ErrorPattern] + [TitleKeywords], PopularArea, limit);
    QuotasPush([] + [SemanticQuery] + [ErrorPattern] + [TitleKeywords] + [PopularArea], AreaLabel, limit);
    assert CHANNELS == [] + [SemanticQuery] + [ErrorPattern] + [TitleKeywords] + [PopularArea] + [AreaLabel];
  }

  /** A list no longer than the free capacity is taken up in full. */
  lemma {:induction false} AddAllFits(selected: seq<Candidate>, candidates: seq<Candidate>, limit: int)
    requires |selected| + |candidates| <= limit
    ensures |AddAll(selected, candidates, limit)| <= |selected| + |candidates|
    ensures Keys(candidates) <= Keys(AddAll(selected, candidates, limit))
  {
    if candidates != [] {
      var n := |candidates| - 1;
      AddAllFits(selected, candidates[..n], limit);
      assert candidates == candidates[..n] + [candidates[n]];
      KeysPush(candidates[..n], candidates[n]);
      KeysPush(AddAll(selected, candidates[..n], limit), candidates[n]);
    }
  }

  lemma ReservedAreSelected(candidates: seq<Candidate>, limit: int, search: Search, c: Candidate)
    requires limit >= 6 && c in Top(candidates, search, limit)
    ensures c.key in Keys(Selected(candidates, limit))
  {
    var tops := Tops(candidates, CHANNELS, limit);
    TopsSize(candidates, CHANNELS, limit);
    QuotasSum(limit);
    AddAllFits([], tops, limit);
    AddAllIsExact([], tops, limit);
    AddAllIsExact(AddAll([], tops, limit), candidates, limit);
    assert search == CHANNELS[0] || search == CHANNELS[1] || search == CHANNELS[2] || search == CHANNELS[3]
        || search == CHANNELS[4];
    TopInTops(candidates, CHANNELS, limit, c);
    assert c.key in Keys(tops);
  }

  function Found(key: string, search: Search): Candidate
  {
    Candidate(key, IssueKind, Open, false, {search})
  }

  /** Six candidates; each channel reserves capacity for the ones it found. */
  const SIX := [
    Found("a", SemanticQuery), Found("b", SemanticQuery), Found("c", ErrorPattern), Found("d", TitleKeywords),
    Found("e", PopularArea), Found("f", AreaLabel)
  ]

  const SIX_SEARCHES := [SemanticQuery, SemanticQuery, ErrorPattern, TitleKeywords, PopularArea, AreaLabel]

  function CountOf(searches: seq<Search>, search: Search): nat
  {
    multiset(searches)[search]
  }

  lemma {:induction false} MatchingCounts(candidates: seq<Candidate>, searches: seq<Search>, search: Search)
    requires |candidates| == |searches|
    requires forall i :: 0 <= i < |candidates| ==> candidates[i].searches == {searches[i]}
    ensures |Matching(candidates, search)| == CountOf(searches, search)
  {
    if candidates != [] {
      var n := |candidates| - 1;
      assert searches == searches[..n] + [searches[n]];
      MatchingCounts(candidates[..n], searches[..n], search);
    }
  }

  predicate OnePerSlot(candidates: seq<Candidate>, searches: seq<Search>)
  {
    && |candidates| == |searches|
    && (forall i :: 0 <= i < |candidates| ==> candidates[i].searches == {searches[i]})
    && multiset(searches)
       == multiset{SemanticQuery, SemanticQuery, ErrorPattern, TitleKeywords, PopularArea, AreaLabel}
  }

  lemma FewAreReserved(candidates: seq<Candidate>, searches: seq<Search>, limit: int, c: Candidate, search: Search)
    requires OnePerSlot(candidates, searches) && c in candidates && search in c.searches
    ensures c in Top(candidates, search, limit)
  {
    MatchingCounts(candidates, searches, search);
    MatchingMembers(candidates, search);
  }

  lemma SlotsDoNotFit(candidates: seq<Candidate>, searches: seq<Search>, limit: int)
    requires limit < 6 && OnePerSlot(candidates, searches) && DistinctKeys(candidates)
    ensures !TopsAreSelected(candidates, limit)
  {
    assert |candidates| == |multiset(searches)| == 6;
    KeysOfDistinct(candidates);
    SelectedIsExact(candidates, limit);
    KeysOfDistinct(Selected(candidates, limit));
    if TopsAreSelected(candidates, limit) {
      forall c | c in candidates ensures c.key in Keys(Selected(candidates, limit)) {
        var search :| search in c.searches;
        FewAreReserved(candidates, searches, limit, c, search);
      }
      SubsetSize(Keys(candidates), Keys(Selected(candidates, limit)));
      assert false;
    }
  }

  lemma SixAreOnePerSlot()
    ensures OnePerSlot(SIX, SIX_SEARCHES) && DistinctKeys(SIX)
  {
    SixKeys();
    SixSearches();
  }

  lemma SixSearches()
    ensures multiset(SIX_SEARCHES)
         == multiset{SemanticQuery, SemanticQuery, ErrorPattern, TitleKeywords, PopularArea, AreaLabel}
  {
  }

  lemma SixKeys()
    ensures DistinctKeys(SIX)
  {
    assert forall i :: 0 <= i < 6 ==> |SIX[i].key| == 1 && SIX[i].key[0] == "abcdef"[i];
  }

  /** At a limit of five, one of six candidates is left out although each is within its channel's capacity. */
  lemma SixDoNotFitInFive()
    ensures !TopsAreSelected(SIX, 5)
  {
    SixAreOnePerSlot();
    SlotsDoNotFit(SIX, SIX_SEARCHES, 5);
  }

  /** The reserved capacities fit together exactly from a limit of six on. */
  lemma QuotasFitExactly(limit: int)
    ensures (forall candidates :: TopsAreSelected(candidates, limit)) <==> limit >= 6
  {
    if limit < 6 {
      SixAreOnePerSlot();
      SlotsDoNotFit(SIX, SIX_SEARCHES, limit);
    } else {
      forall candidates: seq<Candidate>, search, c | c in Top(candidates, search, limit)
        ensures c.key in Keys(Selected(candidates, limit))
      {
        ReservedAreSelected(candidates, limit, search, c);
      }
    }
  }

  // ----- the candidates of one analysis -----

  predicate OfKind(c: Candidate, kind: Kind, state: State, magnetKeys: set<string>)
  {
    c.kind == kind && c.state == state && c.key !in magnetKeys
  }

  function Magnets(candidates: seq<Candidate>): seq<Candidate>
  {
    Filter(candidates, (c: Candidate) => c.isMagnet)
  }

  function Issues(candidates: seq<Candidate>, state: State): seq<Candidate>
  {
    var magnetKeys := Keys(Magnets(candidates));
    Filter(candidates, (c: Candidate) => OfKind(c, IssueKind, state, magnetKeys))
  }

  function Discussions(candidates: seq<Candidate>): seq<Candidate>
  {
    Filter(candidates, (c: Candidate) => OfKind(c, DiscussionKind, Open, {}))
  }

  function Shown(candidates: seq<Candidate>): seq<Candidate>
  {
    Take(Magnets(candidates), 10) + Selected(Issues(candidates, Open), 30)
    + Selected(Issues(candidates, Closed), 10) + Take(Discussions(candidates), 10)
  }

  /** No known magnet has the key. */
  predicate IsNoMagnet(c: Candidate, candidates: seq<Candidate>)
  {
    forall m :: m in candidates && m.isMagnet ==> m.key != c.key
  }

  lemma IssuesAre(candidates: seq<Candidate>, state: State, c: Candidate)
    requires c in Issues(candidates, state)
    ensures c.kind == IssueKind && c.state == state && IsNoMagnet(c, candidates)
  {
    forall m | m in candidates && m.isMagnet ensures m.key != c.key {
      assert m in Magnets(candidates);
    }
  }

  predicate MayBeShown(c: Candidate, candidates: seq<Candidate>)
  {
    || c.isMagnet
    || (c.kind == IssueKind && (c.state == Open || c.state == Closed) && IsNoMagnet(c, candidates))
    || (c.kind == DiscussionKind && c.state == Open)
  }

  /** What is shown are magnets, other issues that are open or closed, and open discussions. */
  lemma ShownKinds(candidates: seq<Candidate>)
    ensures forall c :: c in Shown(candidates) ==> MayBeShown(c, candidates)
  {
    var open, closed := Issues(candidates, Open), Issues(candidates, Closed);
    SelectedKeys(open, 30);
    SelectedKeys(closed, 10);
    TakeMembers(Magnets(candidates), 10);
    TakeMembers(Discussions(candidates), 10);
    forall c | c in open || c in closed ensures MayBeShown(c, candidates) {
      if c in open {
        IssuesAre(candidates, Open, c);
      } else {
        IssuesAre(candidates, Closed, c);
      }
    }
  }

  /** And as many of each as there are, up to ten, thirty, ten and ten. */
  lemma ShownAre(candidates: seq<Candidate>)
    ensures forall c :: c in Shown(candidates) ==> MayBeShown(c, candidates)
    ensures |Shown(candidates)|
         == Min(10, |Magnets(candidates)|) + Min(30, |Keys(Issues(candidates, Open))|)
            + Min(10, |Keys(Issues(candidates, Closed))|) + Min(10, |Discussions(candidates)|)
  {
    ShownKinds(candidates);
    SelectedIsExact(Issues(candidates, Open), 30);
    SelectedIsExact(Issues(candidates, Closed), 10);
  }

  lemma TakeMembers(candidates: seq<Candidate>, n: nat)
    ensures forall c :: c in Take(candidates, n) ==> c in candidates
  {
  }

  /** Only an issue that is a magnet and was found by a search as well is there twice under its key. */
  predicate KeysIdentify(candidates: seq<Candidate>)
  {
    && (forall c :: c in candidates && c.isMagnet ==> c.kind == IssueKind)
    && forall i, j :: 0 <= i < j < |candidates| && candidates[i].key == candidates[j].key ==>
         candidates[i].isMagnet != candidates[j].isMagnet && candidates[i].kind == candidates[j].kind == IssueKind
  }

  lemma DistinctConcat(a: seq<Candidate>, b: seq<Candidate>)
    requires DistinctKeys(a) && DistinctKeys(b) && Keys(a) !! Keys(b)
    ensures DistinctKeys(a + b)
  {
    forall i, j | 0 <= i < |a| && 0 <= j < |b| ensures a[i].key != b[j].key {
      assert a[i].key in Keys(a) && b[j].key in Keys(b);
    }
  }

  lemma SameKeyIsMagnet(candidates: seq<Candidate>, a: Candidate, b: Candidate)
    requires KeysIdentify(candidates) && a in candidates && b in candidates && a.key == b.key
    ensures a == b || (a.isMagnet != b.isMagnet && a.kind == b.kind == IssueKind)
  {
  }

  lemma OpenAndClosedAreApart(candidates: seq<Candidate>)
    requires KeysIdentify(candidates)
    ensures Keys(Issues(candidates, Open)) !! Keys(Issues(candidates, Closed))
  {
    forall a, b | a in Issues(candidates, Open) && b in Issues(candidates, Closed) ensures a.key != b.key {
      MagnetsAreElsewhere(candidates, a, Open);
      MagnetsAreElsewhere(candidates, b, Closed);
      if a.key == b.key {
        SameKeyIsMagnet(candidates, a, b);
        assert false;
      }
    }
  }

  lemma DiscussionsAreApart(candidates: seq<Candidate>)
    requires KeysIdentify(candidates)
    ensures Keys(Discussions(candidates))
         !! Keys(Magnets(candidates)) + Keys(Issues(candidates, Open)) + Keys(Issues(candidates, Closed))
  {
    var others := Magnets(candidates) + Issues(candidates, Open) + Issues(candidates, Closed);
    forall a, b | a in Discussions(candidates) && b in others ensures a.key != b.key {
      if a.key == b.key {
        SameKeyIsMagnet(candidates, a, b);
        assert false;
      }
    }
  }

  /** Every key the proposer is shown stands for one candidate. */
  lemma ShownKeysAreDistinct(candidates: seq<Candidate>)
    requires KeysIdentify(candidates)
    ensures DistinctKeys(Shown(candidates))
    ensures forall c :: c in Shown(candidates) ==> c in candidates
  {
    var magnets, open := Magnets(candidates), Issues(candidates, Open);
    var closed, discussions := Issues(candidates, Closed), Discussions(candidates);
    FilterIsDistinct(candidates, (c: Candidate) => c.isMagnet, Key);
    FilterIsDistinct(candidates, (c: Candidate) => OfKind(c, DiscussionKind, Open, {}), Key);
    SelectedKeys(open, 30);
    SelectedKeys(closed, 10);
    OpenAndClosedAreApart(candidates);
    DiscussionsAreApart(candidates);
    FourAreApart(Take(magnets, 10), Selected(open, 30), Selected(closed, 10), Take(discussions, 10));
  }

  lemma SelectedKeys(candidates: seq<Candidate>, limit: int)
    ensures var r := Selected(candidates, limit);
            DistinctKeys(r) && Keys(r) <= Keys(candidates) && forall c :: c in r ==> c in candidates
  {
    SelectedIsExact(candidates, limit);
  }

  lemma FourAreApart(a: seq<Candidate>, b: seq<Candidate>, c: seq<Candidate>, d: seq<Candidate>)
    requires DistinctKeys(a) && DistinctKeys(b) && DistinctKeys(c) && DistinctKeys(d)
    requires Keys(a) !! Keys(b) && Keys(a) + Keys(b) !! Keys(c) && Keys(a) + Keys(b) + Keys(c) !! Keys(d)
    ensures DistinctKeys(a + b + c + d)
  {
    DistinctConcat(a, b);
    DistinctConcat(a + b, c);
    DistinctConcat(a + b + c, d);
  }

  lemma MagnetsAreElsewhere(candidates: seq<Candidate>, c: Candidate, state: State)
    requires c in Issues(candidates, state)
    ensures !c.isMagnet
  {
  }
}
