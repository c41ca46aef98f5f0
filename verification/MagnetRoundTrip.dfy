/**
  The printed index of frequently re-reported issues, read back: which issues are found again, and
  with which counts and areas.
*/
module MagnetRoundTrip {
  import opened Sequences
  import opened Decimals
  import opened Wrappers
  import opened Text
  import opened PythonText
  import opened Sorting
  import opened DuplicateIndex
  import opened MagnetParser

  function InfoNumber(info: Info): int
  {
    info.number
  }

  function Printed(infos: seq<Info>): string
  {
    Join(IndexLines(infos), "\n")
  }

  /** GitHub's numbers and addresses identify issues, and its label names hold no line break. */
  ghost predicate FromGitHub(infos: seq<Info>)
  {
    Distinct(infos, InfoNumber) && forall info :: info in infos ==> Printable(info)
  }

  predicate HasVisibleArea(info: Info)
  {
    exists a :: a in info.areas && Strip(a) != ""
  }

  function VisibleAreas(areas: seq<string>): set<string>
  {
    set a | a in areas && Strip(a) != "" && Strip(a) != UNLABELED :: Strip(a)
  }

  /** The magnet carries the number, the count and the areas of the issue. */
  predicate Matches(m: Magnet, info: Info)
  {
    && m.number == info.number && m.count == info.count
    && (set a | a in m.areas) == VisibleAreas(info.areas)
  }

  function HitsIn(infos: seq<Info>): seq<Hit>
  {
    Read(Tokens(IndexLines(infos), Classify)).hits
  }

  predicate IsParsed(infos: seq<Info>, number: int)
  {
    exists m :: m in Parsed(Printed(infos)) && m.number == number
  }

  lemma SameNumberSameInfo(infos: seq<Info>, a: Info, b: Info)
    requires Distinct(infos, InfoNumber) && a in infos && b in infos && a.number == b.number
    ensures a == b
  {
  }

  lemma HitsOfNumber(infos: seq<Info>, info: Info, h: Hit)
    requires FromGitHub(infos) && info in infos
    ensures h in HitsIn(infos) && h.number == info.number
       <==> exists a :: IsPrinted(h, infos, info, a)
  {
    IndexEntries(infos, h);
    if h in HitsIn(infos) && h.number == info.number {
      var other, a :| IsPrinted(h, infos, other, a);
      SameNumberSameInfo(infos, other, info);
      assert IsPrinted(h, infos, info, a);
    }
  }

  lemma AreasThatAreRead(infos: seq<Info>, info: Info, area: string)
    requires FromGitHub(infos) && info in infos
    ensures IsHit(HitsIn(infos), info.number, area)
       <==> exists a :: a in info.areas && Strip(a) == area && area != ""
  {
    var hits := HitsIn(infos);
    if IsHit(hits, info.number, area) {
      var h :| h in hits && h.number == info.number && h.area == area;
      HitsOfNumber(infos, info, h);
      var a :| IsPrinted(h, infos, info, a);
      assert a in info.areas && Strip(a) == area;
    }
    if a :| a in info.areas && Strip(a) == area && area != "" {
      var h := Hit(area, info.count, info.number);
      assert IsPrinted(h, infos, info, a);
      HitsOfNumber(infos, info, h);
    }
  }

  /** What the reader's dictionary holds for an issue that was printed. */
  lemma PrintedInfoIsFound(infos: seq<Info>, info: Info)
    requires FromGitHub(infos) && info in infos
    ensures var found := Lookup(Magnets(HitsIn(infos)), info.number);
            && (found.Some? <==> HasVisibleArea(info))
            && (found.Some? ==> Matches(found.value, info))
  {
    var hits := HitsIn(infos);
    var found := Lookup(Magnets(hits), info.number);
    MagnetsAgree(hits, info.number);
    if a :| a in info.areas && Strip(a) != "" {
      AreasThatAreRead(infos, info, Strip(a));
    }
    if found.Some? {
      var h :| h in hits && h.number == info.number && h.count == found.value.count;
      HitsOfNumber(infos, info, h);
      forall a ensures a in found.value.areas <==> a in VisibleAreas(info.areas) {
        AreasThatAreRead(infos, info, a);
      }
    }
  }

  /**
    Reading the printed index back gives each issue at most once, with its number, its count and its
    set of areas, in descending order of the counts. An issue is missing exactly when all of its
    area names are blank.
  */
  lemma RoundTrip(infos: seq<Info>)
    requires FromGitHub(infos)
    ensures Distinct(Parsed(Printed(infos)), Number)
    ensures IsDescending(Parsed(Printed(infos)), DupeCount)
    ensures forall info :: info in infos ==> (IsParsed(infos, info.number) <==> HasVisibleArea(info))
    ensures forall m :: m in Parsed(Printed(infos)) ==> exists info :: info in infos && Matches(m, info)
  {
    var hits := HitsIn(infos);
    var magnets := Magnets(hits);
    var parsed := Parsed(Printed(infos));
    IndexSplits(infos);
    MagnetsAgree(hits, 0);
    SortIsPermutation(magnets, DupeCount);
    SortKeepsDistinct(magnets, DupeCount, Number);
    forall m ensures m in parsed <==> m in magnets {
      SortMembers(magnets, DupeCount, m);
    }
    forall info | info in infos ensures IsParsed(infos, info.number) <==> HasVisibleArea(info) {
      PrintedInfoIsFound(infos, info);
      LookupIsMember(magnets, info.number);
    }
    forall m | m in parsed ensures exists info :: info in infos && Matches(m, info) {
      MagnetsAgree(hits, m.number);
      LookupIsMember(magnets, m.number);
      var h :| h in hits && h.number == m.number;
      IndexEntries(infos, h);
      var info, a :| IsPrinted(h, infos, info, a);
      PrintedInfoIsFound(infos, info);
    }
  }

  /** An issue whose only area is blank is printed and not found again. */
  lemma BlankAreaIsLost()
    ensures FromGitHub([BLANK]) && !IsParsed([BLANK], BLANK.number)
  {
    assert BLANK.areas == [""];
    RoundTrip([BLANK]);
    assert BLANK in [BLANK];
  }

  const BLANK := Info(1, Url(1), [""], 2)

  /** With trimmed area names, at least one an issue, nothing is lost but the name for no area at all. */
  lemma TrimmedRoundTrip(infos: seq<Info>, info: Info)
    requires FromGitHub(infos) && info in infos
    requires info.areas != [] && forall a :: a in info.areas ==> a != "" && Strip(a) == a
    ensures exists m :: m in Parsed(Printed(infos)) && m.number == info.number && m.count == info.count
                     && forall a :: a in m.areas <==> a in info.areas && a != UNLABELED
  {
    RoundTrip(infos);
    assert info.areas[0] in info.areas && HasVisibleArea(info);
    var m :| m in Parsed(Printed(infos)) && m.number == info.number;
    var other :| other in infos && Matches(m, other);
    SameNumberSameInfo(infos, info, other);
    forall a ensures a in m.areas <==> a in info.areas && a != UNLABELED {
      assert a in (set b | b in m.areas) <==> a in VisibleAreas(info.areas);
    }
  }

  // ----- from the issues on GitHub to the magnets -----

  function AllExtracted(issues: seq<Issue>): seq<Info>
  {
    if issues == [] then []
    else
      var n := |issues| - 1;
      AllExtracted(issues[..n]) + if Extracted(issues[n]).Some? then [Extracted(issues[n]).value] else []
  }

  function IssueNumber(issue: Issue): int
  {
    issue.number
  }

  lemma {:induction false} ExtractedMembers(issues: seq<Issue>, info: Info)
    ensures info in AllExtracted(issues) <==> exists issue :: issue in issues && Extracted(issue) == Some(info)
  {
    if issues != [] {
      var n := |issues| - 1;
      ExtractedMembers(issues[..n], info);
      assert issues == issues[..n] + [issues[n]];
    }
  }

  lemma {:induction false} ExtractedAreDistinct(issues: seq<Issue>)
    requires Distinct(issues, IssueNumber)
    ensures Distinct(AllExtracted(issues), InfoNumber)
  {
    if issues != [] {
      var n := |issues| - 1;
      ExtractedAreDistinct(issues[..n]);
      if Extracted(issues[n]).Some? {
        forall info | info in AllExtracted(issues[..n]) ensures InfoNumber(info) != IssueNumber(issues[n]) {
          ExtractedMembers(issues[..n], info);
          var i :| 0 <= i < n && Extracted(issues[i]) == Some(info);
          assert IssueNumber(issues[i]) != IssueNumber(issues[n]);
        }
      }
    }
  }

  lemma {:induction false} RemoveAllAddsNothing(s: string, sub: string)
    requires sub != ""
    ensures forall c :: c in RemoveAll(s, sub) ==> c in s
    decreases |s|
  {
    if sub <= s {
      RemoveAllAddsNothing(s[|sub|..], sub);
    } else if s != "" {
      RemoveAllAddsNothing(s[1..], sub);
    }
  }

  lemma AreasHaveNoBreak(labels: seq<string>)
    requires forall l :: l in labels ==> '\n' !in l
    ensures forall a :: a in AreasOf(labels) ==> '\n' !in a
  {
    forall a | a in AreaNames(labels) ensures '\n' !in a {
      var l :| l in labels && IsAreaLabel(l) && a == RemoveAll(l, "area:");
      RemoveAllAddsNothing(l, "area:");
    }
    assert '\n' !in UNLABELED;
  }

  /**
    The two scripts together: an open issue becomes a known magnet exactly when at least two distinct
    closed issues are marked as its duplicates and one of its area names is not blank (an issue
    without area labels counts as having one), and then with the number of those duplicates.
  */
  lemma IssueBecomesMagnet(issues: seq<Issue>, issue: Issue)
    requires Distinct(issues, IssueNumber) && issue in issues
    requires forall i :: i in issues ==> i.url == Url(i.number) && forall l :: l in i.labels ==> '\n' !in l
    ensures IsParsed(AllExtracted(issues), issue.number)
       <==> |ClosedDuplicates(issue.events)| >= 2 && exists a :: a in AreasOf(issue.labels) && Strip(a) != ""
    ensures forall m :: m in Parsed(Printed(AllExtracted(issues))) && m.number == issue.number ==>
              && m.count == |ClosedDuplicates(issue.events)|
              && (set a | a in m.areas) == VisibleAreas(AreasOf(issue.labels))
  {
    var infos := AllExtracted(issues);
    ExtractedAreDistinct(issues);
    forall info | info in infos ensures Printable(info) {
      ExtractedMembers(issues, info);
      var i :| i in issues && Extracted(i) == Some(info);
      AreasHaveNoBreak(i.labels);
    }
    RoundTrip(infos);
    forall info | info in infos && info.number == issue.number ensures Extracted(issue) == Some(info) {
      ExtractedMembers(issues, info);
      var i :| i in issues && Extracted(i) == Some(info);
      SameNumberSameIssue(issues, i, issue);
    }
    if Extracted(issue).Some? {
      ExtractedMembers(issues, Extracted(issue).value);
    }
  }

  lemma SameNumberSameIssue(issues: seq<Issue>, a: Issue, b: Issue)
    requires Distinct(issues, IssueNumber) && a in issues && b in issues && a.number == b.number
    ensures a == b
  {
  }
}
