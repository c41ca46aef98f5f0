/**
  The printer of the index of frequently re-reported issues: which open issues have enough closed
  duplicates, and the Markdown list that groups them by area.
*/
module DuplicateIndex {
  import opened Sequences
  import opened Decimals
  import opened Wrappers
  import opened Text
  import opened PythonText
  import opened Sorting

  const HOST := "github.com"
  const OWNER := "zed-industries"
  const REPO := "zed"
  const RESOURCE := "/issues/"
  const UNLABELED := "(unlabeled)"
  const INTRODUCTION :=
    "These are the issues that " + "are frequently re-reported. " +
    "The list is generated regularly " + "by running a script."

  function RepositoryUrl(host: string, owner: string, repo: string): string
  {
    "https:" + "/" + "/" + host + "/" + owner + "/" + repo
  }

  /** The address GitHub gives an issue of this repository. */
  function Url(number: nat): string
  {
    RepositoryUrl(HOST, OWNER, REPO) + RESOURCE + Decimal(number)
  }

  // ----- selecting the issues -----

  datatype Duplicate = Duplicate(number: nat, state: string)

  /** An open issue. An event whose duplicate is not an issue, or is gone, carries None. */
  datatype Issue = Issue(number: nat, url: string, labels: seq<string>, events: seq<Option<Duplicate>>)

  datatype Info = Info(number: nat, url: string, areas: seq<string>, count: nat)

  predicate IsClosed(event: Option<Duplicate>)
  {
    event.Some? && event.value.state == "CLOSED"
  }

  function ClosedDuplicates(events: seq<Option<Duplicate>>): set<nat>
  {
    set e | e in events && IsClosed(e) :: e.value.number
  }

  predicate IsAreaLabel(name: string)
  {
    "area:" <= name
  }

  function AreaNames(labels: seq<string>): (areas: seq<string>)
    ensures forall a :: a in areas <==> exists l :: l in labels && IsAreaLabel(l) && a == RemoveAll(l, "area:")
  {
    if labels == [] then []
    else
      var n := |labels| - 1;
      assert labels == labels[..n] + [labels[n]];
      AreaNames(labels[..n]) + if IsAreaLabel(labels[n]) then [RemoveAll(labels[n], "area:")] else []
  }

  /** The area of a label is what follows `area:`, provided that does not hold `area:` again. */
  lemma AreaOfLabel(area: string)
    requires forall i :: 0 <= i <= |area| ==> !("area:" <= area[i..])
    ensures IsAreaLabel("area:" + area) && RemoveAll("area:" + area, "area:") == area
  {
    assert ("area:" + area)[5..] == area;
    NothingToRemove(area, "area:");
  }

  function AreasOf(labels: seq<string>): (areas: seq<string>)
    ensures areas != []
  {
    if AreaNames(labels) == [] then [UNLABELED] else AreaNames(labels)
  }

  function Extracted(issue: Issue): Option<Info>
  {
    var count := |ClosedDuplicates(issue.events)|;
    if count < 2 then None else Some(Info(issue.number, issue.url, AreasOf(issue.labels), count))
  }

  method ExtractDuplicateInfo(issue: Issue) returns (info: Option<Info>)
    ensures info.None? <==> |ClosedDuplicates(issue.events)| < 2
    ensures info.Some? ==> info.value.count == |ClosedDuplicates(issue.events)|
    ensures info.Some? ==> info.value.number == issue.number && info.value.url == issue.url
    ensures info.Some? ==> info.value.areas == AreasOf(issue.labels)
    ensures info == Extracted(issue)
  {
    var seen := {};
    for i := 0 to |issue.events|
      invariant seen == ClosedDuplicates(issue.events[..i])
    {
      var event := issue.events[i];
      assert issue.events[..i + 1] == issue.events[..i] + [event];
      if IsClosed(event) {
        seen := seen + {event.value.number};
      }
    }
    assert issue.events[..|issue.events|] == issue.events;
    if |seen| < 2 {
      return None;
    }
    return Some(Info(issue.number, issue.url, AreasOf(issue.labels), |seen|));
  }

  // ----- grouping by area -----

  /** One line of the index to be: an issue under one of its areas. */
  datatype Listing = Listing(area: string, info: Info)

  datatype AreaTotal = AreaTotal(area: string, total: nat)

  function ListingsOf(info: Info, areas: seq<string>): seq<Listing>
  {
    if areas == [] then []
    else ListingsOf(info, areas[..|areas| - 1]) + [Listing(areas[|areas| - 1], info)]
  }

  function Listings(infos: seq<Info>): seq<Listing>
  {
    if infos == [] then []
    else
      var last := infos[|infos| - 1];
      Listings(infos[..|infos| - 1]) + ListingsOf(last, last.areas)
  }

  function InfosOf(listings: seq<Listing>, area: string): seq<Info>
  {
    if listings == [] then []
    else
      var last := listings[|listings| - 1];
      InfosOf(listings[..|listings| - 1], area) + if last.area == area then [last.info] else []
  }

  /** Adding to one entry of a counter, which keeps its keys in the order of their first use. */
  function AddTotal(totals: seq<AreaTotal>, area: string, count: nat): seq<AreaTotal>
  {
    if totals == [] then [AreaTotal(area, count)]
    else if totals[0].area == area then [AreaTotal(area, totals[0].total + count)] + totals[1..]
    else [totals[0]] + AddTotal(totals[1..], area, count)
  }

  function Totals(listings: seq<Listing>): seq<AreaTotal>
  {
    if listings == [] then []
    else
      var last := listings[|listings| - 1];
      AddTotal(Totals(listings[..|listings| - 1]), last.area, last.info.count)
  }

  function Count(info: Info): int
  {
    info.count
  }

  function Total(t: AreaTotal): int
  {
    t.total
  }

  // ----- printing -----

  /** Python's `:2d` */
  function Pad2(n: nat): string
  {
    if n < 10 then " " + Decimal(n) else Decimal(n)
  }

  const BULLET := "-   "
  const DUPES := " dupes] "

  function EntryLine(info: Info): string
  {
    BULLET + ['['] + Pad2(info.count) + DUPES + info.url
  }

  function EntryLines(infos: seq<Info>): seq<string>
  {
    if infos == [] then [] else EntryLines(infos[..|infos| - 1]) + [EntryLine(infos[|infos| - 1])]
  }

  function HeaderLine(area: string): string
  {
    "## " + area
  }

  function HeadingLines(area: string): seq<string>
  {
    ["", HeaderLine(area), ""]
  }

  function SectionLines(area: string, infos: seq<Info>): seq<string>
  {
    HeadingLines(area) + EntryLines(infos)
  }

  /** The introduction and one section for each of the areas. */
  function LinesFor(totals: seq<AreaTotal>, listings: seq<Listing>): seq<string>
  {
    if totals == [] then [INTRODUCTION]
    else
      var area := totals[|totals| - 1].area;
      LinesFor(totals[..|totals| - 1], listings)
      + SectionLines(area, SortDescending(InfosOf(listings, area), Count))
  }

  function IndexLines(infos: seq<Info>): seq<string>
  {
    LinesFor(SortDescending(Totals(Listings(infos)), Total), Listings(infos))
  }

  function AreasListed(totals: seq<AreaTotal>): set<string>
  {
    set t | t in totals :: t.area
  }

  predicate GroupedBy(byArea: map<string, seq<Info>>, listings: seq<Listing>)
  {
    && byArea.Keys == AreasListed(Totals(listings))
    && forall a :: a in byArea ==> byArea[a] == InfosOf(listings, a)
  }

  lemma {:induction false} AddTotalAreas(totals: seq<AreaTotal>, area: string, count: nat)
    ensures AreasListed(AddTotal(totals, area, count)) == AreasListed(totals) + {area}
  {
    if totals != [] {
      assert totals == [totals[0]] + totals[1..];
      if totals[0].area != area {
        AddTotalAreas(totals[1..], area, count);
        assert AreasListed(totals) == {totals[0].area} + AreasListed(totals[1..]);
        assert AreasListed(AddTotal(totals, area, count))
            == {totals[0].area} + AreasListed(AddTotal(totals[1..], area, count));
      } else {
        assert AreasListed(totals) == {area} + AreasListed(totals[1..]);
        assert AreasListed(AddTotal(totals, area, count)) == {area} + AreasListed(totals[1..]);
      }
    }
  }

  lemma {:induction false} UnlistedAreaIsEmpty(listings: seq<Listing>, area: string)
    ensures area in AreasListed(Totals(listings)) <==> InfosOf(listings, area) != []
  {
    if listings != [] {
      var n := |listings| - 1;
      UnlistedAreaIsEmpty(listings[..n], area);
      AddTotalAreas(Totals(listings[..n]), listings[n].area, listings[n].info.count);
    }
  }

  lemma GroupingStep(byArea: map<string, seq<Info>>, listings: seq<Listing>, l: Listing)
    requires GroupedBy(byArea, listings)
    ensures GroupedBy(
              byArea[l.area := (if l.area in byArea then byArea[l.area] else []) + [l.info]], listings + [l])
    ensures Totals(listings + [l]) == AddTotal(Totals(listings), l.area, l.info.count)
  {
    assert (listings + [l])[..|listings|] == listings;
    UnlistedAreaIsEmpty(listings, l.area);
    AddTotalAreas(Totals(listings), l.area, l.info.count);
  }

  function ListingsUpTo(infos: seq<Info>, i: nat, j: nat): seq<Listing>
    requires i < |infos| && j <= |infos[i].areas|
  {
    Listings(infos[..i]) + ListingsOf(infos[i], infos[i].areas[..j])
  }

  lemma ListingsPush(infos: seq<Info>, i: nat, j: nat)
    requires i < |infos| && j <= |infos[i].areas|
    ensures j == 0 ==> ListingsUpTo(infos, i, j) == Listings(infos[..i])
    ensures j < |infos[i].areas| ==>
              ListingsUpTo(infos, i, j + 1) == ListingsUpTo(infos, i, j) + [Listing(infos[i].areas[j], infos[i])]
    ensures j == |infos[i].areas| ==> ListingsUpTo(infos, i, j) == Listings(infos[..i + 1])
  {
    assert infos[..i + 1][..i] == infos[..i];
    var areas := infos[i].areas;
    if j < |areas| {
      assert areas[..j + 1][..j] == areas[..j];
    } else {
      assert areas[..j] == areas;
    }
  }

  method GroupByArea(infos: seq<Info>) returns (byArea: map<string, seq<Info>>, areaTotals: seq<AreaTotal>)
    ensures GroupedBy(byArea, Listings(infos))
    ensures areaTotals == Totals(Listings(infos))
  {
    byArea, areaTotals := map[], [];
    for i := 0 to |infos|
      invariant areaTotals == Totals(Listings(infos[..i])) && GroupedBy(byArea, Listings(infos[..i]))
    {
      var info := infos[i];
      ListingsPush(infos, i, 0);
      for j := 0 to |info.areas|
        invariant areaTotals == Totals(ListingsUpTo(infos, i, j)) && GroupedBy(byArea, ListingsUpTo(infos, i, j))
      {
        var area := info.areas[j];
        ListingsPush(infos, i, j);
        GroupingStep(byArea, ListingsUpTo(infos, i, j), Listing(area, info));
        byArea := byArea[area := (if area in byArea then byArea[area] else []) + [info]];
        areaTotals := AddTotal(areaTotals, area, info.count);
      }
      ListingsPush(infos, i, |info.areas|);
    }
    assert infos[..|infos|] == infos;
  }

  lemma SectionPush(area: string, issues: seq<Info>, j: nat)
    requires j < |issues|
    ensures SectionLines(area, issues[..j + 1]) == SectionLines(area, issues[..j]) + [EntryLine(issues[j])]
  {
    assert issues[..j + 1][..j] == issues[..j];
  }

  method AppendSection(lines: seq<string>, area: string, issues: seq<Info>) returns (r: seq<string>)
    ensures r == lines + SectionLines(area, issues)
  {
    r := lines + HeadingLines(area);
    assert r == lines + SectionLines(area, issues[..0]);
    for j := 0 to |issues|
      invariant r == lines + SectionLines(area, issues[..j])
    {
      SectionPush(area, issues, j);
      r := r + [EntryLine(issues[j])];
    }
    assert issues[..|issues|] == issues;
  }

  lemma SectionsPush(totals: seq<AreaTotal>, i: nat, listings: seq<Listing>, issues: seq<Info>)
    requires i < |totals| && issues == SortDescending(InfosOf(listings, totals[i].area), Count)
    ensures LinesFor(totals[..i + 1], listings)
         == LinesFor(totals[..i], listings) + SectionLines(totals[i].area, issues)
  {
    assert totals[..i + 1][..i] == totals[..i];
  }

  method BuildMarkdownBody(infos: seq<Info>) returns (body: string)
    ensures body == Join(IndexLines(infos), "\n")
  {
    var byArea, areaTotals := GroupByArea(infos);
    ghost var listings := Listings(infos);
    var ranked := SortDescending(areaTotals, Total);
    var lines := [INTRODUCTION];
    for i := 0 to |ranked|
      invariant lines == LinesFor(ranked[..i], listings)
    {
      SortMembers(areaTotals, Total, ranked[i]);
      var area := ranked[i].area;
      var issues := SortDescending(byArea[area], Count);
      SectionsPush(ranked, i, listings, issues);
      lines := AppendSection(lines, area, issues);
    }
    assert ranked[..|ranked|] == ranked;
    body := Join(lines, "\n");
  }

  // ----- what the index lists -----

  function SumOfCounts(infos: seq<Info>): nat
  {
    if infos == [] then 0 else SumOfCounts(infos[..|infos| - 1]) + infos[|infos| - 1].count
  }

  function Area(t: AreaTotal): string
  {
    t.area
  }

  predicate DistinctAreas(totals: seq<AreaTotal>)
  {
    Distinct(totals, Area)
  }

  /** The counter's value for an area; 0 for an area it does not hold. */
  function TotalIn(totals: seq<AreaTotal>, area: string): nat
  {
    if totals == [] then 0
    else if totals[0].area == area then totals[0].total
    else TotalIn(totals[1..], area)
  }

  lemma {:induction false} AddTotalAdds(totals: seq<AreaTotal>, area: string, count: nat, other: string)
    ensures TotalIn(AddTotal(totals, area, count), other)
         == TotalIn(totals, other) + if other == area then count else 0
  {
    if totals != [] && totals[0].area != area {
      AddTotalAdds(totals[1..], area, count, other);
    }
  }

  lemma {:induction false} AddTotalKeepsDistinct(totals: seq<AreaTotal>, area: string, count: nat)
    requires DistinctAreas(totals)
    ensures DistinctAreas(AddTotal(totals, area, count))
  {
    if totals != [] && totals[0].area != area {
      var rest := totals[1..];
      AddTotalKeepsDistinct(rest, area, count);
      AddTotalAreas(rest, area, count);
      var more := AddTotal(rest, area, count);
      forall i | 0 <= i < |more| ensures Area(more[i]) != Area(totals[0]) {
        assert more[i].area in AreasListed(more);
      }
    }
  }

  lemma {:induction false} TotalInDistinct(totals: seq<AreaTotal>, k: nat)
    requires DistinctAreas(totals) && k < |totals|
    ensures TotalIn(totals, totals[k].area) == totals[k].total
  {
    if k > 0 {
      assert Area(totals[0]) != Area(totals[k]);
      TotalInDistinct(totals[1..], k - 1);
    }
  }

  lemma {:induction false} TotalsOfListings(listings: seq<Listing>, area: string)
    ensures DistinctAreas(Totals(listings))
    ensures TotalIn(Totals(listings), area) == SumOfCounts(InfosOf(listings, area))
  {
    if listings != [] {
      var n := |listings| - 1;
      var last := listings[n];
      var totals := Totals(listings[..n]);
      TotalsOfListings(listings[..n], area);
      AddTotalKeepsDistinct(totals, last.area, last.info.count);
      AddTotalAdds(totals, last.area, last.info.count, area);
      var front := InfosOf(listings[..n], area);
      assert (front + [last.info])[..|front|] == front && front + [] == front;
    }
  }

  /**
    Every area has one section, and the sections come in descending order of the sum of the counts of
    the issues listed under them.
  */
  lemma SectionsAreRanked(infos: seq<Info>, i: nat, j: nat)
    requires i < j < |SortDescending(Totals(Listings(infos)), Total)|
    ensures var ranked := SortDescending(Totals(Listings(infos)), Total);
            && ranked[i].area != ranked[j].area
            && SumOfCounts(InfosOf(Listings(infos), ranked[i].area))
            >= SumOfCounts(InfosOf(Listings(infos), ranked[j].area))
  {
    var totals := Totals(Listings(infos));
    var ranked := SortDescending(totals, Total);
    TotalsOfListings(Listings(infos), "");
    SortKeepsDistinct(totals, Total, Area);
    SortIsPermutation(totals, Total);
    assert Area(ranked[i]) != Area(ranked[j]) && Total(ranked[i]) >= Total(ranked[j]);
    RankIsSum(infos, ranked[i]);
    RankIsSum(infos, ranked[j]);
  }

  lemma RankIsSum(infos: seq<Info>, t: AreaTotal)
    requires t in SortDescending(Totals(Listings(infos)), Total)
    ensures t.total == SumOfCounts(InfosOf(Listings(infos), t.area))
  {
    var totals := Totals(Listings(infos));
    SortMembers(totals, Total, t);
    var k :| 0 <= k < |totals| && totals[k] == t;
    TotalsOfListings(Listings(infos), t.area);
    TotalInDistinct(totals, k);
  }
}
