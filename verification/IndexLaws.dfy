/** The printed index of re-reported issues: what stands in it, in which order and in which words. */
module IndexLaws {
  import opened Sequences
  import opened Wrappers
  import opened Text
  import opened Decimals
  import opened Sorting
  import opened PythonText
  import opened DuplicateIndex

  /** The duplicates that count are those of closed issues. */
  lemma ClosedDuplicatesAre(events: seq<Option<Duplicate>>, number: nat)
    ensures number in ClosedDuplicates(events) <==> Some(Duplicate(number, "CLOSED")) in events
  {
    if number in ClosedDuplicates(events) {
      var e :| e in events && IsClosed(e) && e.value.number == number;
      assert e == Some(Duplicate(number, "CLOSED"));
    }
    if Some(Duplicate(number, "CLOSED")) in events {
      assert IsClosed(Some(Duplicate(number, "CLOSED")));
    }
  }

  // ----- order -----

  predicate AreasAreDistinct(info: Info)
  {
    forall i, j :: 0 <= i < j < |info.areas| ==> info.areas[i] != info.areas[j]
  }

  lemma {:induction false} InfosOfConcat(a: seq<Listing>, b: seq<Listing>, area: string)
    ensures InfosOf(a + b, area) == InfosOf(a, area) + InfosOf(b, area)
    decreases |b|
  {
    if b == [] {
      EmptyIsNeutral(a);
      EmptyIsNeutral(InfosOf(a, area));
    } else {
      var n := |b| - 1;
      InfosOfConcat(a, b[..n], area);
      assert a + b == a + b[..n] + [b[n]] && b == b[..n] + [b[n]];
      InfosOfPush(a + b[..n], b[n], area);
      InfosOfPush(b[..n], b[n], area);
      Associative(InfosOf(a, area), InfosOf(b[..n], area), InfosOf([b[n]], area));
    }
  }

  lemma InfosOfPush(listings: seq<Listing>, l: Listing, area: string)
    ensures InfosOf(listings + [l], area) == InfosOf(listings, area) + InfosOf([l], area)
  {
    assert (listings + [l])[..|listings|] == listings && [l][..0] == [];
    EmptyIsNeutral(InfosOf([l], area));
  }

  lemma {:induction false} InfosOfOne(info: Info, areas: seq<string>, area: string)
    requires forall i, j :: 0 <= i < j < |areas| ==> areas[i] != areas[j]
    ensures InfosOf(ListingsOf(info, areas), area) == if area in areas then [info] else []
    decreases |areas|
  {
    if areas != [] {
      var n := |areas| - 1;
      InfosOfOne(info, areas[..n], area);
      InfosOfPush(ListingsOf(info, areas[..n]), Listing(areas[n], info), area);
      LastArea(areas, n, area);
      assert [Listing(areas[n], info)][..0] == [];
      EmptyIsNeutral(if areas[n] == area then [info] else []);
      EmptyIsNeutral(InfosOf(ListingsOf(info, areas[..n]), area));
    }
  }

  lemma LastArea(areas: seq<string>, n: nat, area: string)
    requires |areas| == n + 1 && forall i, j :: 0 <= i < j < |areas| ==> areas[i] != areas[j]
    ensures area in areas <==> area in areas[..n] || areas[n] == area
    ensures areas[n] !in areas[..n]
  {
    assert areas == areas[..n] + [areas[n]];
  }

  /** Under an area, the issues that have it are grouped in their original order. */
  lemma {:induction false} GroupsAreInOrder(infos: seq<Info>, area: string)
    requires forall info :: info in infos ==> AreasAreDistinct(info)
    ensures InfosOf(Listings(infos), area) == Filter(infos, (info: Info) => area in info.areas)
  {
    if infos != [] {
      var n := |infos| - 1;
      assert infos[n] in infos;
      GroupsAreInOrder(infos[..n], area);
      InfosOfConcat(Listings(infos[..n]), ListingsOf(infos[n], infos[n].areas), area);
      InfosOfOne(infos[n], infos[n].areas, area);
    }
  }

  function AreaOrder(totals: seq<AreaTotal>): seq<string>
  {
    seq(|totals|, i requires 0 <= i < |totals| => totals[i].area)
  }

  lemma OrderOfCons(t: AreaTotal, rest: seq<AreaTotal>)
    ensures AreaOrder([t] + rest) == [t.area] + AreaOrder(rest)
  {
  }

  lemma {:induction false} AddTotalKeepsOrder(totals: seq<AreaTotal>, area: string, count: nat)
    ensures AreaOrder(totals) <= AreaOrder(AddTotal(totals, area, count))
  {
    if totals != [] {
      var rest := totals[1..];
      assert totals == [totals[0]] + rest;
      OrderOfCons(totals[0], rest);
      if totals[0].area == area {
        OrderOfCons(AreaTotal(area, totals[0].total + count), rest);
      } else {
        AddTotalKeepsOrder(rest, area, count);
        OrderOfCons(totals[0], AddTotal(rest, area, count));
      }
    }
  }

  /** Areas are counted in the order of their first use, which later listings do not change. */
  lemma {:induction false} CountedInOrder(listings: seq<Listing>, n: nat)
    requires n <= |listings|
    ensures AreaOrder(Totals(listings[..n])) <= AreaOrder(Totals(listings))
    decreases |listings|
  {
    if n < |listings| {
      var front := listings[..|listings| - 1];
      CountedInOrder(front, n);
      assert front[..n] == listings[..n];
      AddTotalKeepsOrder(Totals(front), listings[|listings| - 1].area, listings[|listings| - 1].info.count);
    } else {
      assert listings[..n] == listings;
    }
  }

  lemma {:induction false} EntryLinesAre(infos: seq<Info>)
    ensures |EntryLines(infos)| == |infos| && forall i :: 0 <= i < |infos| ==> EntryLines(infos)[i] == EntryLine(infos[i])
    decreases |infos|
  {
    if infos != [] {
      EntryLinesAre(infos[..|infos| - 1]);
    }
  }

  /** The sections follow the introduction in their order. */
  lemma {:induction false} SectionsInOrder(totals: seq<AreaTotal>, n: nat, listings: seq<Listing>)
    requires n < |totals|
    ensures var section := SectionLines(totals[n].area, SortDescending(InfosOf(listings, totals[n].area), Count));
            LinesFor(totals[..n], listings) + section <= LinesFor(totals, listings)
    ensures LinesFor(totals, listings) != [] && LinesFor(totals, listings)[0] == INTRODUCTION
    decreases |totals|
  {
    var front := totals[..|totals| - 1];
    if n < |front| {
      SectionsInOrder(front, n, listings);
      assert front[..n] == totals[..n] && front[n] == totals[n];
    } else if front != [] {
      SectionsInOrder(front, 0, listings);
    }
  }

  // ----- words -----

  lemma DecimalOfTwelve()
    ensures Decimal(3) == "3" && Decimal(12) == "12"
  {
  }

  lemma AddressOfTwelve()
    ensures Url(12) == "https://github.com/" + "zed-industries/zed" + "/issues/12"
  {
    DecimalOfTwelve();
    assert "https:" + "/" + "/" + HOST + "/" == "https://github.com/";
    assert OWNER + "/" + REPO == "zed-industries/zed";
    assert RESOURCE + "12" == "/issues/12";
  }

  /** The line of one issue, to the letter: its count stands in two places. */
  lemma LineOfOneIssue(number: nat, url: string, areas: seq<string>)
    ensures EntryLine(Info(number, url, areas, 3)) == "-   [ 3 dupes] " + url
    ensures EntryLine(Info(number, url, areas, 12)) == "-   [12 dupes] " + url
  {
    DecimalOfTwelve();
    assert BULLET + ['['] + " 3" + DUPES == "-   [ 3 dupes] ";
    assert BULLET + ['['] + "12" + DUPES == "-   [12 dupes] ";
  }

  lemma HeadingOfOneArea()
    ensures HeadingLines("git") == ["", "## git", ""] && AreasOf([]) == ["(unlabeled)"]
  {
    assert HeaderLine("git") == "## git";
  }
}
