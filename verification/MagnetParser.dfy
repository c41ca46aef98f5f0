/**
  The reader of the index of frequently re-reported issues, and its agreement with the printer.
*/
module MagnetParser {
  import opened Decimals
  import opened Wrappers
  import opened Text
  import opened PythonText
  import opened Sequences
  import opened Sorting
  import opened DuplicateIndex

  datatype Line = Header(area: string) | Entry(count: int, number: int) | Other

  datatype Magnet = Magnet(number: int, areas: seq<string>, count: int)

  /** An entry together with the area of the header above it. */
  datatype Hit = Hit(area: string, count: int, number: int)

  datatype Reading = Reading(area: string, hits: seq<Hit>)

  function Strip(s: string): string
  {
    Trim(s, IsSpace)
  }

  /** `text.split()[0]`, parsed; None for both of the exceptions that skip the line. */
  function FirstInt(text: string): Option<int>
  {
    var words := Words(text, IsSpace);
    if words == [] then None else ParseInt(words[0])
  }

  function CountIn(line: string): Option<int>
  {
    var pieces := Split(line, '[');
    if |pieces| < 2 then None else FirstInt(pieces[1])
  }

  function NumberIn(line: string): Option<int>
  {
    var rest := AfterFirst(line, RESOURCE);
    if rest.None? then None
    else
      var words := Words(BeforeFirst(rest.value, RESOURCE), IsSpace);
      if words == [] then None else ParseInt(TrimEnd(words[0], c => c == ')'))
  }

  function Classify(line: string): Line
  {
    if "## " <= line then Header(Strip(line[3..]))
    else if line == "" || line[0] != '-' || CountIn(line).None? || NumberIn(line).None? then Other
    else Entry(CountIn(line).value, NumberIn(line).value)
  }

  /** Entries before the first header, and under an empty one, are skipped. */
  function ReadLine(r: Reading, line: Line): Reading
  {
    match line
    case Header(area) => r.(area := area)
    case Entry(count, number) => if r.area == "" then r else r.(hits := r.hits + [Hit(r.area, count, number)])
    case Other => r
  }

  function Tokens(lines: seq<string>, classify: string -> Line): seq<Line>
  {
    seq(|lines|, i requires 0 <= i < |lines| => classify(lines[i]))
  }

  function Read(tokens: seq<Line>): Reading
  {
    if tokens == [] then Reading("", [])
    else ReadLine(Read(tokens[..|tokens| - 1]), tokens[|tokens| - 1])
  }

  function AreasFrom(area: string): seq<string>
  {
    if area == UNLABELED then [] else [area]
  }

  /** The dictionary keeps its entries in the order of their first use. */
  function AddHit(magnets: seq<Magnet>, hit: Hit): seq<Magnet>
  {
    if magnets == [] then [Magnet(hit.number, AreasFrom(hit.area), hit.count)]
    else if magnets[0].number == hit.number then
      [magnets[0].(areas := magnets[0].areas + AreasFrom(hit.area))] + magnets[1..]
    else [magnets[0]] + AddHit(magnets[1..], hit)
  }

  function Magnets(hits: seq<Hit>): seq<Magnet>
  {
    if hits == [] then [] else AddHit(Magnets(hits[..|hits| - 1]), hits[|hits| - 1])
  }

  function DupeCount(m: Magnet): int
  {
    m.count
  }

  function Number(m: Magnet): int
  {
    m.number
  }

  function Parsed(body: string): seq<Magnet>
  {
    SortDescending(Magnets(Read(Tokens(Split(body, '\n'), Classify)).hits), DupeCount)
  }

  method ParseDuplicateMagnets(body: string) returns (magnets: seq<Magnet>)
    ensures magnets == Parsed(body)
  {
    var lines := Split(body, '\n');
    var found: seq<Magnet> := [];
    var currentArea := "";
    ghost var hits := [];
    for i := 0 to |lines|
      invariant Reading(currentArea, hits) == Read(Tokens(lines, Classify)[..i])
      invariant found == Magnets(hits)
    {
      assert Tokens(lines, Classify)[..i + 1][..i] == Tokens(lines, Classify)[..i];
      match Classify(lines[i])
      case Header(area) =>
        currentArea := area;
      case Entry(count, number) =>
        if currentArea != "" {
          var hit := Hit(currentArea, count, number);
          assert (hits + [hit])[..|hits|] == hits;
          found := AddHit(found, hit);
          hits := hits + [hit];
        }
      case Other =>
    }
    assert Tokens(lines, Classify)[..|lines|] == Tokens(lines, Classify);
    magnets := SortDescending(found, DupeCount);
  }

  // ----- what the dictionary holds -----

  function Lookup(magnets: seq<Magnet>, number: int): Option<Magnet>
  {
    if magnets == [] then None
    else if magnets[0].number == number then Some(magnets[0])
    else Lookup(magnets[1..], number)
  }

  function WithHit(found: Option<Magnet>, hit: Hit): Magnet
  {
    if found.None? then Magnet(hit.number, AreasFrom(hit.area), hit.count)
    else found.value.(areas := found.value.areas + AreasFrom(hit.area))
  }

  lemma {:induction false} LookupAfterHit(magnets: seq<Magnet>, hit: Hit, number: int)
    ensures Lookup(AddHit(magnets, hit), number)
         == if number == hit.number then Some(WithHit(Lookup(magnets, number), hit)) else Lookup(magnets, number)
  {
    if magnets != [] && magnets[0].number != hit.number {
      LookupAfterHit(magnets[1..], hit, number);
    }
  }

  lemma {:induction false} LookupIsMember(magnets: seq<Magnet>, number: int)
    requires Distinct(magnets, Number)
    ensures Lookup(magnets, number).Some? <==> exists m :: m in magnets && m.number == number
    ensures forall m :: m in magnets && m.number == number ==> Lookup(magnets, number) == Some(m)
  {
    if magnets != [] {
      var rest := magnets[1..];
      LookupIsMember(rest, number);
      assert magnets == [magnets[0]] + rest;
      forall i | 0 <= i < |rest| ensures Number(rest[i]) != Number(magnets[0]) {
        assert rest[i] == magnets[i + 1];
      }
    }
  }

  lemma {:induction false} AddHitKeepsDistinct(magnets: seq<Magnet>, hit: Hit)
    requires Distinct(magnets, Number)
    ensures Distinct(AddHit(magnets, hit), Number)
    ensures forall m :: m in AddHit(magnets, hit) ==>
              m.number == hit.number || exists k :: k in magnets && Number(k) == m.number
  {
    if magnets != [] {
      var rest := magnets[1..];
      assert magnets == [magnets[0]] + rest;
      forall i | 0 <= i < |rest| ensures Number(rest[i]) != Number(magnets[0]) {
        assert rest[i] == magnets[i + 1];
      }
      if magnets[0].number != hit.number {
        AddHitKeepsDistinct(rest, hit);
        var more := AddHit(rest, hit);
        forall i | 0 <= i < |more| ensures Number(more[i]) != Number(magnets[0]) {
          assert more[i] in more;
        }
      }
    }
  }

  predicate IsHit(hits: seq<Hit>, number: int, area: string)
  {
    exists h :: h in hits && h.number == number && h.area == area
  }

  /** What the dictionary holds for one issue is exactly what the entries of that issue say. */
  ghost predicate Agrees(found: Option<Magnet>, hits: seq<Hit>, number: int)
  {
    && (found.None? <==> forall h :: h in hits ==> h.number != number)
    && (found.Some? ==>
          && found.value.number == number
          && (exists h :: h in hits && h.number == number && h.count == found.value.count)
          && forall a :: a in found.value.areas <==> a != UNLABELED && IsHit(hits, number, a))
  }

  lemma AgreesAfterHit(found: Option<Magnet>, hits: seq<Hit>, hit: Hit, number: int)
    requires Agrees(found, hits, number)
    ensures number != hit.number ==> Agrees(found, hits + [hit], number)
    ensures number == hit.number ==> Agrees(Some(WithHit(found, hit)), hits + [hit], number)
  {
  }

  lemma {:induction false} MagnetsAgree(hits: seq<Hit>, number: int)
    ensures Distinct(Magnets(hits), Number)
    ensures Agrees(Lookup(Magnets(hits), number), hits, number)
  {
    if hits != [] {
      var n := |hits| - 1;
      assert hits == hits[..n] + [hits[n]];
      MagnetsAgree(hits[..n], number);
      AddHitKeepsDistinct(Magnets(hits[..n]), hits[n]);
      LookupAfterHit(Magnets(hits[..n]), hits[n], number);
      AgreesAfterHit(Lookup(Magnets(hits[..n]), number), hits[..n], hits[n], number);
    }
  }

  // ----- reading what was printed -----

  predicate Printable(info: Info)
  {
    info.url == Url(info.number) && forall a :: a in info.areas ==> '\n' !in a
  }

  lemma HeaderIsRead(area: string)
    ensures Classify(HeaderLine(area)) == Header(Strip(area))
  {
  }

  lemma UrlIsPlain(number: nat)
    ensures forall c :: c in Url(number) ==> !IsSpace(c) && c != '['
  {
    var parts := ["https:", "/", HOST, OWNER, REPO, RESOURCE];
    assert forall c :: c in Url(number) ==>
        c in parts[0] || c in parts[1] || c in parts[2] || c in parts[3] || c in parts[4] || c in parts[5]
        || c in Decimal(number);
  }

  predicate OtherSegment(segment: string)
  {
    '/' !in segment && (segment == "" || segment[0] != 'i')
  }

  lemma NumberOfUrl(front: string, number: nat)
    requires '/' !in front
    ensures AfterFirst(front + Url(number), RESOURCE) == Some(Decimal(number))
  {
    assert OtherSegment(HOST) && OtherSegment(OWNER) && OtherSegment(REPO);
    AfterRepository(front, HOST, OWNER, REPO, Decimal(number));
  }

  lemma AfterRepository(front: string, host: string, owner: string, repo: string, rest: string)
    requires '/' !in front && OtherSegment(host) && OtherSegment(owner) && OtherSegment(repo)
    ensures AfterFirst(front + (RepositoryUrl(host, owner, repo) + RESOURCE + rest), RESOURCE) == Some(rest)
  {
    var afterRepo := RESOURCE + rest;
    var afterOwner := "/" + repo + afterRepo;
    var afterHost := "/" + owner + afterOwner;
    var afterScheme := "/" + host + afterHost;
    assert afterRepo[|RESOURCE|..] == rest;
    SkipSegment(repo, afterRepo);
    SkipSegment(owner, afterOwner);
    SkipSegment(host, afterHost);
    SkipSegment("", afterScheme);
    FirstAfter(front + "https:", "/" + "" + afterScheme, RESOURCE);
    Regroup(front, "https:", "/", host, owner, repo, RESOURCE, rest);
  }

  lemma Regroup(front: string, scheme: string, slash: string, host: string, owner: string, repo: string,
                resource: string, rest: string)
    ensures front + (scheme + slash + slash + host + slash + owner + slash + repo + resource + rest)
         == (front + scheme)
            + (slash + "" + (slash + host + (slash + owner + (slash + repo + (resource + rest)))))
  {
  }

  /** A path segment other than `issues` is passed over. */
  lemma SkipSegment(segment: string, rest: string)
    requires OtherSegment(segment) && rest != "" && rest[0] == '/'
    ensures AfterFirst("/" + segment + rest, RESOURCE) == AfterFirst(rest, RESOURCE)
  {
    var s := "/" + segment + rest;
    assert s[1] != 'i' && RESOURCE[1] == 'i';
    assert s[1..] == segment + rest;
    FirstAfter(segment, rest, RESOURCE);
  }

  lemma PaddedCountIsRead(count: nat, tail: string)
    requires tail != "" && IsSpace(tail[0])
    ensures FirstInt(Pad2(count) + tail) == Some(count)
  {
    var digits := Decimal(count);
    FirstWord(digits, tail, IsSpace);
    if count < 10 {
      var text := Pad2(count) + tail;
      assert text[0] == ' ' && text[1..] == digits + tail;
    }
    ParseDecimal(count);
  }

  lemma CountIsRead(bullet: string, count: nat, dupes: string, rest: string)
    requires '[' !in bullet && '[' !in dupes && '[' !in rest
    requires dupes != "" && IsSpace(dupes[0])
    ensures CountIn(bullet + ['['] + Pad2(count) + dupes + rest) == Some(count)
  {
    var padded := Pad2(count);
    var text := padded + (dupes + rest);
    SplitFirstPiece(bullet, '[', text);
    SplitOnePiece(text, '[');
    PaddedCountIsRead(count, dupes + rest);
    Associative(bullet + ['['], padded, dupes);
    Associative(bullet + ['['], padded + dupes, rest);
    Associative(padded, dupes, rest);
  }

  lemma NumberIsRead(front: string, number: nat)
    requires '/' !in front
    ensures NumberIn(front + Url(number)) == Some(number)
  {
    var digits := Decimal(number);
    NumberOfUrl(front, number);
    NoOccurrence(digits, RESOURCE);
    assert digits + "" == digits;
    FirstWord(digits, "", IsSpace);
    assert digits[|digits| - 1] in digits;
    ParseDecimal(number);
  }

  /** A printed entry is read as the count and the number it was printed from. */
  lemma EntryIsRead(info: Info)
    requires info.url == Url(info.number)
    ensures Classify(EntryLine(info)) == Entry(info.count, info.number)
  {
    var line := EntryLine(info);
    var front := BULLET + ['['] + Pad2(info.count) + DUPES;
    assert '/' !in BULLET && '/' !in Pad2(info.count) && '/' !in DUPES;
    NumberIsRead(front, info.number);
    UrlIsPlain(info.number);
    CountIsRead(BULLET, info.count, DUPES, info.url);
    assert line[0] == BULLET[0];
  }

  // ----- what the reader makes of the sections -----

  function HitsOf(area: string, infos: seq<Info>): seq<Hit>
  {
    if infos == [] || area == "" then []
    else
      var last := infos[|infos| - 1];
      HitsOf(area, infos[..|infos| - 1]) + [Hit(area, last.count, last.number)]
  }

  function HitsFor(totals: seq<AreaTotal>, listings: seq<Listing>): seq<Hit>
  {
    if totals == [] then []
    else
      var area := totals[|totals| - 1].area;
      HitsFor(totals[..|totals| - 1], listings)
      + HitsOf(Strip(area), SortDescending(InfosOf(listings, area), Count))
  }

  function EntryTokens(infos: seq<Info>): seq<Line>
  {
    seq(|infos|, i requires 0 <= i < |infos| => Entry(infos[i].count, infos[i].number))
  }

  function SectionTokens(area: string, infos: seq<Info>): seq<Line>
  {
    [Other, Header(Strip(area)), Other] + EntryTokens(infos)
  }

  /** A line classifier that recognises the kinds of lines the printer makes. */
  ghost predicate Understands(classify: string -> Line)
  {
    && classify("") == Other && classify(INTRODUCTION) == Other
    && (forall area: string :: classify(HeaderLine(area)) == Header(Strip(area)))
    && (forall info: Info :: info.url == Url(info.number) ==>
          classify(EntryLine(info)) == Entry(info.count, info.number))
  }

  lemma ClassifyUnderstands()
    ensures Understands(Classify)
  {
    BlankIsSkipped();
    IntroductionIsSkipped();
    forall area: string ensures Classify(HeaderLine(area)) == Header(Strip(area)) {
      HeaderIsRead(area);
    }
    forall info: Info | info.url == Url(info.number)
      ensures Classify(EntryLine(info)) == Entry(info.count, info.number)
    {
      EntryIsRead(info);
    }
  }

  lemma BlankIsSkipped()
    ensures Classify("") == Other
  {
  }

  lemma IntroductionIsSkipped()
    ensures Classify(INTRODUCTION) == Other
  {
    assert INTRODUCTION[0] == 'T' && "## "[0] == '#';
  }

  lemma EntryTokensPush(infos: seq<Info>, n: nat)
    requires |infos| == n + 1
    ensures EntryTokens(infos) == EntryTokens(infos[..n]) + [Entry(infos[n].count, infos[n].number)]
  {
  }

  lemma {:induction false} EntryTokensOf(infos: seq<Info>, classify: string -> Line)
    requires Understands(classify)
    requires forall info :: info in infos ==> info.url == Url(info.number)
    ensures Tokens(EntryLines(infos), classify) == EntryTokens(infos)
  {
    if infos != [] {
      var n := |infos| - 1;
      var line := EntryLine(infos[n]);
      EntryTokensOf(infos[..n], classify);
      EntryTokensPush(infos, n);
      TokensOfBoth(EntryLines(infos[..n]), [line], classify);
      assert infos[n] in infos && Tokens([line], classify) == [classify(line)];
    }
  }

  lemma SectionTokensOf(area: string, infos: seq<Info>, classify: string -> Line)
    requires Understands(classify)
    requires forall info :: info in infos ==> info.url == Url(info.number)
    ensures Tokens(SectionLines(area, infos), classify) == SectionTokens(area, infos)
  {
    var heading := HeadingLines(area);
    EntryTokensOf(infos, classify);
    assert Tokens(heading, classify) == [Other, Header(Strip(area)), Other];
    TokensOfBoth(heading, EntryLines(infos), classify);
  }

  lemma TokensOfBoth(a: seq<string>, b: seq<string>, classify: string -> Line)
    ensures Tokens(a + b, classify) == Tokens(a, classify) + Tokens(b, classify)
  {
  }

  lemma ReadPush(tokens: seq<Line>, token: Line)
    ensures Read(tokens + [token]) == ReadLine(Read(tokens), token)
  {
  }

  lemma {:induction false} EntriesAreRead(tokens: seq<Line>, infos: seq<Info>)
    ensures Read(tokens + EntryTokens(infos)).area == Read(tokens).area
    ensures Read(tokens + EntryTokens(infos)).hits == Read(tokens).hits + HitsOf(Read(tokens).area, infos)
  {
    if infos == [] {
      assert tokens + EntryTokens(infos) == tokens;
    } else {
      var n := |infos| - 1;
      var last := Entry(infos[n].count, infos[n].number);
      EntriesAreRead(tokens, infos[..n]);
      ReadPush(tokens + EntryTokens(infos[..n]), last);
      EntryTokensPush(infos, n);
      Associative(tokens, EntryTokens(infos[..n]), [last]);
    }
  }

  lemma SectionIsRead(tokens: seq<Line>, area: string, infos: seq<Info>)
    ensures Read(tokens + SectionTokens(area, infos)).hits == Read(tokens).hits + HitsOf(Strip(area), infos)
  {
    var header := Header(Strip(area));
    ReadPush(tokens, Other);
    ReadPush(tokens + [Other], header);
    ReadPush(tokens + [Other] + [header], Other);
    var start := tokens + [Other, header, Other];
    assert start == tokens + [Other] + [header] + [Other];
    EntriesAreRead(start, infos);
    Associative(tokens, [Other, header, Other], EntryTokens(infos));
  }

  /** The entries the reader finds in the index are those the printer put under each area. */
  lemma {:induction false} SectionsAreRead(totals: seq<AreaTotal>, listings: seq<Listing>, classify: string -> Line)
    requires Understands(classify)
    requires forall l :: l in listings ==> l.info.url == Url(l.info.number)
    ensures Read(Tokens(LinesFor(totals, listings), classify)).hits == HitsFor(totals, listings)
  {
    if totals == [] {
      ReadPush([], Other);
      assert Tokens([INTRODUCTION], classify) == [] + [Other];
    } else {
      var n := |totals| - 1;
      var area := totals[n].area;
      var infos := SortDescending(InfosOf(listings, area), Count);
      SectionsAreRead(totals[..n], listings, classify);
      ListedUrls(listings, area);
      SectionTokensOf(area, infos, classify);
      TokensOfBoth(LinesFor(totals[..n], listings), SectionLines(area, infos), classify);
      SectionIsRead(Tokens(LinesFor(totals[..n], listings), classify), area, infos);
    }
  }

  lemma ListedUrls(listings: seq<Listing>, area: string)
    requires forall l :: l in listings ==> l.info.url == Url(l.info.number)
    ensures forall info :: info in SortDescending(InfosOf(listings, area), Count) ==> info.url == Url(info.number)
  {
    forall info | info in SortDescending(InfosOf(listings, area), Count) ensures info.url == Url(info.number) {
      SortMembers(InfosOf(listings, area), Count, info);
      ListedInfos(listings, area, info);
      assert Listing(area, info) in listings;
    }
  }

  // ----- which entries the index holds -----

  lemma {:induction false} ListedInfos(listings: seq<Listing>, area: string, info: Info)
    ensures info in InfosOf(listings, area) <==> Listing(area, info) in listings
  {
    if listings != [] {
      var n := |listings| - 1;
      ListedInfos(listings[..n], area, info);
      assert listings == listings[..n] + [listings[n]];
    }
  }

  lemma {:induction false} ListedAreas(owner: Info, areas: seq<string>, area: string, info: Info)
    ensures Listing(area, info) in ListingsOf(owner, areas) <==> info == owner && area in areas
  {
    if areas != [] {
      var n := |areas| - 1;
      ListedAreas(owner, areas[..n], area, info);
      assert areas == areas[..n] + [areas[n]];
    }
  }

  lemma {:induction false} ListedPairs(infos: seq<Info>, area: string, info: Info)
    ensures Listing(area, info) in Listings(infos) <==> info in infos && area in info.areas
  {
    if infos != [] {
      var n := |infos| - 1;
      ListedPairs(infos[..n], area, info);
      ListedAreas(infos[n], infos[n].areas, area, info);
      assert infos == infos[..n] + [infos[n]];
    }
  }

  predicate InHitsOf(h: Hit, area: string, infos: seq<Info>)
  {
    area != "" && exists info :: info in infos && h == Hit(area, info.count, info.number)
  }

  lemma {:induction false} HitsOfMembers(h: Hit, area: string, infos: seq<Info>)
    ensures h in HitsOf(area, infos) <==> InHitsOf(h, area, infos)
  {
    if infos != [] && area != "" {
      var n := |infos| - 1;
      HitsOfMembers(h, area, infos[..n]);
      assert infos == infos[..n] + [infos[n]];
    }
  }

  /** The entry is one of those printed under this area. */
  predicate IsUnder(h: Hit, total: AreaTotal, listings: seq<Listing>)
  {
    InHitsOf(h, Strip(total.area), InfosOf(listings, total.area))
  }

  lemma HitsForPush(h: Hit, totals: seq<AreaTotal>, n: nat, listings: seq<Listing>)
    requires |totals| == n + 1
    ensures h in HitsFor(totals, listings) <==> h in HitsFor(totals[..n], listings) || IsUnder(h, totals[n], listings)
  {
    var area := totals[n].area;
    var infos := InfosOf(listings, area);
    HitsOfMembers(h, Strip(area), SortDescending(infos, Count));
    forall info ensures info in SortDescending(infos, Count) <==> info in infos {
      SortMembers(infos, Count, info);
    }
  }

  predicate IsUnderSome(h: Hit, totals: seq<AreaTotal>, listings: seq<Listing>)
  {
    exists t :: t in totals && IsUnder(h, t, listings)
  }

  lemma IsUnderSomePush(h: Hit, totals: seq<AreaTotal>, n: nat, listings: seq<Listing>)
    requires |totals| == n + 1
    ensures IsUnderSome(h, totals, listings) <==> IsUnderSome(h, totals[..n], listings) || IsUnder(h, totals[n], listings)
  {
    assert totals == totals[..n] + [totals[n]] && totals[n] in totals;
  }

  lemma {:induction false} HitsForMembers(h: Hit, totals: seq<AreaTotal>, listings: seq<Listing>)
    ensures h in HitsFor(totals, listings) <==> IsUnderSome(h, totals, listings)
  {
    if totals != [] {
      var n := |totals| - 1;
      HitsForMembers(h, totals[..n], listings);
      HitsForPush(h, totals, n, listings);
      IsUnderSomePush(h, totals, n, listings);
    }
  }

  /** The entry an issue gets under one of its areas. */
  ghost predicate IsPrinted(h: Hit, infos: seq<Info>, info: Info, area: string)
  {
    info in infos && area in info.areas && Strip(area) != "" && h == Hit(Strip(area), info.count, info.number)
  }

  lemma IndexEntries(infos: seq<Info>, h: Hit)
    requires forall info :: info in infos ==> info.url == Url(info.number)
    ensures h in Read(Tokens(IndexLines(infos), Classify)).hits <==> exists info, area :: IsPrinted(h, infos, info, area)
  {
    var listings := Listings(infos);
    var totals := Totals(listings);
    var ranked := SortDescending(totals, Total);
    forall l | l in listings ensures l.info.url == Url(l.info.number) {
      ListedPairs(infos, l.area, l.info);
    }
    ClassifyUnderstands();
    SectionsAreRead(ranked, listings, Classify);
    HitsForMembers(h, ranked, listings);
    if IsUnderSome(h, ranked, listings) {
      UnderIsPrinted(infos, h);
    }
    if info, area :| IsPrinted(h, infos, info, area) {
      PrintedIsUnder(infos, h, info, area);
    }
  }

  lemma UnderIsPrinted(infos: seq<Info>, h: Hit)
    requires var listings := Listings(infos); IsUnderSome(h, SortDescending(Totals(listings), Total), listings)
    ensures exists info, area :: IsPrinted(h, infos, info, area)
  {
    var listings := Listings(infos);
    var t :| t in SortDescending(Totals(listings), Total) && IsUnder(h, t, listings);
    var info :| info in InfosOf(listings, t.area) && h == Hit(Strip(t.area), info.count, info.number);
    ListedInfos(listings, t.area, info);
    ListedPairs(infos, t.area, info);
    assert IsPrinted(h, infos, info, t.area);
  }

  lemma PrintedIsUnder(infos: seq<Info>, h: Hit, info: Info, area: string)
    requires IsPrinted(h, infos, info, area)
    ensures var listings := Listings(infos); IsUnderSome(h, SortDescending(Totals(listings), Total), listings)
  {
    var listings := Listings(infos);
    ListedPairs(infos, area, info);
    ListedInfos(listings, area, info);
    UnlistedAreaIsEmpty(listings, area);
    var t :| t in Totals(listings) && t.area == area;
    SortMembers(Totals(listings), Total, t);
    assert IsUnder(h, t, listings);
  }

  // ----- the lines survive being joined -----

  lemma {:induction false} EntriesHaveNoBreak(infos: seq<Info>)
    requires forall info :: info in infos ==> info.url == Url(info.number)
    ensures forall l :: l in EntryLines(infos) ==> '\n' !in l
  {
    if infos != [] {
      var n := |infos| - 1;
      var last := infos[n];
      assert infos == infos[..n] + [last] && last in infos;
      EntriesHaveNoBreak(infos[..n]);
      EntryHasNoBreak(last);
    }
  }

  lemma EntryHasNoBreak(info: Info)
    requires info.url == Url(info.number)
    ensures '\n' !in EntryLine(info)
  {
    UrlIsPlain(info.number);
    assert '\n' !in BULLET && '\n' !in Pad2(info.count) && '\n' !in DUPES;
  }

  lemma SectionHasNoBreak(area: string, infos: seq<Info>)
    requires '\n' !in area && forall l :: l in EntryLines(infos) ==> '\n' !in l
    ensures forall l :: l in SectionLines(area, infos) ==> '\n' !in l
  {
  }

  lemma {:induction false} LinesHaveNoBreak(totals: seq<AreaTotal>, listings: seq<Listing>)
    requires forall l :: l in listings ==> l.info.url == Url(l.info.number)
    requires forall t :: t in totals ==> '\n' !in t.area
    ensures forall l :: l in LinesFor(totals, listings) ==> '\n' !in l
  {
    if totals == [] {
      assert '\n' !in INTRODUCTION;
    } else {
      var n := |totals| - 1;
      var area := totals[n].area;
      var infos := SortDescending(InfosOf(listings, area), Count);
      LinesHaveNoBreak(totals[..n], listings);
      ListedUrls(listings, area);
      EntriesHaveNoBreak(infos);
      assert totals[n] in totals;
      SectionHasNoBreak(area, infos);
    }
  }

  lemma IndexSplits(infos: seq<Info>)
    requires forall info :: info in infos ==> Printable(info)
    ensures Split(Join(IndexLines(infos), "\n"), '\n') == IndexLines(infos)
  {
    var listings := Listings(infos);
    var totals := Totals(listings);
    var ranked := SortDescending(totals, Total);
    forall l | l in listings ensures l.info.url == Url(l.info.number) {
      ListedPairs(infos, l.area, l.info);
    }
    forall t | t in ranked ensures '\n' !in t.area {
      SortMembers(totals, Total, t);
      assert t.area in AreasListed(totals);
      UnlistedAreaIsEmpty(listings, t.area);
      var info := InfosOf(listings, t.area)[0];
      ListedInfos(listings, t.area, info);
      ListedPairs(infos, t.area, info);
    }
    LinesHaveNoBreak(ranked, listings);
    assert ['\n'] == "\n";
    IndexIsNotEmpty(ranked, listings);
    SplitJoin(IndexLines(infos), '\n');
  }

  lemma {:induction false} IndexIsNotEmpty(totals: seq<AreaTotal>, listings: seq<Listing>)
    ensures LinesFor(totals, listings) != []
  {
  }
}
