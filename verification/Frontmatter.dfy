/**
  Finding the end of the YAML frontmatter of a skill file. The file is a sequence of bytes; the YAML
  parser is an arbitrary function of the text up to a closing line.
*/
module Frontmatter {
  import opened Sequences
  import opened Wrappers

  type Byte = b: int | 0 <= b < 256

  type Bytes = seq<Byte>

  const MAX_SKILL_FILE_SIZE := 100 * 1024

  const NEWLINE: Byte := 10
  const RETURN: Byte := 13
  const DASH: Byte := 45
  const DASHES: Bytes := [45, 45, 45]

  /** The first document of a YAML stream: there may be none, or it may not be the metadata of a skill. */
  datatype Parsed<M, E> = NoDocument | Malformed(error: E) | Metadata(metadata: M)

  datatype Extraction<M, E> =
    | Extracted(metadata: M, body: Bytes)
    | TooLarge
    | NoOpener
    | NoCloser
    | Invalid(lastError: Option<E>)

  // ----- leading white space -----

  predicate StartsWith(s: Bytes, prefix: Bytes)
  {
    |prefix| <= |s| && s[..|prefix|] == prefix
  }

  /** The number of bytes of the white-space character the text starts with, in UTF-8; 0 if it starts with none. */
  function SpaceLength(s: Bytes): (n: nat)
    ensures n <= |s| && n <= 3
  {
    if s == [] then 0
    else if 9 <= s[0] <= 13 || s[0] == 32 then 1
    else if |s| >= 2 && s[0] == 0xC2 && (s[1] == 0x85 || s[1] == 0xA0) then 2
    else if |s| < 3 then 0
    else if s[0] == 0xE1 && s[1] == 0x9A && s[2] == 0x80 then 3
    else if s[0] == 0xE2 && s[1] == 0x80 && (0x80 <= s[2] <= 0x8A || s[2] == 0xA8 || s[2] == 0xA9 || s[2] == 0xAF) then 3
    else if s[0] == 0xE2 && s[1] == 0x81 && s[2] == 0x9F then 3
    else if s[0] == 0xE3 && s[1] == 0x80 && s[2] == 0x80 then 3
    else 0
  }

  /** How many bytes `trim_start` removes. */
  function SpacePrefix(s: Bytes): (n: nat)
    ensures n <= |s|
    decreases |s|
  {
    var n := SpaceLength(s);
    if n == 0 then 0 else n + SpacePrefix(s[n..])
  }

  // ----- the scan -----

  /** The end of the closing line that starts after the line break at i, if there is one. */
  function CloserAfter(s: Bytes, i: nat): (end: Option<nat>)
    requires i < |s|
  {
    var start := i + 1;
    if s[i] != NEWLINE || start + 3 > |s| || s[start..start + 3] != DASHES then None
    else
      var after := start + 3;
      if after == |s| then Some(after)
      else if s[after] == NEWLINE then Some(after + 1)
      else if after + 1 < |s| && s[after] == RETURN && s[after + 1] == NEWLINE then Some(after + 2)
      else None
  }

  function AsSequence(end: Option<nat>): seq<nat>
  {
    if end.Some? then [end.value] else []
  }

  function ScanFrom(s: Bytes, i: nat): seq<nat>
    requires i <= |s|
    decreases |s| - i
  {
    if i == |s| then [] else AsSequence(CloserAfter(s, i)) + ScanFrom(s, i + 1)
  }

  // ----- the lines -----

  /** The end of the line that starts at a position, after its line break if it has one. */
  function LineEnd(s: Bytes, start: nat): (end: nat)
    requires start <= |s|
    ensures start <= end <= |s|
    ensures start < |s| ==> start < end
    ensures end == |s| || (start < end && s[end - 1] == NEWLINE)
    decreases |s| - start
  {
    if start == |s| then start
    else if s[start] == NEWLINE then start + 1
    else LineEnd(s, start + 1)
  }

  lemma {:induction false} OneBreakInLine(s: Bytes, start: nat)
    requires start <= |s|
    ensures forall k :: start <= k < LineEnd(s, start) - 1 ==> s[k] != NEWLINE
    decreases |s| - start
  {
    if start < |s| && s[start] != NEWLINE {
      OneBreakInLine(s, start + 1);
    }
  }

  predicate IsCloser(line: Bytes)
  {
    line == DASHES || line == DASHES + [NEWLINE] || line == DASHES + [RETURN, NEWLINE]
  }

  predicate InRange(ends: seq<nat>, low: nat, high: nat)
  {
    forall k :: 0 <= k < |ends| ==> low <= ends[k] <= high
  }

  function CloserAt(s: Bytes, start: nat): (ends: seq<nat>)
    requires start <= |s|
    ensures InRange(ends, start + 3, |s|)
  {
    var end := LineEnd(s, start);
    if IsCloser(s[start..end]) then [end] else []
  }

  /** The ends of the lines from a line start on that consist of three dashes only. */
  function ClosersFrom(s: Bytes, start: nat): (ends: seq<nat>)
    requires start <= |s|
    ensures InRange(ends, start + 3, |s|)
    decreases |s| - start
  {
    if start == |s| then []
    else
      CloserAt(s, start) + ClosersFrom(s, LineEnd(s, start))
  }

  /** The ends of the closing lines after the first line. */
  function Closers(s: Bytes): seq<nat>
  {
    ClosersFrom(s, LineEnd(s, 0))
  }

  lemma LineEndIs(s: Bytes, start: nat, end: nat)
    requires start < end <= |s|
    requires forall k :: start <= k < end - 1 ==> s[k] != NEWLINE
    requires end == |s| || s[end - 1] == NEWLINE
    ensures LineEnd(s, start) == end
  {
    var e := LineEnd(s, start);
    OneBreakInLine(s, start);
    assert e == |s| || s[e - 1] == NEWLINE;
  }

  lemma DashesAt(s: Bytes, start: nat)
    requires start + 3 <= |s|
    ensures s[start..start + 3] == DASHES <==> s[start] == s[start + 1] == s[start + 2] == DASH
  {
  }

  lemma FoundIsCloser(s: Bytes, i: nat)
    requires i < |s| && CloserAfter(s, i).Some?
    ensures CloserAfter(s, i) == Some(LineEnd(s, i + 1))
    ensures IsCloser(s[i + 1..LineEnd(s, i + 1)])
  {
    var start, end := i + 1, CloserAfter(s, i).value;
    DashesAt(s, start);
    LineEndIs(s, start, end);
    assert s[start..end] == s[start..start + 3] + s[start + 3..end];
  }

  lemma CloserBytes(line: Bytes)
    requires IsCloser(line)
    ensures 3 <= |line| <= 5 && line[0] == line[1] == line[2] == DASH
    ensures |line| == 4 ==> line[3] == NEWLINE
    ensures |line| == 5 ==> line[3] == RETURN && line[4] == NEWLINE
  {
  }

  /** The bytes of a closing line, where it starts. */
  predicate CloserBetween(s: Bytes, start: nat, end: nat)
  {
    && start + 3 <= end <= |s| && s[start] == s[start + 1] == s[start + 2] == DASH
    && (|| end == start + 3 == |s|
        || (end == start + 4 && s[start + 3] == NEWLINE)
        || (end == start + 5 && s[start + 3] == RETURN && s[start + 4] == NEWLINE))
  }

  lemma BytesAreFound(s: Bytes, i: nat, end: nat)
    requires i < |s| && s[i] == NEWLINE && CloserBetween(s, i + 1, end)
    ensures CloserAfter(s, i) == Some(end)
  {
  }

  lemma LineIsBytes(s: Bytes, start: nat)
    requires start <= |s| && IsCloser(s[start..LineEnd(s, start)])
    ensures CloserBetween(s, start, LineEnd(s, start))
  {
  }

  /** Nothing is found inside a line. */
  lemma {:induction false} ScanSkips(s: Bytes, i: nat, j: nat)
    requires i <= j <= |s| && forall k :: i <= k < j ==> s[k] != NEWLINE
    ensures ScanFrom(s, i) == ScanFrom(s, j)
    decreases j - i
  {
    if i < j {
      ScanSkips(s, i + 1, j);
    }
  }

  lemma ScanOverBreak(s: Bytes, end: nat)
    requires 0 < end <= |s| && s[end - 1] == NEWLINE
    ensures ScanFrom(s, end - 1) == CloserAt(s, end) + ScanFrom(s, end)
  {
    if CloserAfter(s, end - 1).Some? {
      FoundIsCloser(s, end - 1);
    } else if IsCloser(s[end..LineEnd(s, end)]) {
      LineIsBytes(s, end);
      BytesAreFound(s, end - 1, LineEnd(s, end));
    }
  }

  lemma {:induction false} ScanIsClosers(s: Bytes, start: nat)
    requires start <= |s|
    ensures ScanFrom(s, start) == ClosersFrom(s, LineEnd(s, start))
    decreases |s| - start
  {
    if start < |s| {
      var end := LineEnd(s, start);
      OneBreakInLine(s, start);
      if s[end - 1] != NEWLINE {
        ScanSkips(s, start, end);
      } else {
        ScanSkips(s, start, end - 1);
        ScanOverBreak(s, end);
        ScanIsClosers(s, end);
      }
    }
  }

  /**
    The scan finds the ends of exactly the lines, other than the first, that consist of three dashes
    and a line ending, in order.
  */
  lemma ScanFindsTheClosers(s: Bytes)
    ensures ScanFrom(s, 0) == Closers(s)
  {
    ScanIsClosers(s, 0);
  }

  predicate Increasing(ends: seq<nat>)
  {
    forall j, k :: 0 <= j < k < |ends| ==> ends[j] < ends[k]
  }

  predicate IsLineEnd(s: Bytes, end: nat)
  {
    0 < end <= |s| && (end == |s| || s[end - 1] == NEWLINE)
  }

  lemma IncreasingConcat(head: seq<nat>, end: nat, rest: seq<nat>)
    requires (head == [] || head == [end]) && Increasing(rest) && forall k :: 0 <= k < |rest| ==> end < rest[k]
    ensures Increasing(head + rest)
  {
  }

  /** The ends found increase, and each is the end of the text or follows a line break. */
  lemma {:induction false} ClosersAreLineEnds(s: Bytes, start: nat)
    requires start <= |s|
    ensures forall end :: end in ClosersFrom(s, start) ==> IsLineEnd(s, end)
    ensures Increasing(ClosersFrom(s, start))
    decreases |s| - start
  {
    if start < |s| {
      var end := LineEnd(s, start);
      ClosersAreLineEnds(s, end);
      IncreasingConcat(CloserAt(s, start), end, ClosersFrom(s, end));
      assert forall e :: e in CloserAt(s, start) ==> e == end;
    }
  }

  // ----- choosing the closing line -----

  /** The first end whose text the parser accepts; the last error otherwise. */
  function TryEnds<M, E>(s: Bytes, ends: seq<nat>, parse: Bytes -> Parsed<M, E>, last: Option<E>): Extraction<M, E>
    requires InRange(ends, 0, |s|)
  {
    if ends == [] then Invalid(last)
    else
      var end := ends[0];
      match parse(s[..end])
      case Metadata(m) => Extracted(m, s[end..])
      case NoDocument => TryEnds(s, ends[1..], parse, last)
      case Malformed(e) => TryEnds(s, ends[1..], parse, Some(e))
  }

  function ExtractTrimmed<M, E>(s: Bytes, parse: Bytes -> Parsed<M, E>): Extraction<M, E>
  {
    if !StartsWith(s, DASHES) then NoOpener
    else if Closers(s) == [] then NoCloser
    else TryEnds(s, Closers(s), parse, None)
  }

  function Extract<M, E>(content: Bytes, parse: Bytes -> Parsed<M, E>): Extraction<M, E>
  {
    if |content| > MAX_SKILL_FILE_SIZE then TooLarge
    else ExtractTrimmed(content[SpacePrefix(content)..], parse)
  }

  /** The error at the k-th candidate, and none after it is rejected with an error. */
  predicate IsErrorAt<M(==), E(==)>(s: Bytes, ends: seq<nat>, parse: Bytes -> Parsed<M, E>, k: nat, error: Option<E>)
    requires InRange(ends, 0, |s|)
  {
    && k < |ends| && parse(s[..ends[k]]).Malformed? && error == Some(parse(s[..ends[k]]).error)
    && forall j :: k < j < |ends| ==> !parse(s[..ends[j]]).Malformed?
  }

  /** The last error among the candidates that the parser rejects. */
  predicate IsLastError<M(==), E(==)>(s: Bytes, ends: seq<nat>, parse: Bytes -> Parsed<M, E>, last: Option<E>, error: Option<E>)
    requires InRange(ends, 0, |s|)
  {
    || (exists k :: 0 <= k < |ends| && IsErrorAt(s, ends, parse, k, error))
    || (error == last && forall k :: 0 <= k < |ends| ==> !parse(s[..ends[k]]).Malformed?)
  }

  lemma {:induction false} InvalidExactly<M(!new), E(!new)>(s: Bytes, ends: seq<nat>, parse: Bytes -> Parsed<M, E>, last: Option<E>)
    requires InRange(ends, 0, |s|) && forall k :: 0 <= k < |ends| ==> !parse(s[..ends[k]]).Metadata?
    ensures TryEnds(s, ends, parse, last).Invalid?
    ensures IsLastError(s, ends, parse, last, TryEnds(s, ends, parse, last).lastError)
    decreases |ends|
  {
    if ends != [] {
      var rest := ends[1..];
      assert forall k :: 0 <= k < |rest| ==> rest[k] == ends[k + 1];
      var first := parse(s[..ends[0]]);
      var next := if first.Malformed? then Some(first.error) else last;
      InvalidExactly(s, rest, parse, next);
      var error := TryEnds(s, rest, parse, next).lastError;
      assert TryEnds(s, ends, parse, last) == TryEnds(s, rest, parse, next);
      if k :| 0 <= k < |rest| && IsErrorAt(s, rest, parse, k, error) {
        LaterError(s, ends, parse, k);
        assert IsErrorAt(s, ends, parse, k + 1, error);
      } else {
        forall j | 0 < j < |ends| ensures !parse(s[..ends[j]]).Malformed? {
          assert ends[j] == rest[j - 1];
        }
        assert first.Malformed? ==> IsErrorAt(s, ends, parse, 0, error);
      }
    }
  }

  lemma LaterError<M(!new), E(!new)>(s: Bytes, ends: seq<nat>, parse: Bytes -> Parsed<M, E>, k: nat)
    requires InRange(ends, 0, |s|) && ends != [] && k < |ends[1..]|
    requires forall j :: k < j < |ends[1..]| ==> !parse(s[..ends[1..][j]]).Malformed?
    ensures ends[1..][k] == ends[k + 1]
    ensures forall j :: k + 1 < j < |ends| ==> !parse(s[..ends[j]]).Malformed?
  {
    forall j | k + 1 < j < |ends| ensures !parse(s[..ends[j]]).Malformed? {
      assert ends[1..][j - 1] == ends[j];
    }
  }

  /**
    Which error there is: a file of more than 100 kilobytes is too large; one that does not begin with
    three dashes has no opener; one without a closing line has no closer; and if no text up to a closing
    line is accepted, the last error of the parser is reported.
  */
  lemma ErrorsExactly<M(!new), E(!new)>(content: Bytes, parse: Bytes -> Parsed<M, E>)
    ensures var s, r := content[SpacePrefix(content)..], Extract(content, parse);
            && (r.TooLarge? <==> |content| > 102_400)
            && (|content| <= 102_400 ==>
                  && (r.NoOpener? <==> |s| < 3 || !(s[0] == s[1] == s[2] == 45))
                  && (!r.NoOpener? ==>
                        && (r.NoCloser? <==> Closers(s) == [])
                        && (r.Invalid? ==> IsLastError(s, Closers(s), parse, None, r.lastError))))
  {
    var s := content[SpacePrefix(content)..];
    if |content| <= 102_400 && StartsWith(s, DASHES) && Closers(s) != [] {
      SplitsAtFirstAccepted(s, Closers(s), parse, None);
      if !ExtractTrimmed(s, parse).Extracted? {
        forall k | 0 <= k < |Closers(s)| ensures !parse(s[..Closers(s)[k]]).Metadata? {
          NoneAccepted(s, Closers(s), parse, k);
        }
        InvalidExactly(s, Closers(s), parse, None);
      }
    }
    if |s| >= 3 {
      DashesAt(s, 0);
    }
  }

  lemma {:induction false} NoneAccepted<M(!new), E(!new)>(s: Bytes, ends: seq<nat>, parse: Bytes -> Parsed<M, E>, k: nat)
    requires InRange(ends, 0, |s|) && k < |ends|
    requires forall j: nat :: !AcceptedAt(s, ends, parse, j)
    ensures !parse(s[..ends[k]]).Metadata?
    decreases k
  {
    forall j | 0 <= j < k ensures !parse(s[..ends[j]]).Metadata? {
      NoneAccepted(s, ends, parse, j);
    }
    assert !AcceptedAt(s, ends, parse, k);
  }

  lemma ScanStep(s: Bytes, i: nat, found: seq<nat>)
    requires i < |s|
    ensures found + AsSequence(CloserAfter(s, i)) + ScanFrom(s, i + 1) == found + ScanFrom(s, i)
    ensures CloserAfter(s, i) == None ==> found + AsSequence(CloserAfter(s, i)) == found
  {
    var one, rest := AsSequence(CloserAfter(s, i)), ScanFrom(s, i + 1);
    assert ScanFrom(s, i) == one + rest;
    Associative(found, one, rest);
  }

  method ScanForClosers(s: Bytes) returns (candidates: seq<nat>)
    ensures candidates == Closers(s)
  {
    candidates := [];
    for i := 0 to |s|
      invariant candidates + ScanFrom(s, i) == ScanFrom(s, 0)
    {
      ScanStep(s, i, candidates);
      if s[i] != NEWLINE {
        continue;
      }
      var lineStart := i + 1;
      if lineStart + 3 > |s| || s[lineStart..lineStart + 3] != DASHES {
        continue;
      }
      var afterDashes := lineStart + 3;
      var end;
      if afterDashes == |s| {
        end := afterDashes;
      } else if s[afterDashes] == NEWLINE {
        end := afterDashes + 1;
      } else if afterDashes + 1 < |s| && s[afterDashes] == RETURN && s[afterDashes + 1] == NEWLINE {
        end := afterDashes + 2;
      } else {
        continue;
      }
      assert CloserAfter(s, i) == Some(end);
      candidates := candidates + [end];
    }
    ScanFindsTheClosers(s);
  }

  method ExtractSkillFrontmatter<M, E>(content: Bytes, parse: Bytes -> Parsed<M, E>) returns (r: Extraction<M, E>)
    ensures r == Extract(content, parse)
  {
    if |content| > MAX_SKILL_FILE_SIZE {
      return TooLarge;
    }
    var s := content[SpacePrefix(content)..];
    if !StartsWith(s, DASHES) {
      return NoOpener;
    }
    var candidates := ScanForClosers(s);
    if candidates == [] {
      return NoCloser;
    }
    var lastError: Option<E> := None;
    for k := 0 to |candidates|
      invariant TryEnds(s, candidates[k..], parse, lastError) == TryEnds(s, candidates, parse, None)
    {
      var end := candidates[k];
      assert candidates[k..][1..] == candidates[k + 1..];
      match parse(s[..end])
      case NoDocument =>
      case Metadata(m) => return Extracted(m, s[end..]);
      case Malformed(e) => lastError := Some(e);
    }
    return Invalid(lastError);
  }

  // ----- what the extraction returns -----

  predicate AcceptedAt<M(==), E(==)>(s: Bytes, ends: seq<nat>, parse: Bytes -> Parsed<M, E>, k: nat)
    requires InRange(ends, 0, |s|)
  {
    && k < |ends| && parse(s[..ends[k]]).Metadata?
    && forall j :: 0 <= j < k ==> !parse(s[..ends[j]]).Metadata?
  }

  /** The text is split at the first end whose prefix the parser accepts, if there is one. */
  lemma {:induction false} SplitsAtFirstAccepted<M, E>(s: Bytes, ends: seq<nat>, parse: Bytes -> Parsed<M, E>,
                                                       last: Option<E>)
    requires InRange(ends, 0, |s|)
    ensures forall k: nat :: AcceptedAt(s, ends, parse, k) ==>
              TryEnds(s, ends, parse, last) == Extracted(parse(s[..ends[k]]).metadata, s[ends[k]..])
    ensures TryEnds(s, ends, parse, last).Extracted? ==> exists k: nat :: AcceptedAt(s, ends, parse, k)
    ensures TryEnds(s, ends, parse, last).Extracted? || TryEnds(s, ends, parse, last).Invalid?
    decreases |ends|
  {
    if ends != [] {
      var rest := ends[1..];
      var parsed := parse(s[..ends[0]]);
      if parsed.Metadata? {
        assert AcceptedAt(s, ends, parse, 0);
      } else {
        var next := if parsed.Malformed? then Some(parsed.error) else last;
        SplitsAtFirstAccepted(s, rest, parse, next);
        if TryEnds(s, rest, parse, next).Extracted? {
          var k: nat :| AcceptedAt(s, rest, parse, k);
          assert AcceptedAt(s, ends, parse, k + 1) by {
            assert forall j :: 0 < j <= k + 1 ==> ends[j] == rest[j - 1];
          }
        }
        forall k: nat | AcceptedAt(s, ends, parse, k)
          ensures TryEnds(s, ends, parse, last) == Extracted(parse(s[..ends[k]]).metadata, s[ends[k]..])
        {
          assert forall j :: 0 <= j < |rest| ==> rest[j] == ends[j + 1];
          assert AcceptedAt(s, rest, parse, k - 1);
        }
      }
    }
  }

  // ----- replacing the body -----

  lemma SpaceLengthIsLocal(a: Bytes, b: Bytes, k: nat)
    requires 0 < k <= |a| && k <= |b| && a[..k] == b[..k]
    requires SpaceLength(a) <= k && (SpaceLength(a) == 0 ==> a[0] == DASH)
    ensures SpaceLength(b) == SpaceLength(a)
  {
  }

  lemma DropOfTake(s: Bytes, k: nat, n: nat)
    requires n <= k <= |s|
    ensures s[n..][..k - n] == s[..k][n..]
  {
  }

  lemma DropsAgree(a: Bytes, b: Bytes, k: nat, n: nat)
    requires n <= k < |a| && k < |b| && a[..k + 1] == b[..k + 1]
    ensures a[n..][..k - n + 1] == b[n..][..k - n + 1]
  {
    DropOfTake(a, k + 1, n);
    DropOfTake(b, k + 1, n);
  }

  /** The white space before the opening line does not depend on what follows it. */
  lemma {:induction false} SpacePrefixIsLocal(a: Bytes, b: Bytes, k: nat)
    requires k == SpacePrefix(a) && k < |a| && a[k] == DASH && k < |b| && a[..k + 1] == b[..k + 1]
    ensures SpacePrefix(b) == k
    decreases |a|
  {
    var n := SpaceLength(a);
    SpaceLengthIsLocal(a, b, k + 1);
    if n > 0 {
      DropsAgree(a, b, k, n);
      SpacePrefixIsLocal(a[n..], b[n..], k - n);
    }
  }

  /** What follows a line break does not change the lines before it. */
  lemma LineEndIsLocal(s: Bytes, e: nat, start: nat)
    requires start < e <= |s| && s[e - 1] == NEWLINE
    ensures LineEnd(s, start) == LineEnd(s[..e], start) <= e
  {
    OneBreakInLine(s[..e], start);
    LineEndIs(s, start, LineEnd(s[..e], start));
  }

  lemma CloserAtIsLocal(s: Bytes, e: nat, start: nat)
    requires start < e <= |s| && s[e - 1] == NEWLINE
    ensures CloserAt(s, start) == CloserAt(s[..e], start)
  {
    LineEndIsLocal(s, e, start);
    assert s[..e][start..LineEnd(s, start)] == s[start..LineEnd(s, start)];
  }

  lemma {:induction false} ClosersAreLocal(s: Bytes, e: nat, start: nat)
    requires start <= e <= |s| && (start == e || s[e - 1] == NEWLINE)
    ensures ClosersFrom(s, start) == ClosersFrom(s[..e], start) + ClosersFrom(s, e)
    decreases e - start
  {
    if start < e {
      var end := LineEnd(s, start);
      LineEndIsLocal(s, e, start);
      CloserAtIsLocal(s, e, start);
      ClosersAreLocal(s, e, end);
      Associative(CloserAt(s, start), ClosersFrom(s[..e], end), ClosersFrom(s, e));
    }
  }

  /** A closing line at the end of the text, without a line break, is the last three bytes. */
  lemma {:induction false} UnbrokenCloser(s: Bytes, start: nat)
    requires start <= |s| && |s| in ClosersFrom(s, start) && s[|s| - 1] != NEWLINE
    ensures start <= |s| - 3 && s[|s| - 3..] == DASHES
    ensures start == |s| - 3 || s[|s| - 4] == NEWLINE
    decreases |s| - start
  {
    var end := LineEnd(s, start);
    if end == |s| {
      var line := s[start..end];
      assert IsCloser(line);
      CloserBytes(line);
      assert line[|line| - 1] == s[|s| - 1];
      assert s[|s| - 3..] == line;
    } else {
      UnbrokenCloser(s, end);
    }
  }

  /** The candidates up to a broken closing line are those of the text cut there. */
  lemma ClosersUpTo(s: Bytes, k: nat)
    requires k < |Closers(s)| && s[Closers(s)[k] - 1] == NEWLINE
    ensures var e := Closers(s)[k];
            LineEnd(s, 0) <= e && ClosersFrom(s[..e], LineEnd(s, 0)) == Closers(s)[..k + 1]
  {
    var first, ends := LineEnd(s, 0), Closers(s);
    var e := ends[k];
    ClosersAreLocal(s, e, first);
    ClosersAreLineEnds(s, first);
    var a, b := ClosersFrom(s[..e], first), ClosersFrom(s, e);
    SplitPoint(a, b, k, e);
  }

  lemma SplitPoint(a: seq<nat>, b: seq<nat>, k: nat, e: nat)
    requires Increasing(a + b)
    requires k < |a + b| && (a + b)[k] == e
    requires (forall i :: 0 <= i < |a| ==> a[i] <= e) && forall i :: 0 <= i < |b| ==> b[i] > e
    ensures a == (a + b)[..k + 1]
  {
    assert a != [] ==> (a + b)[|a| - 1] == a[|a| - 1];
  }

  lemma PrefixOfPrefix(s: Bytes, t: Bytes, e: nat, d: nat)
    requires d <= e <= |s| && e <= |t| && s[..e] == t[..e]
    ensures s[..d] == t[..d]
  {
  }

  /** After a closing line that ends in a line break, any other body leaves the metadata as it is. */
  lemma BodyIsFree<M, E>(s: Bytes, parse: Bytes -> Parsed<M, E>, k: nat, newBody: Bytes)
    requires StartsWith(s, DASHES) && AcceptedAt(s, Closers(s), parse, k) && s[Closers(s)[k] - 1] == NEWLINE
    ensures var e := Closers(s)[k];
            ExtractTrimmed(s[..e] + newBody, parse) == Extracted(parse(s[..e]).metadata, newBody)
  {
    var ends := Closers(s);
    var e := ends[k];
    var t := s[..e] + newBody;
    assert t[..e] == s[..e] && t[e..] == newBody && t[e - 1] == s[e - 1];
    PrefixOfPrefix(s, t, e, 3);
    LineEndIsLocal(s, e, 0);
    LineEndIsLocal(t, e, 0);
    ClosersUpTo(s, k);
    ClosersAreLocal(t, e, LineEnd(t, 0));
    var more := Closers(t);
    assert more == ends[..k + 1] + ClosersFrom(t, e);
    ClosersAreLineEnds(s, LineEnd(s, 0));
    forall j | 0 <= j <= k ensures more[j] == ends[j] && t[..more[j]] == s[..ends[j]] {
      assert ends[j] <= ends[k];
      PrefixOfPrefix(s, t, e, ends[j]);
    }
    assert AcceptedAt(t, more, parse, k);
    SplitsAtFirstAccepted(t, more, parse, None);
  }

  const LETTER: Byte := 120

  lemma SameBeforeLetter(s: Bytes, start: nat)
    requires start <= |s|
    ensures (s + [LETTER])[..start] == s[..start] && (s + [LETTER])[start..|s|] == s[start..]
  {
  }

  /** A closing line without a line break is the last candidate, and none once a letter follows. */
  lemma UnbrokenCloserAlone(s: Bytes)
    requires |s| in Closers(s) && s[|s| - 1] != NEWLINE
    ensures Closers(s) == Closers(s + [LETTER]) + [|s|]
  {
    var t := s + [LETTER];
    var start := |s| - 3;
    UnbrokenCloser(s, LineEnd(s, 0));
    SameBeforeLetter(s, start);
    LastLine(s, start);
    LastLine(t, start);
    EmptyIsNeutral(Closers(s[..start]));
  }

  lemma ClosersBefore(s: Bytes, start: nat)
    requires 0 < start <= |s| && s[start - 1] == NEWLINE
    ensures Closers(s) == Closers(s[..start]) + ClosersFrom(s, start)
  {
    LineEndIsLocal(s, start, 0);
    ClosersAreLocal(s, start, LineEnd(s, 0));
  }

  lemma UnbrokenCloserIsLost<M, E>(s: Bytes, parse: Bytes -> Parsed<M, E>, k: nat)
    requires AcceptedAt(s, Closers(s), parse, k) && s[Closers(s)[k] - 1] != NEWLINE
    ensures Closers(s)[k] == |s| && !ExtractTrimmed(s + [LETTER], parse).Extracted?
  {
    var ends := Closers(s);
    var t := s + [LETTER];
    ClosersAreLineEnds(s, LineEnd(s, 0));
    assert IsLineEnd(s, ends[k]);
    UnbrokenCloserAlone(s);
    var before := Closers(t);
    forall j | 0 <= j < |before| ensures !parse(t[..before[j]]).Metadata? {
      assert before[j] == ends[j] && ends[j] < ends[|before|] == |s| && j < k;
      PrefixOfPrefix(s, t, |s|, ends[j]);
    }
    SplitsAtFirstAccepted(t, before, parse, None);
  }

  lemma LastLineOf(s: Bytes, start: nat)
    requires start + 3 <= |s| <= start + 4 && s[start..start + 3] == DASHES && s[|s| - 1] != NEWLINE
    ensures ClosersFrom(s, start) == if |s| == start + 3 then [|s|] else []
  {
    DashesAt(s, start);
    LineEndIs(s, start, |s|);
    var line := s[start..|s|];
    if |s| == start + 3 {
      assert line == DASHES;
    } else {
      assert line[3] == s[|s| - 1];
    }
  }

  lemma LastLine(s: Bytes, start: nat)
    requires 0 < start <= |s| && s[start - 1] == NEWLINE
    requires start + 3 <= |s| <= start + 4 && s[start..start + 3] == DASHES && s[|s| - 1] != NEWLINE
    ensures Closers(s) == Closers(s[..start]) + if |s| == start + 3 then [|s|] else []
  {
    ClosersBefore(s, start);
    LastLineOf(s, start);
  }

  /** The text up to and including the closing line. */
  function Front<M, E>(content: Bytes, extraction: Extraction<M, E>): Bytes
    requires extraction.Extracted? && |extraction.body| <= |content|
  {
    content[..|content| - |extraction.body|]
  }

  /** Every body that fits in the size limit comes back as it was put in, with the same metadata. */
  ghost predicate BodyIsReplaceable<M(!new), E(!new)>(front: Bytes, metadata: M, parse: Bytes -> Parsed<M, E>)
  {
    forall body: Bytes :: |front| + |body| <= MAX_SKILL_FILE_SIZE ==>
      Extract(front + body, parse) == Extracted(metadata, body)
  }

  lemma SameSpace(space: Bytes, s: Bytes, t: Bytes)
    requires s != [] && s[0] == DASH && t != [] && t[0] == DASH
    ensures var k := |space|;
            (space + s)[k] == DASH && (space + s)[..k + 1] == (space + t)[..k + 1] && (space + t)[k..] == t
  {
    var k := |space|;
    assert (space + s)[..k + 1] == space + [DASH] && (space + t)[..k + 1] == space + [DASH];
  }

  lemma TextAfterSpace<M, E>(space: Bytes, s: Bytes, t: Bytes, parse: Bytes -> Parsed<M, E>)
    requires s != [] && s[0] == DASH && SpacePrefix(space + s) == |space|
    requires t != [] && t[0] == DASH && |space| + |t| <= MAX_SKILL_FILE_SIZE
    ensures Extract(space + t, parse) == ExtractTrimmed(t, parse)
  {
    SameSpace(space, s, t);
    SpacePrefixIsLocal(space + s, space + t, |space|);
  }

  /** Where the parser accepted the text, and which body is left. */
  lemma AcceptedEnd<M, E>(s: Bytes, parse: Bytes -> Parsed<M, E>) returns (k: nat, e: nat)
    requires ExtractTrimmed(s, parse).Extracted?
    ensures StartsWith(s, DASHES) && AcceptedAt(s, Closers(s), parse, k) && e == Closers(s)[k] && 3 <= e <= |s|
    ensures ExtractTrimmed(s, parse) == Extracted(parse(s[..e]).metadata, s[e..])
  {
    SplitsAtFirstAccepted(s, Closers(s), parse, None);
    k :| AcceptedAt(s, Closers(s), parse, k);
    e := Closers(s)[k];
  }

  lemma OpenerStarts(s: Bytes)
    requires StartsWith(s, DASHES)
    ensures s[0] == DASH
  {
  }

  /** The same text up to and including the closing line, with another body. */
  lemma TrimmedWithBody<M, E>(s: Bytes, parse: Bytes -> Parsed<M, E>, front: Bytes, body: Bytes)
    requires ExtractTrimmed(s, parse).Extracted? && s == front + ExtractTrimmed(s, parse).body
    requires front != [] && front[|front| - 1] == NEWLINE
    ensures front[0] == DASH
    ensures ExtractTrimmed(front + body, parse) == Extracted(ExtractTrimmed(s, parse).metadata, body)
  {
    var k, e := AcceptedEnd(s, parse);
    assert |s[e..]| == |s| - e && |front| == e && front == s[..e];
    OpenerStarts(s);
    BodyIsFree(s, parse, k, body);
  }

  /** With nothing after a closing line that has no line break, a letter there loses the metadata. */
  lemma TrimmedWithLetter<M, E>(s: Bytes, parse: Bytes -> Parsed<M, E>, front: Bytes)
    requires ExtractTrimmed(s, parse).Extracted? && s == front + ExtractTrimmed(s, parse).body
    requires front != [] && front[|front| - 1] != NEWLINE
    ensures front == s && s[0] == DASH
    ensures !ExtractTrimmed(s + [LETTER], parse).Extracted?
  {
    var k, e := AcceptedEnd(s, parse);
    assert |s[e..]| == |s| - e && |front| == e && front == s[..e];
    OpenerStarts(s);
    UnbrokenCloserIsLost(s, parse, k);
  }

  /** White space, an opening line up to the accepted closing line, and the body that was found. */
  ghost predicate IsSplit<M(!new), E(!new)>(space: Bytes, front: Bytes, r: Extraction<M, E>, parse: Bytes -> Parsed<M, E>)
  {
    && r.Extracted? && front != [] && |space| + |front| <= MAX_SKILL_FILE_SIZE
    && SpacePrefix(space + (front + r.body)) == |space|
    && ExtractTrimmed(front + r.body, parse) == r
  }

  lemma TrimmedParts<M(!new), E(!new)>(space: Bytes, s: Bytes, parse: Bytes -> Parsed<M, E>) returns (front: Bytes)
    requires ExtractTrimmed(s, parse).Extracted?
    requires SpacePrefix(space + s) == |space| && |space| + |s| <= MAX_SKILL_FILE_SIZE
    ensures IsSplit(space, front, ExtractTrimmed(s, parse), parse) && s == front + ExtractTrimmed(s, parse).body
    ensures |front| >= 3
  {
    var k, e := AcceptedEnd(s, parse);
    front := s[..e];
    assert s == front + s[e..];
  }

  lemma Parts<M(!new), E(!new)>(content: Bytes, parse: Bytes -> Parsed<M, E>) returns (space: Bytes, front: Bytes)
    requires Extract(content, parse).Extracted?
    ensures IsSplit(space, front, Extract(content, parse), parse)
    ensures content == space + front + Extract(content, parse).body && |front| >= 3
  {
    space := content[..SpacePrefix(content)];
    var s := content[SpacePrefix(content)..];
    assert content == space + s;
    front := TrimmedParts(space, s, parse);
    Associative(space, front, ExtractTrimmed(s, parse).body);
  }

  lemma KeepsMetadata<M(!new), E(!new)>(space: Bytes, front: Bytes, r: Extraction<M, E>,
                                        parse: Bytes -> Parsed<M, E>, body: Bytes)
    requires IsSplit(space, front, r, parse) && front[|front| - 1] == NEWLINE
    requires |space| + |front| + |body| <= MAX_SKILL_FILE_SIZE
    ensures Extract(space + front + body, parse) == Extracted(r.metadata, body)
  {
    TrimmedWithBody(front + r.body, parse, front, body);
    TextAfterSpace(space, front + r.body, front + body, parse);
    Associative(space, front, body);
  }

  lemma LosesMetadata<M(!new), E(!new)>(space: Bytes, front: Bytes, r: Extraction<M, E>, parse: Bytes -> Parsed<M, E>)
    requires IsSplit(space, front, r, parse) && front[|front| - 1] != NEWLINE
    ensures r.body == []
    ensures |space| + |front| < MAX_SKILL_FILE_SIZE ==> !Extract(space + front + [LETTER], parse).Extracted?
  {
    var s := front + r.body;
    TrimmedWithLetter(s, parse, front);
    if |space| + |front| < MAX_SKILL_FILE_SIZE {
      TextAfterSpace(space, s, s + [LETTER], parse);
      Associative(space, s, [LETTER]);
    }
  }

  lemma SplitIsReplaceable<M(!new), E(!new)>(space: Bytes, front: Bytes, r: Extraction<M, E>,
                                             parse: Bytes -> Parsed<M, E>)
    requires IsSplit(space, front, r, parse) && Extract(space + front + r.body, parse) == r
    ensures BodyIsReplaceable(space + front, r.metadata, parse)
       <==> front[|front| - 1] == NEWLINE || |space + front| == MAX_SKILL_FILE_SIZE
  {
    if front[|front| - 1] == NEWLINE {
      forall body: Bytes | |space + front| + |body| <= MAX_SKILL_FILE_SIZE
        ensures Extract(space + front + body, parse) == Extracted(r.metadata, body)
      {
        KeepsMetadata(space, front, r, parse, body);
      }
    } else {
      LosesMetadata(space, front, r, parse);
      assert |space + front| + |[LETTER]| <= MAX_SKILL_FILE_SIZE ==>
          Extract(space + front + [LETTER], parse) != Extracted(r.metadata, [LETTER]);
      assert forall body: Bytes :: |body| == 0 ==> body == r.body;
    }
  }

  /**
    Replacing the body keeps the metadata, whatever the new body, exactly when the closing line ends in
    a line break, or there is no room for a body.
  */
  lemma BodyIsReplaceableExactly<M(!new), E(!new)>(content: Bytes, parse: Bytes -> Parsed<M, E>)
    requires Extract(content, parse).Extracted?
    ensures var r := Extract(content, parse);
            && |r.body| + 3 <= |content|
            && (BodyIsReplaceable(Front(content, r), r.metadata, parse)
                <==> Front(content, r)[|content| - |r.body| - 1] == NEWLINE
                     || |Front(content, r)| == MAX_SKILL_FILE_SIZE)
  {
    var space, front := Parts(content, parse);
    SplitIsReplaceable(space, front, Extract(content, parse), parse);
    assert Front(content, Extract(content, parse)) == space + front;
  }

  /** A skill without a body, whose closing line is the end of the file: a line `name: a` between dashes. */
  const NAME_LINE: Bytes := [110, 97, 109, 101, 58, 32, 97]
  const UNBROKEN: Bytes := DASHES + [NEWLINE] + NAME_LINE + [NEWLINE] + DASHES

  lemma ClosersOfUnbroken()
    ensures SpacePrefix(UNBROKEN) == 0 && SpacePrefix(UNBROKEN + [LETTER]) == 0
    ensures StartsWith(UNBROKEN, DASHES) && Closers(UNBROKEN) == [|UNBROKEN|]
  {
    LineEndIs(UNBROKEN, 0, 4);
    LineEndIs(UNBROKEN, 4, 12);
    LineEndIs(UNBROKEN, 12, 15);
    assert !IsCloser(UNBROKEN[4..12]) by { assert |UNBROKEN[4..12]| == 8; }
    assert UNBROKEN[12..15] == DASHES;
    assert ClosersFrom(UNBROKEN, 15) == [] && ClosersFrom(UNBROKEN, 12) == [15];
  }

  /** It is read by every parser that accepts it, and no longer once a letter follows. */
  lemma UnbrokenSkillIsLost<M, E>(parse: Bytes -> Parsed<M, E>)
    requires parse(UNBROKEN).Metadata?
    ensures Extract(UNBROKEN, parse) == Extracted(parse(UNBROKEN).metadata, [])
    ensures !Extract(UNBROKEN + [LETTER], parse).Extracted?
  {
    ClosersOfUnbroken();
    assert UNBROKEN[..15] == UNBROKEN && UNBROKEN[15..] == [];
    assert AcceptedAt(UNBROKEN, Closers(UNBROKEN), parse, 0);
    SplitsAtFirstAccepted(UNBROKEN, Closers(UNBROKEN), parse, None);
    UnbrokenCloserIsLost(UNBROKEN, parse, 0);
  }
}
