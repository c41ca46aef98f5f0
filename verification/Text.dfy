/**
  Splitting and joining of text, as the Rust and Python standard libraries do it. White space
  differs between the two languages, so the functions that need it take it as a parameter.
*/
module Text {

  /** The pieces of s between the occurrences of sep; there is always at least one. */
  function Split(s: string, sep: char): (pieces: seq<string>)
    ensures |pieces| >= 1
  {
    if s == "" then [""]
    else if s[0] == sep then [""] + Split(s[1..], sep)
    else
      var rest := Split(s[1..], sep);
      [[s[0]] + rest[0]] + rest[1..]
  }

  function Join(pieces: seq<string>, sep: string): string
  {
    if |pieces| == 0 then ""
    else if |pieces| == 1 then pieces[0]
    else pieces[0] + sep + Join(pieces[1..], sep)
  }

  lemma {:induction false} SplitOnePiece(s: string, sep: char)
    requires sep !in s
    ensures Split(s, sep) == [s]
  {
    if s != "" {
      assert s[0] in s && [s[0]] + s[1..] == s;
      SplitOnePiece(s[1..], sep);
    }
  }

  /** A separator splits what is before it from what follows. */
  lemma {:induction false} SplitAppend(s: string, sep: char, rest: string)
    ensures Split(s + [sep] + rest, sep) == Split(s, sep) + Split(rest, sep)
  {
    var t := s + [sep] + rest;
    if s == "" {
      assert t[1..] == rest;
    } else {
      assert t[0] == s[0] && t[1..] == s[1..] + [sep] + rest;
      SplitAppend(s[1..], sep, rest);
    }
  }

  lemma SplitFirstPiece(s: string, sep: char, rest: string)
    requires sep !in s
    ensures Split(s + [sep] + rest, sep) == [s] + Split(rest, sep)
  {
    SplitAppend(s, sep, rest);
    SplitOnePiece(s, sep);
  }

  /** Splitting undoes joining when no piece contains the separator. */
  lemma {:induction false} SplitJoin(pieces: seq<string>, sep: char)
    requires |pieces| >= 1
    requires forall i :: 0 <= i < |pieces| ==> sep !in pieces[i]
    ensures Split(Join(pieces, [sep]), sep) == pieces
  {
    if |pieces| == 1 {
      SplitOnePiece(pieces[0], sep);
    } else {
      SplitJoin(pieces[1..], sep);
      SplitFirstPiece(pieces[0], sep, Join(pieces[1..], [sep]));
    }
  }

  /** The pieces of a split hold only characters of the text, and never the separator. */
  lemma {:induction false} SplitPieces(s: string, sep: char)
    ensures forall p, c :: p in Split(s, sep) && c in p ==> c in s && c != sep
  {
    if s != "" {
      SplitPieces(s[1..], sep);
    }
  }

  // ----- words -----

  predicate IsWord(w: string, isSpace: char -> bool)
  {
    w != "" && forall c :: c in w ==> !isSpace(c)
  }

  /** The length of the longest space-free prefix of s. */
  function WordLength(s: string, isSpace: char -> bool): (n: nat)
    ensures n <= |s|
    ensures forall i :: 0 <= i < n ==> !isSpace(s[i])
    ensures n < |s| ==> isSpace(s[n])
  {
    if s == "" || isSpace(s[0]) then 0 else 1 + WordLength(s[1..], isSpace)
  }

  /** The maximal runs of non-space characters: `split_whitespace` in Rust, `split()` in Python. */
  function Words(s: string, isSpace: char -> bool): (ws: seq<string>)
    ensures forall i :: 0 <= i < |ws| ==> IsWord(ws[i], isSpace)
    decreases |s|
  {
    if s == "" then []
    else if isSpace(s[0]) then Words(s[1..], isSpace)
    else
      var n := WordLength(s, isSpace);
      [s[..n]] + Words(s[n..], isSpace)
  }

  function TrimStart(s: string, isSpace: char -> bool): string
  {
    if s != "" && isSpace(s[0]) then TrimStart(s[1..], isSpace) else s
  }

  function TrimEnd(s: string, isSpace: char -> bool): string
  {
    if s != "" && isSpace(s[|s| - 1]) then TrimEnd(s[..|s| - 1], isSpace) else s
  }

  function Trim(s: string, isSpace: char -> bool): string
  {
    TrimEnd(TrimStart(s, isSpace), isSpace)
  }

  lemma {:induction false} FirstWord(w: string, rest: string, isSpace: char -> bool)
    requires IsWord(w, isSpace)
    requires rest == "" || isSpace(rest[0])
    ensures Words(w + rest, isSpace) == [w] + Words(rest, isSpace)
  {
    var s := w + rest;
    var n := WordLength(s, isSpace);
    assert forall i :: 0 <= i < |w| ==> s[i] == w[i] && w[i] in w;
    assert rest != "" ==> s[|w|] == rest[0];
    assert s[..n] == w && s[n..] == rest;
  }

  /** Words joined by single spaces are found again. */
  lemma {:induction false} WordsOfJoin(ws: seq<string>, isSpace: char -> bool)
    requires isSpace(' ')
    requires forall i :: 0 <= i < |ws| ==> IsWord(ws[i], isSpace)
    ensures Words(Join(ws, " "), isSpace) == ws
  {
    if |ws| == 1 {
      FirstWord(ws[0], "", isSpace);
      assert ws[0] + "" == ws[0];
    } else if |ws| > 1 {
      WordsOfJoin(ws[1..], isSpace);
      var tail := " " + Join(ws[1..], " ");
      assert tail[1..] == Join(ws[1..], " ");
      FirstWord(ws[0], tail, isSpace);
      assert ws[0] + " " + Join(ws[1..], " ") == ws[0] + tail;
    }
  }

  lemma {:induction false} TrailingSpace(s: string, isSpace: char -> bool)
    requires s != "" && isSpace(s[|s| - 1])
    ensures Words(s[..|s| - 1], isSpace) == Words(s, isSpace)
    decreases |s|
  {
    var front := s[..|s| - 1];
    if isSpace(s[0]) {
      if |s| > 1 {
        TrailingSpace(s[1..], isSpace);
        assert front[1..] == s[1..][..|s| - 2];
      }
    } else {
      var n := WordLength(s, isSpace);
      assert s[..n] == front[..n];
      if n < |s| - 1 {
        TrailingSpace(s[n..], isSpace);
        assert s[n..][..|s| - n - 1] == front[n..];
        assert front == s[..n] + front[n..];
        FirstWord(s[..n], front[n..], isSpace);
      } else {
        assert s[n..][1..] == "";
        FirstWord(front, "", isSpace);
        assert front + "" == front;
      }
    }
  }

  /** Trimming first makes no difference to the words of a text. */
  lemma {:induction false} WordsOfTrim(s: string, isSpace: char -> bool)
    ensures Words(Trim(s, isSpace), isSpace) == Words(s, isSpace)
  {
    WordsOfTrimStart(s, isSpace);
    WordsOfTrimEnd(TrimStart(s, isSpace), isSpace);
  }

  lemma {:induction false} WordsOfTrimStart(s: string, isSpace: char -> bool)
    ensures Words(TrimStart(s, isSpace), isSpace) == Words(s, isSpace)
  {
    if s != "" && isSpace(s[0]) {
      WordsOfTrimStart(s[1..], isSpace);
    }
  }

  lemma {:induction false} WordsOfTrimEnd(s: string, isSpace: char -> bool)
    ensures Words(TrimEnd(s, isSpace), isSpace) == Words(s, isSpace)
  {
    if s != "" && isSpace(s[|s| - 1]) {
      TrailingSpace(s, isSpace);
      WordsOfTrimEnd(s[..|s| - 1], isSpace);
    }
  }

  /** Trimming leaves a text alone when neither end is white space. */
  lemma TrimNothing(s: string, isSpace: char -> bool)
    requires s != "" && !isSpace(s[0]) && !isSpace(s[|s| - 1])
    ensures Trim(s, isSpace) == s
  {
  }
}
