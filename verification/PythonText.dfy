/**
  The parts of Python's `str` and `int` that the scripts rely on: white space, decimal printing and
  parsing, and the first occurrence of a substring.
*/
module PythonText {
  import opened Decimals
  import opened Wrappers
  import opened Text
  import RustText

  /** `str.isspace` of one character, which `strip()` and `split()` use. */
  predicate IsSpace(c: char)
  {
    || '\U{0009}' <= c <= '\U{000D}' || '\U{001C}' <= c <= ' ' || c == '\U{0085}' || c == '\U{00A0}'
    || c == '\U{1680}' || '\U{2000}' <= c <= '\U{200A}' || c == '\U{2028}' || c == '\U{2029}' || c == '\U{202F}'
    || c == '\U{205F}' || c == '\U{3000}'
  }

  /** Python also takes the four separators of ASCII for white space; otherwise it agrees with Rust. */
  lemma WhiteSpaceAgrees(c: char)
    ensures IsSpace(c) <==> RustText.IsSpace(c) || 28 <= c as int <= 31
  {
  }

  // ----- integers -----

  /** Digits, with single underscores allowed between them. */
  function ParseDigits(s: string): Option<nat>
  {
    var n := |s| - 1;
    if n < 0 || !IsDigit(s[n]) then None
    else
      var value := (s[n] - '0') as nat;
      if n == 0 then Some(value)
      else
        var front := ParseDigits(if s[n - 1] == '_' then s[..n - 1] else s[..n]);
        if front.None? then None else Some(10 * front.value + value)
  }

  /** `int(word)` for a word without white space; None where Python raises ValueError. */
  function ParseInt(word: string): Option<int>
  {
    if word == "" then None
    else
      var signed := word[0] == '-' || word[0] == '+';
      var digits := ParseDigits(if signed then word[1..] else word);
      if digits.None? then None
      else
        var value: int := digits.value;
        Some(if word[0] == '-' then -value else value)
  }

  lemma {:induction false} ParseDecimalDigits(n: nat)
    ensures ParseDigits(Decimal(n)) == Some(n)
  {
    if n >= 10 {
      ParseDecimalDigits(n / 10);
      var front := Decimal(n / 10);
      assert Decimal(n)[..|front|] == front;
      assert front[|front| - 1] in front;
    }
  }

  /** Printing a number and parsing it gives the number back. */
  lemma ParseDecimal(n: nat)
    ensures ParseInt(Decimal(n)) == Some(n)
  {
    ParseDecimalDigits(n);
    assert Decimal(n)[0] in Decimal(n);
  }

  lemma SignsAreRead(n: nat)
    ensures ParseInt("-" + Decimal(n)) == Some(0 - n) && ParseInt("+" + Decimal(n)) == Some(n)
  {
    ParseDecimalDigits(n);
    assert ("-" + Decimal(n))[1..] == Decimal(n) && ("+" + Decimal(n))[1..] == Decimal(n);
  }

  // ----- substrings -----

  /** What follows the first occurrence of sub in s. */
  function AfterFirst(s: string, sub: string): Option<string>
    requires sub != ""
  {
    if sub <= s then Some(s[|sub|..])
    else if s == "" then None
    else AfterFirst(s[1..], sub)
  }

  /** What precedes the first occurrence of sub in s, or all of s. */
  function BeforeFirst(s: string, sub: string): string
    requires sub != ""
  {
    if s == "" || sub <= s then "" else [s[0]] + BeforeFirst(s[1..], sub)
  }

  /** A text is split at the first occurrence of sub, and nowhere if there is none. */
  lemma {:induction false} SplitAtFirst(s: string, sub: string)
    requires sub != ""
    ensures var before, after := BeforeFirst(s, sub), AfterFirst(s, sub);
            && (after.Some? ==> s == before + sub + after.value)
            && (after.None? ==> s == before)
            && forall i :: 0 <= i < |before| ==> !(sub <= s[i..])
  {
    assert s[0..] == s;
    if sub <= s {
      assert s == "" + sub + s[|sub|..];
    } else if s != "" {
      SplitAtFirst(s[1..], sub);
      var before := BeforeFirst(s[1..], sub);
      assert s == [s[0]] + s[1..];
      forall i | 0 <= i < 1 + |before| ensures !(sub <= s[i..]) {
        assert i > 0 ==> s[i..] == s[1..][i - 1..];
      }
    }
  }

  /** `s.replace(sub, "")` */
  function RemoveAll(s: string, sub: string): string
    requires sub != ""
    decreases |s|
  {
    if sub <= s then RemoveAll(s[|sub|..], sub)
    else if s == "" then ""
    else [s[0]] + RemoveAll(s[1..], sub)
  }

  lemma {:induction false} NothingToRemove(s: string, sub: string)
    requires sub != "" && forall i :: 0 <= i <= |s| ==> !(sub <= s[i..])
    ensures RemoveAll(s, sub) == s
  {
    assert s[0..] == s;
    if s != "" {
      forall i | 0 <= i <= |s[1..]| ensures !(sub <= s[1..][i..]) {
        assert s[1..][i..] == s[i + 1..];
      }
      NothingToRemove(s[1..], sub);
      assert [s[0]] + s[1..] == s;
    }
  }

  /** A text that lacks the first character of sub holds no part of it. */
  lemma {:induction false} NoOccurrence(s: string, sub: string)
    requires sub != "" && sub[0] !in s
    ensures BeforeFirst(s, sub) == s
  {
    if s != "" {
      assert s[0] in s;
      NoOccurrence(s[1..], sub);
    }
  }

  lemma {:induction false} FirstAfter(front: string, s: string, sub: string)
    requires sub != "" && sub[0] !in front
    ensures AfterFirst(front + s, sub) == AfterFirst(s, sub)
  {
    if front == "" {
      assert front + s == s;
    } else {
      assert front[0] in front && (front + s)[0] == front[0];
      assert (front + s)[1..] == front[1..] + s;
      FirstAfter(front[1..], s, sub);
    }
  }
}
