/**
  Turning a title into a skill name, and the rules a skill name must meet.
*/
module SkillSlug {
  import opened Decimals
  import opened Wrappers
  import opened Text
  import opened Sequences

  const MAX_SKILL_NAME_LEN := 64

  predicate IsLower(c: char)
  {
    'a' <= c <= 'z'
  }

  predicate IsUpper(c: char)
  {
    'A' <= c <= 'Z'
  }

  predicate IsAlphanumeric(c: char)
  {
    IsLower(c) || IsUpper(c) || IsDigit(c)
  }

  predicate IsSeparator(c: char)
  {
    c == ' ' || c == '-'
  }

  predicate IsDash(c: char)
  {
    c == '-'
  }

  function Lower(c: char): (r: char)
    ensures IsAlphanumeric(c) ==> IsLower(r) || IsDigit(r)
  {
    if IsUpper(c) then 'a' + (c - 'A') else c
  }

  // ----- the rules for a name -----

  datatype NameCheck = Valid | EmptyName | TooLong | EdgeHyphen | BadCharacter

  predicate IsNameChar(c: char)
  {
    IsLower(c) || IsDigit(c) || c == '-'
  }

  function Utf8Size(c: char): nat
  {
    if c < '\U{0080}' then 1 else if c < '\U{0800}' then 2 else if c < '\U{10000}' then 3 else 4
  }

  /** The length of the text in bytes. */
  function ByteLength(s: string): nat
  {
    if s == "" then 0 else Utf8Size(s[0]) + ByteLength(s[1..])
  }

  function ValidateName(name: string): NameCheck
  {
    if name == "" then EmptyName
    else if ByteLength(name) > MAX_SKILL_NAME_LEN then TooLong
    else if name[0] == '-' || name[|name| - 1] == '-' then EdgeHyphen
    else if !(forall c :: c in name ==> IsNameChar(c)) then BadCharacter
    else Valid
  }

  predicate IsName(s: string)
  {
    && s != "" && s[0] != '-' && s[|s| - 1] != '-' && |s| <= MAX_SKILL_NAME_LEN
    && forall c :: c in s ==> IsNameChar(c)
  }

  lemma {:induction false} AsciiByteLength(s: string)
    requires forall c :: c in s ==> IsNameChar(c)
    ensures ByteLength(s) == |s|
  {
    if s != "" {
      assert s[0] in s;
      AsciiByteLength(s[1..]);
    }
  }

  /** The valid names: the byte count is the character count, because only ASCII is allowed. */
  lemma ValidExactly(name: string)
    ensures ValidateName(name) == Valid <==> IsName(name)
  {
    if forall c :: c in name ==> IsNameChar(c) {
      AsciiByteLength(name);
    }
  }

  // ----- the slug, declaratively -----

  function ReplaceAmpersands(s: string): string
  {
    if s == "" then ""
    else (if s[0] == '&' then "-and-" else [s[0]]) + ReplaceAmpersands(s[1..])
  }

  /** The letters and digits, in lower case, and the separators; everything else is dropped. */
  function Kept(s: string): string
  {
    if s == "" then ""
    else
      var n := |s| - 1;
      Kept(s[..n]) + if IsAlphanumeric(s[n]) then [Lower(s[n])] else if IsSeparator(s[n]) then [s[n]] else []
  }

  function Dashed(s: string): string
  {
    Join(Words(s, IsSeparator), "-")
  }

  function Cut(s: string): string
  {
    if |s| > MAX_SKILL_NAME_LEN then TrimEnd(s[..MAX_SKILL_NAME_LEN], IsDash) else s
  }

  function Slug(input: string): Option<string>
  {
    var slug := Cut(Dashed(Kept(ReplaceAmpersands(input))));
    if slug == "" then None else Some(slug)
  }

  // ----- the loop -----

  /** What the loop has built after the kept characters s: a dash is pending after a separator. */
  function Built(s: string): string
  {
    Dashed(s) + if Dashed(s) != "" && IsSeparator(s[|s| - 1]) then "-" else ""
  }

  lemma {:induction false} NoWords(s: string)
    ensures Words(s, IsSeparator) == [] <==> forall c :: c in s ==> IsSeparator(c)
  {
    if s != "" {
      assert s[0] in s && s == [s[0]] + s[1..];
      NoWords(s[1..]);
    }
  }

  lemma NothingDashed(s: string)
    ensures Dashed(s) == "" <==> forall c :: c in s ==> IsSeparator(c)
  {
    NoWords(s);
    DashedIsTidy(s);
  }

  /** No dash at either end, and never two in a row. */
  predicate Tidy(s: string)
  {
    && (s != "" ==> s[0] != '-' && s[|s| - 1] != '-')
    && forall i :: 0 <= i < |s| - 1 && s[i] == '-' ==> s[i + 1] != '-'
  }

  lemma {:induction false} JoinIsTidy(words: seq<string>)
    requires forall i :: 0 <= i < |words| ==> IsWord(words[i], IsSeparator)
    ensures Tidy(Join(words, "-"))
    ensures words != [] ==> Join(words, "-") != ""
  {
    if words != [] {
      var word := words[0];
      assert IsWord(word, IsSeparator);
      forall i | 0 <= i < |word| ensures word[i] != '-' {
        assert !IsSeparator(word[i]);
      }
      if |words| > 1 {
        JoinIsTidy(words[1..]);
      }
    }
  }

  lemma DashedIsTidy(s: string)
    ensures Tidy(Dashed(s))
    ensures Dashed(s) == "" <==> Words(s, IsSeparator) == []
  {
    JoinIsTidy(Words(s, IsSeparator));
  }

  lemma DashedWord(word: string, rest: string)
    requires IsWord(word, IsSeparator) && (rest == "" || IsSeparator(rest[0]))
    ensures Dashed(word + rest) == if Dashed(rest) == "" then word else word + "-" + Dashed(rest)
  {
    var words := Words(rest, IsSeparator);
    FirstWord(word, rest, IsSeparator);
    DashedIsTidy(rest);
    assert ([word] + words)[1..] == words;
  }

  /** A separator adds nothing; any other kept character follows what has been built. */
  lemma {:induction false} DashedAppend(s: string, c: char)
    ensures Dashed(s + [c]) == if IsSeparator(c) then Dashed(s) else Built(s) + [c]
    decreases |s|
  {
    var more := s + [c];
    if IsSeparator(c) {
      TrailingSpace(more, IsSeparator);
      assert more[..|s|] == s;
    } else if s == "" {
      FirstWord([c], "", IsSeparator);
      assert [c] + "" == [c] == more;
    } else if IsSeparator(s[0]) {
      DashedAppend(s[1..], c);
      assert more[1..] == s[1..] + [c];
    } else {
      WordThenAppend(s, c);
    }
  }

  lemma BuiltWord(word: string, rest: string)
    requires IsWord(word, IsSeparator) && rest != "" && IsSeparator(rest[0])
    ensures Built(word + rest) == word + "-" + Built(rest)
  {
    var s := word + rest;
    DashedWord(word, rest);
    NothingDashed(rest);
    assert s[|s| - 1] == rest[|rest| - 1] && rest[|rest| - 1] in rest;
  }

  lemma {:induction false} WordThenAppend(s: string, c: char)
    requires s != "" && !IsSeparator(s[0]) && !IsSeparator(c)
    ensures Dashed(s + [c]) == Built(s) + [c]
    decreases |s|, 0
  {
    var n := WordLength(s, IsSeparator);
    var word, rest := s[..n], s[n..];
    assert s == word + rest;
    if rest == "" {
      DashedWord(word, rest);
      DashedWord(s + [c], "");
      assert s + [c] + "" == s + [c];
    } else {
      DashedAppend(rest, c);
      AppendAfterWord(word, rest, c, Built(rest));
    }
  }

  lemma AppendAfterWord(word: string, rest: string, c: char, built: string)
    requires IsWord(word, IsSeparator) && rest != "" && IsSeparator(rest[0])
    requires built == Built(rest) && Dashed(rest + [c]) == built + [c]
    ensures Dashed(word + rest + [c]) == Built(word + rest) + [c]
  {
    BuiltWord(word, rest);
    DashedWord(word, rest + [c]);
    Associative(word, rest, [c]);
    Associative(word + "-", built, [c]);
  }

  lemma KeptPush(s: string, c: char)
    ensures Kept(s + [c])
         == Kept(s) + if IsAlphanumeric(c) then [Lower(c)] else if IsSeparator(c) then [c] else []
  {
  }

  predicate EndsDashed(s: string)
  {
    s == "" || s[|s| - 1] == '-'
  }

  lemma BuiltPush(s: string, c: char)
    ensures Built(s + [c])
         == if !IsSeparator(c) then Built(s) + [c]
            else if EndsDashed(Built(s)) then Built(s)
            else Built(s) + "-"
  {
    DashedAppend(s, c);
    DashedIsTidy(s);
    NothingDashed(s);
  }

  lemma DropPendingDash(s: string)
    ensures Dashed(s) == if Built(s) != "" && EndsDashed(Built(s)) then Built(s)[..|Built(s)| - 1] else Built(s)
  {
    DashedIsTidy(s);
  }

  method Truncate(slug: string) returns (r: string)
    ensures r == Cut(slug)
  {
    r := slug;
    if |r| > MAX_SKILL_NAME_LEN {
      r := r[..MAX_SKILL_NAME_LEN];
      while r != "" && r[|r| - 1] == '-'
        invariant TrimEnd(r, IsDash) == Cut(slug)
        decreases |r|
      {
        r := r[..|r| - 1];
      }
    }
  }

  lemma KeptNext(s: string, i: nat)
    requires i < |s|
    ensures Kept(s[..i + 1])
         == if IsAlphanumeric(s[i]) then Kept(s[..i]) + [Lower(s[i])]
            else if IsSeparator(s[i]) then Kept(s[..i]) + [s[i]] else Kept(s[..i])
  {
    assert s[..i + 1] == s[..i] + [s[i]];
    KeptPush(s[..i], s[i]);
    EmptyIsNeutral(Kept(s[..i]));
  }

  /** What one more character does to the slug being built. */
  lemma BuiltNext(s: string, i: nat)
    requires i < |s|
    ensures var built := Built(Kept(s[..i]));
            Built(Kept(s[..i + 1]))
            == if IsAlphanumeric(s[i]) then built + [Lower(s[i])]
               else if IsSeparator(s[i]) && !EndsDashed(built) then built + "-" else built
  {
    KeptNext(s, i);
    if IsAlphanumeric(s[i]) {
      BuiltPush(Kept(s[..i]), Lower(s[i]));
    } else if IsSeparator(s[i]) {
      BuiltPush(Kept(s[..i]), s[i]);
    }
  }

  method SlugifySkillName(raw: string) returns (result: Option<string>)
    ensures result == Slug(raw)
  {
    var input := ReplaceAmpersands(raw);
    var slug := "";
    var lastWasDash := true;
    for i := 0 to |input|
      invariant slug == Built(Kept(input[..i]))
      invariant lastWasDash <==> EndsDashed(slug)
    {
      var ch := input[i];
      BuiltNext(input, i);
      var c;
      if IsAlphanumeric(ch) {
        c := Lower(ch);
      } else if IsSeparator(ch) {
        c := '-';
      } else {
        continue;
      }
      if c == '-' {
        if lastWasDash {
          continue;
        }
        lastWasDash := true;
      } else {
        lastWasDash := false;
      }
      slug := slug + [c];
    }
    assert input[..|input|] == input;
    DropPendingDash(Kept(input));
    if slug != "" && EndsDashed(slug) {
      slug := slug[..|slug| - 1];
    }
    slug := Truncate(slug);
    result := if slug == "" then None else Some(slug);
  }

  // ----- what a slug is -----

  predicate HasAlphanumeric(s: string)
  {
    exists c :: c in s && IsAlphanumeric(c)
  }

  predicate OnlySeparators(s: string)
  {
    forall c :: c in s ==> IsSeparator(c)
  }

  lemma {:induction false} KeptChars(s: string)
    ensures forall c :: c in Kept(s) ==> IsLower(c) || IsDigit(c) || IsSeparator(c)
    ensures OnlySeparators(Kept(s)) <==> !HasAlphanumeric(s)
  {
    if s != "" {
      var n := |s| - 1;
      KeptChars(s[..n]);
      assert s == s[..n] + [s[n]];
      assert HasAlphanumeric(s) <==> HasAlphanumeric(s[..n]) || IsAlphanumeric(s[n]);
      if IsAlphanumeric(s[n]) {
        assert Lower(s[n]) in Kept(s) && !IsSeparator(Lower(s[n]));
      }
    }
  }

  lemma {:induction false} AmpersandsBecomeLetters(s: string)
    ensures HasAlphanumeric(ReplaceAmpersands(s)) <==> HasAlphanumeric(s) || '&' in s
  {
    if s != "" {
      var rest := ReplaceAmpersands(s[1..]);
      AmpersandsBecomeLetters(s[1..]);
      assert s == [s[0]] + s[1..] && s[0] in s;
      if s[0] == '&' {
        assert "-and-"[1] == 'a' && ReplaceAmpersands(s)[1] == 'a';
        assert 'a' in ReplaceAmpersands(s);
      } else {
        assert ReplaceAmpersands(s) == [s[0]] + rest;
        assert s[0] in ReplaceAmpersands(s);
      }
    }
  }

  lemma {:induction false} WordChars(s: string)
    ensures forall w, c :: w in Words(s, IsSeparator) && c in w ==> c in s
    decreases |s|
  {
    if s != "" {
      if IsSeparator(s[0]) {
        WordChars(s[1..]);
      } else {
        WordChars(s[WordLength(s, IsSeparator)..]);
      }
    }
  }

  lemma {:induction false} JoinChars(words: seq<string>, c: char)
    requires c in Join(words, "-")
    ensures c == '-' || exists w :: w in words && c in w
  {
    if |words| == 1 {
      assert words[0] in words;
    } else if |words| > 1 {
      assert words[0] in words;
      if c in Join(words[1..], "-") {
        JoinChars(words[1..], c);
      }
    }
  }

  lemma CutIsTidy(s: string)
    requires Tidy(s)
    ensures Tidy(Cut(s)) && Cut(s) <= s && |Cut(s)| <= MAX_SKILL_NAME_LEN
    ensures s != "" ==> Cut(s) != ""
  {
    if |s| > MAX_SKILL_NAME_LEN {
      var p := s[..MAX_SKILL_NAME_LEN];
      var q := p[..MAX_SKILL_NAME_LEN - 1];
      if p[MAX_SKILL_NAME_LEN - 1] == '-' {
        assert s[MAX_SKILL_NAME_LEN - 2] != '-';
        assert TrimEnd(q, IsDash) == q;
      }
    }
  }

  lemma SlugIsTidyName(input: string)
    requires Slug(input).Some?
    ensures IsName(Slug(input).value) && Tidy(Slug(input).value)
  {
    var kept := Kept(ReplaceAmpersands(input));
    var dashed := Dashed(kept);
    DashedIsTidy(kept);
    CutIsTidy(dashed);
    forall c | c in dashed ensures IsNameChar(c) {
      JoinChars(Words(kept, IsSeparator), c);
      WordChars(kept);
      KeptChars(ReplaceAmpersands(input));
      if c != '-' {
        var w :| w in Words(kept, IsSeparator) && c in w;
        var i :| 0 <= i < |Words(kept, IsSeparator)| && Words(kept, IsSeparator)[i] == w;
        assert IsWord(Words(kept, IsSeparator)[i], IsSeparator);
      }
    }
  }

  /** A slug always passes the validator. */
  lemma SlugIsValid(input: string)
    requires Slug(input).Some?
    ensures ValidateName(Slug(input).value) == Valid
  {
    SlugIsTidyName(input);
    ValidExactly(Slug(input).value);
  }

  /** There is no slug exactly when the input has no ASCII letter or digit and no ampersand. */
  lemma NoSlugExactly(input: string)
    ensures Slug(input) == None <==> forall c :: c in input ==> !IsAlphanumeric(c) && c != '&'
  {
    var replaced := ReplaceAmpersands(input);
    AmpersandsBecomeLetters(input);
    KeptChars(replaced);
    NothingDashed(Kept(replaced));
    DashedIsTidy(Kept(replaced));
    CutIsTidy(Dashed(Kept(replaced)));
  }

  lemma {:induction false} NothingToReplace(s: string)
    requires '&' !in s
    ensures ReplaceAmpersands(s) == s
  {
    if s != "" {
      assert s[0] in s && s == [s[0]] + s[1..];
      NothingToReplace(s[1..]);
    }
  }

  lemma {:induction false} NothingToDrop(s: string)
    requires forall c :: c in s ==> IsNameChar(c)
    ensures Kept(s) == s
  {
    if s != "" {
      var n := |s| - 1;
      assert s[n] in s && s == s[..n] + [s[n]];
      NothingToDrop(s[..n]);
    }
  }

  lemma AfterDash(s: string, n: nat)
    requires Tidy(s) && n < |s| && s[n] == '-'
    ensures n + 1 < |s| && s[n + 1] != '-' && Tidy(s[n + 1..])
  {
  }

  lemma LeadingDash(tail: string)
    ensures Dashed("-" + tail) == Dashed(tail)
  {
  }

  lemma OneMoreWord(word: string, rest: string, tail: string)
    requires IsWord(word, IsSeparator) && tail != "" && Dashed(tail) == tail && rest == "-" + tail
    ensures Dashed(word + rest) == word + rest
  {
    LeadingDash(tail);
    DashedWord(word, rest);
    assert word + "-" + tail == word + rest;
  }

  lemma AtDash(s: string, n: nat)
    requires n < |s| && s[n] == '-'
    ensures s == s[..n] + ("-" + s[n + 1..])
  {
  }

  lemma {:induction false} NothingToCollapse(s: string)
    requires Tidy(s) && forall c :: c in s ==> IsNameChar(c)
    ensures Dashed(s) == s
    decreases |s|
  {
    if s != "" {
      assert s[0] in s;
      var n := WordLength(s, IsSeparator);
      if n == |s| {
        DashedWord(s, "");
        assert s + "" == s;
      } else {
        var tail := s[n + 1..];
        assert s[n] in s;
        AfterDash(s, n);
        NothingToCollapse(tail);
        OneMoreWord(s[..n], "-" + tail, tail);
        AtDash(s, n);
      }
    }
  }

  /** The slugs are the valid names without two dashes in a row, and those are their own slugs. */
  lemma FixedPointsExactly(name: string)
    ensures Slug(name) == Some(name) <==> ValidateName(name) == Valid && Tidy(name)
  {
    ValidExactly(name);
    if Slug(name) == Some(name) {
      SlugIsTidyName(name);
    } else if IsName(name) && Tidy(name) {
      NothingToReplace(name);
      NothingToDrop(name);
      NothingToCollapse(name);
    }
  }

  lemma SlugIsIdempotent(input: string)
    requires Slug(input).Some?
    ensures Slug(Slug(input).value) == Slug(input)
  {
    SlugIsTidyName(input);
    ValidExactly(Slug(input).value);
    FixedPointsExactly(Slug(input).value);
  }
}
