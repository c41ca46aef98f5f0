/** Which differences between titles a skill name does not see, and what is left of a long one. */
module SlugLaws {
  import opened Sequences
  import opened Wrappers
  import opened Text
  import opened Decimals
  import opened SkillSlug

  const UPPER := "ABCDEFGHIJKLMNOPQRSTUVWXYZ"
  const LOWER := "abcdefghijklmnopqrstuvwxyz"

  const DIGITS := "0123456789"

  lemma UpperAt(i: nat)
    requires i < 26
    ensures UPPER[i] as int == 65 + i
  {
  }

  lemma LowerAt(i: nat)
    requires i < 26
    ensures LOWER[i] as int == 97 + i
  {
  }

  lemma InAlphabet(c: char)
    ensures c in UPPER <==> IsUpper(c)
    ensures c in LOWER <==> IsLower(c)
  {
    if IsUpper(c) {
      UpperAt(c as int - 65);
    }
    if IsLower(c) {
      LowerAt(c as int - 97);
    }
    if i :| 0 <= i < 26 && UPPER[i] == c {
      UpperAt(i);
    }
    if i :| 0 <= i < 26 && LOWER[i] == c {
      LowerAt(i);
    }
  }

  lemma InDigits(c: char)
    ensures c in DIGITS <==> IsDigit(c)
  {
    if IsDigit(c) {
      assert DIGITS[c as int - 48] == c;
    }
  }

  /** The letters and digits are those of the alphabet, and names are made of the small ones, digits and dashes. */
  lemma LettersAndDigits(c: char)
    ensures IsAlphanumeric(c) <==> c in UPPER || c in LOWER || c in DIGITS
    ensures IsNameChar(c) <==> c in LOWER || c in DIGITS || c == '-'
  {
    InAlphabet(c);
    InDigits(c);
  }

  // ----- texts put together -----

  lemma {:induction false} AmpersandsConcat(a: string, b: string)
    ensures ReplaceAmpersands(a + b) == ReplaceAmpersands(a) + ReplaceAmpersands(b)
  {
    if a == "" {
      EmptyIsNeutral(b);
      EmptyIsNeutral(ReplaceAmpersands(b));
    } else {
      var first := if a[0] == '&' then "-and-" else [a[0]];
      assert (a + b)[1..] == a[1..] + b;
      AmpersandsConcat(a[1..], b);
      Associative(first, ReplaceAmpersands(a[1..]), ReplaceAmpersands(b));
    }
  }

  lemma {:induction false} KeptConcat(a: string, b: string)
    ensures Kept(a + b) == Kept(a) + Kept(b)
    decreases |b|
  {
    if b == "" {
      EmptyIsNeutral(a);
      EmptyIsNeutral(Kept(a));
    } else {
      var n := |b| - 1;
      KeptConcat(a, b[..n]);
      assert a + b == a + b[..n] + [b[n]] && b == b[..n] + [b[n]];
      KeptOfPush(a + b[..n], b[n]);
      KeptOfPush(b[..n], b[n]);
      Associative(Kept(a), Kept(b[..n]), Kept([b[n]]));
    }
  }

  lemma KeptOfPush(s: string, c: char)
    ensures Kept(s + [c]) == Kept(s) + Kept([c])
  {
    assert (s + [c])[..|s|] == s && [c][..0] == [];
    EmptyIsNeutral(Kept([c]));
  }

  /** What of a text the words are taken from. */
  function Core(s: string): string
  {
    Kept(ReplaceAmpersands(s))
  }

  lemma CoreConcat(a: string, b: string)
    ensures Core(a + b) == Core(a) + Core(b)
  {
    AmpersandsConcat(a, b);
    KeptConcat(ReplaceAmpersands(a), ReplaceAmpersands(b));
  }

  lemma CoreOfThree(a: string, b: string, c: string)
    ensures Core(a + b + c) == Core(a) + Core(b) + Core(c)
  {
    CoreConcat(a + b, c);
    CoreConcat(a, b);
  }

  lemma CoreOfChar(c: char)
    requires c != '&'
    ensures Core([c]) == if IsAlphanumeric(c) then [Lower(c)] else if IsSeparator(c) then [c] else []
  {
    var s := [c];
    assert s[1..] == "" && ReplaceAmpersands("") == "" && s == [c] + "";
    assert ReplaceAmpersands(s) == [c] + ReplaceAmpersands(s[1..]) == s;
    assert s[..0] == "" && Kept(s) == Kept(s[..0]) + if IsAlphanumeric(c) then [Lower(c)] else if IsSeparator(c) then [c] else [];
    EmptyIsNeutral(if IsAlphanumeric(c) then [Lower(c)] else if IsSeparator(c) then [c] else []);
  }

  /** The slug is a matter of the words of the core. */
  lemma SlugOfWords(a: string, b: string)
    requires Words(Core(a), IsSeparator) == Words(Core(b), IsSeparator)
    ensures Slug(a) == Slug(b)
  {
  }

  // ----- the laws -----

  /** Every symbol but the ampersand is dropped. */
  lemma SymbolsAreDropped(a: string, c: char, b: string)
    requires !IsAlphanumeric(c) && c != ' ' && c != '-' && c != '&'
    ensures Slug(a + [c] + b) == Slug(a + b)
  {
    CoreOfThree(a, [c], b);
    CoreOfChar(c);
    CoreConcat(a, b);
    EmptyIsNeutral(Core(a));
  }

  lemma LowerOfAlphabet(i: nat)
    requires i < 26
    ensures Lower(UPPER[i]) == LOWER[i] == Lower(LOWER[i]) && IsAlphanumeric(UPPER[i]) && IsAlphanumeric(LOWER[i])
  {
    UpperAt(i);
    LowerAt(i);
  }

  /** Letters count in lower case. */
  lemma CaseIsIgnored(a: string, i: nat, b: string)
    requires i < 26
    ensures Slug(a + [UPPER[i]] + b) == Slug(a + [LOWER[i]] + b)
  {
    LowerOfAlphabet(i);
    CoreOfThree(a, [UPPER[i]], b);
    CoreOfThree(a, [LOWER[i]], b);
    CoreOfChar(UPPER[i]);
    CoreOfChar(LOWER[i]);
  }

  /** An ampersand is the word `and`. */
  lemma AmpersandIsAnd(a: string, b: string)
    ensures Slug(a + "&" + b) == Slug(a + "-and-" + b)
  {
    CoreOfThree(a, "&", b);
    CoreOfThree(a, "-and-", b);
    assert "&"[1..] == "" && "-and-" + "" == "-and-";
    assert ReplaceAmpersands("&") == "-and-";
    NoAmpersand("-and-");
  }

  lemma {:induction false} NoAmpersand(s: string)
    requires '&' !in s
    ensures ReplaceAmpersands(s) == s
  {
    if s != "" {
      assert s[0] in s && [s[0]] + s[1..] == s;
      NoAmpersand(s[1..]);
    }
  }

  lemma {:induction false} WordsAround(a: string, c: char, b: string)
    requires IsSeparator(c)
    ensures Words(a + [c] + b, IsSeparator) == Words(a, IsSeparator) + Words(b, IsSeparator)
    decreases |a|
  {
    var s := a + [c] + b;
    if a == "" {
      assert s == [c] + b && s[1..] == b;
    } else if IsSeparator(a[0]) {
      assert s[1..] == a[1..] + [c] + b;
      WordsAround(a[1..], c, b);
    } else {
      var n := WordLength(a, IsSeparator);
      var word, rest := a[..n], a[n..];
      assert a == word + rest;
      Associative(word, rest, [c] + b);
      assert s == word + (rest + [c] + b);
      assert rest + [c] + b == rest + ([c] + b);
      FirstWord(word, rest + [c] + b, IsSeparator);
      FirstWord(word, rest, IsSeparator);
      WordsAround(rest, c, b);
      Associative([word], Words(rest, IsSeparator), Words(b, IsSeparator));
    }
  }

  lemma WordsOfSeparated(a: string, c: char, b: string)
    requires c == ' ' || c == '-'
    ensures Words(Core(a + [c] + b), IsSeparator) == Words(Core(a), IsSeparator) + Words(Core(b), IsSeparator)
  {
    CoreOfThree(a, [c], b);
    CoreOfChar(c);
    WordsAround(Core(a), c, Core(b));
  }

  lemma InnerSeparators(a: string, c: char, d: char, b: string)
    requires (c == ' ' || c == '-') && (d == ' ' || d == '-')
    ensures Slug(a + [c] + b) == Slug(a + [d] + b) == Slug(a + [c] + [d] + b)
  {
    WordsOfSeparated(a, c, b);
    WordsOfSeparated(a, d, b);
    WordsOfSeparated(a + [c], d, b);
    WordsOfSeparated(a, c, "");
    assert a + [c] + "" == a + [c];
    EmptyIsNeutral(Words(Core(a), IsSeparator));
    assert Words(Core(""), IsSeparator) == [];
    SlugOfWords(a + [c] + b, a + [d] + b);
    SlugOfWords(a + [c] + [d] + b, a + [d] + b);
  }

  lemma OuterSeparators(a: string, c: char)
    requires c == ' ' || c == '-'
    ensures Slug([c] + a) == Slug(a) == Slug(a + [c])
  {
    WordsOfSeparated(a, c, "");
    WordsOfSeparated("", c, a);
    assert "" + [c] + a == [c] + a && a + [c] + "" == a + [c];
    assert Words(Core(""), IsSeparator) == [];
    EmptyIsNeutral(Words(Core(a), IsSeparator));
    SlugOfWords([c] + a, a);
    SlugOfWords(a + [c], a);
  }

  /** Spaces are dashes, several are one, and at either end they do not count. */
  lemma SeparatorsCollapse(a: string, c: char, d: char, b: string)
    requires (c == ' ' || c == '-') && (d == ' ' || d == '-')
    ensures Slug(a + [c] + b) == Slug(a + [d] + b) == Slug(a + [c] + [d] + b)
    ensures Slug([c] + a) == Slug(a) == Slug(a + [c])
  {
    InnerSeparators(a, c, d, b);
    OuterSeparators(a, c);
  }

  // ----- long names -----

  lemma {:induction false} TrimEndIsLongest(s: string, p: string)
    requires p <= s && (p == "" || p[|p| - 1] != '-')
    ensures TrimEnd(s, IsDash) <= s && p <= TrimEnd(s, IsDash)
    ensures TrimEnd(s, IsDash) == "" || TrimEnd(s, IsDash)[|TrimEnd(s, IsDash)| - 1] != '-'
    decreases |s|
  {
    if s != "" && IsDash(s[|s| - 1]) {
      TrimEndIsLongest(s[..|s| - 1], p);
    }
  }

  /** Of a long text without a dash at its end, the longest beginning of at most 64 characters is left that has none either. */
  lemma CutIsLongest(s: string, p: string)
    requires s != "" ==> s[|s| - 1] != '-'
    requires p <= s && |p| <= 64 && (p == "" || p[|p| - 1] != '-')
    ensures Cut(s) <= s && |Cut(s)| <= 64 && p <= Cut(s)
    ensures Cut(s) == "" || Cut(s)[|Cut(s)| - 1] != '-'
  {
    if |s| > 64 {
      assert p <= s[..64];
      TrimEndIsLongest(s[..64], p);
    }
  }
}
