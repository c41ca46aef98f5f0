/**
  The setting that says when a conversation is compacted: a percentage, or a number of tokens used
  or remaining. Percentages are floating-point numbers; reading one is an arbitrary function here.
*/
module CompactThreshold {
  import opened Wrappers
  import opened Text
  import opened Decimals
  import opened RustText

  const I64_MAX := 0x7FFF_FFFF_FFFF_FFFF
  const U64_MAX := 0xFFFF_FFFF_FFFF_FFFF

  type U64 = n: int | 0 <= n <= U64_MAX

  datatype Threshold<P> = Percentage(percent: P) | TokensUsed(tokens: U64) | TokensRemaining(tokens: U64)

  function Trimmed(s: string): string
  {
    Trim(s, IsSpace)
  }

  /** `str::parse::<i64>`: an optional sign and digits, in range. */
  function ParseI64(s: string): Option<int>
  {
    if s == "" then None
    else
      var negative := s[0] == '-';
      var digits := DigitsValue(if negative || s[0] == '+' then s[1..] else s);
      if digits.None? then None
      else if negative then if digits.value <= I64_MAX + 1 then Some(0 - digits.value) else None
      else if digits.value <= I64_MAX then Some(digits.value) else None
  }

  function Parse<P>(raw: string, parsePercent: string -> Option<P>): Option<Threshold<P>>
  {
    var trimmed := Trimmed(raw);
    if trimmed != "" && trimmed[|trimmed| - 1] == '%' then
      var percent := parsePercent(TrimEnd(trimmed[..|trimmed| - 1], IsSpace));
      if percent.None? then None else Some(Percentage(percent.value))
    else
      var tokens := ParseI64(trimmed);
      if tokens.None? || tokens.value == 0 then None
      else if tokens.value > 0 then Some(TokensUsed(tokens.value))
      else Some(TokensRemaining(-tokens.value))
  }

  function Display<P>(threshold: Threshold<P>, printPercent: P -> string): string
  {
    match threshold
    case Percentage(p) => printPercent(p) + "%"
    case TokensUsed(n) => Decimal(n)
    case TokensRemaining(n) => "-" + Decimal(n)
  }

  predicate Readable<P>(threshold: Threshold<P>)
  {
    match threshold
    case Percentage(_) => true
    case TokensUsed(n) => 1 <= n <= I64_MAX
    case TokensRemaining(n) => 1 <= n <= I64_MAX + 1
  }

  lemma NumberIsRead(n: nat)
    ensures Trimmed(Decimal(n)) == Decimal(n) && Trimmed("-" + Decimal(n)) == "-" + Decimal(n)
    ensures ParseI64(Decimal(n)) == if n <= I64_MAX then Some(n) else None
    ensures ParseI64("-" + Decimal(n)) == if n <= I64_MAX + 1 then Some(0 - n) else None
  {
    var s := Decimal(n);
    var negative := "-" + s;
    assert s[0] in s && s[|s| - 1] in s && negative[|negative| - 1] == s[|s| - 1];
    TrimNothing(s, IsSpace);
    TrimNothing(negative, IsSpace);
    DigitsOfDecimal(n);
    assert negative[1..] == s;
  }

  /** The printer of percentages and their reader agree on a percentage, and it is printed without outer white space. */
  predicate PercentAgrees<P(==)>(p: P, printPercent: P -> string, parsePercent: string -> Option<P>)
  {
    var text := printPercent(p);
    && text != "" && !IsSpace(text[0]) && !IsSpace(text[|text| - 1])
    && parsePercent(text) == Some(p)
  }

  lemma PercentTexts(text: string)
    requires text != "" && !IsSpace(text[0]) && !IsSpace(text[|text| - 1])
    ensures var s := text + "%";
            Trimmed(s) == s && s[|s| - 1] == '%' && s[..|s| - 1] == text && TrimEnd(text, IsSpace) == text
  {
    TrimNothing(text + "%", IsSpace);
  }

  lemma PercentIsRead<P(!new)>(p: P, printPercent: P -> string, parsePercent: string -> Option<P>)
    requires PercentAgrees(p, printPercent, parsePercent)
    ensures Parse(Display(Percentage(p), printPercent), parsePercent) == Some(Percentage(p))
  {
    PercentTexts(printPercent(p));
  }

  /**
    A number of tokens that is printed is read back as it was exactly when it is not 0 and fits in a
    signed 64-bit integer, with its sign; a percentage is whenever its printer and its reader agree.
  */
  lemma TokensRoundTripExactly<P(!new)>(threshold: Threshold<P>, printPercent: P -> string, parsePercent: string -> Option<P>)
    requires threshold.Percentage? ==> PercentAgrees(threshold.percent, printPercent, parsePercent)
    ensures Parse(Display(threshold, printPercent), parsePercent) == Some(threshold) <==> Readable(threshold)
  {
    match threshold
    case Percentage(p) => PercentIsRead(p, printPercent, parsePercent);
    case TokensUsed(n) => NumberIsPrinted(n, printPercent);
    case TokensRemaining(n) => RemainderIsPrinted(n, printPercent);
  }

  lemma RemainderIsPrinted<P>(n: U64, printPercent: P -> string)
    ensures var s := Display(TokensRemaining(n), printPercent);
            && Trimmed(s) == s && s != "" && s[|s| - 1] != '%'
            && ParseI64(s) == if n <= I64_MAX + 1 then Some(0 - n) else None
  {
    NumberIsRead(n);
    var s := Display(TokensRemaining(n), printPercent);
    assert s[|s| - 1] == Decimal(n)[|Decimal(n)| - 1] && Decimal(n)[|Decimal(n)| - 1] in Decimal(n);
  }

  /** Whatever text was read as a number of tokens, printing and reading it again gives the same. */
  lemma ParsedTokensAreReadable<P(!new)>(raw: string, printPercent: P -> string, parsePercent: string -> Option<P>)
    requires var parsed := Parse(raw, parsePercent); parsed.Some? && !parsed.value.Percentage?
    ensures Parse(Display(Parse(raw, parsePercent).value, printPercent), parsePercent) == Parse(raw, parsePercent)
  {
    TokensRoundTripExactly(Parse(raw, parsePercent).value, printPercent, parsePercent);
  }

  /** Neither 0 tokens nor more than fit in a signed 64-bit integer are read back. */
  lemma ZeroAndHugeTokensAreLost<P>(printPercent: P -> string, parsePercent: string -> Option<P>)
    ensures Parse(Display(TokensUsed(0), printPercent), parsePercent) == None
    ensures Parse(Display(TokensUsed(I64_MAX + 1), printPercent), parsePercent) == None
  {
    NumberIsPrinted(0, printPercent);
    NumberIsPrinted(I64_MAX + 1, printPercent);
  }

  lemma NumberIsPrinted<P>(n: U64, printPercent: P -> string)
    ensures var s := Display(TokensUsed(n), printPercent);
            Trimmed(s) == s && s != "" && s[|s| - 1] != '%' && ParseI64(s) == if n <= I64_MAX then Some(n) else None
  {
    NumberIsRead(n);
    assert Decimal(n)[|Decimal(n)| - 1] in Decimal(n);
  }
}
