/** Decimal numbers: printing, and reading plain digits. */
module Decimals {
  import opened Wrappers

  predicate IsDigit(c: char)
  {
    '0' <= c <= '9'
  }

  function Decimal(n: nat): (s: string)
    ensures s != "" && forall c :: c in s ==> IsDigit(c)
  {
    var last := ['0' + (n % 10) as char];
    if n < 10 then last else Decimal(n / 10) + last
  }

  /** The value of one or more ASCII digits. */
  function DigitsValue(s: string): Option<nat>
  {
    var n := |s| - 1;
    if n < 0 || !IsDigit(s[n]) then None
    else if n == 0 then Some((s[n] - '0') as nat)
    else
      var front := DigitsValue(s[..n]);
      if front.None? then None else Some(10 * front.value + (s[n] - '0') as nat)
  }

  lemma {:induction false} DigitsOfDecimal(n: nat)
    ensures DigitsValue(Decimal(n)) == Some(n)
  {
    if n >= 10 {
      DigitsOfDecimal(n / 10);
      var front := Decimal(n / 10);
      assert Decimal(n)[..|front|] == front;
    }
  }
}
