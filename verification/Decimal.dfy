/**
 Decimal numerals: QString::number and QString::toInt on the texts the registry sends.
 */
module Decimal {

  import opened Wrappers

  predicate IsDigit(c: char) {
    '0' <= c <= '9'
  }

  predicate IsNumeral(s: string) {
    s != "" && forall c :: c in s ==> IsDigit(c)
  }

  function Numeral(n: nat): (s: string)
    ensures IsNumeral(s)
  {
    var digit := [('0' as int + n % 10) as char];
    if n < 10 then digit else Numeral(n / 10) + digit
  }

  function NumeralValue(s: string): int
    requires forall c :: c in s ==> IsDigit(c)
  {
    if s == "" then 0 else NumeralValue(s[..|s| - 1]) * 10 + (s[|s| - 1] as int - '0' as int)
  }

  // QString::number(n)
  function Number(n: int): string {
    if n < 0 then "-" + Numeral(-n) else Numeral(n)
  }

  // QString::toInt(): 0 for a text that is no numeral or does not fit an int
  function ToInt(s: string): int {
    if IsNumeral(s) && NumeralValue(s) <= INT_MAX then NumeralValue(s)
    else if s != "" && s[0] == '-' && IsNumeral(s[1..]) && -NumeralValue(s[1..]) >= INT_MIN then -NumeralValue(s[1..])
    else 0
  }

  lemma {:induction false} NumeralRoundTrip(n: nat)
    ensures NumeralValue(Numeral(n)) == n
  {
    if n >= 10 {
      NumeralRoundTrip(n / 10);
      assert Numeral(n)[..|Numeral(n)| - 1] == Numeral(n / 10);
    } else {
      assert Numeral(n)[..0] == "";
    }
  }

  lemma NumberRoundTrip(n: int)
    requires INT_MIN <= n <= INT_MAX
    ensures ToInt(Number(n)) == n
  {
    if n < 0 {
      NumeralRoundTrip(-n);
      assert Number(n)[0] == '-' && !IsDigit('-');
      assert Number(n)[1..] == Numeral(-n);
    } else {
      NumeralRoundTrip(n);
    }
  }
}
