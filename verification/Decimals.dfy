/** Python's `str(n)` for a natural number, as it appears in composed identifiers. */
module Decimals {

  function Digit(d: nat): (c: char)
    requires d < 10
    ensures '0' <= c <= '9'
  {
    ('0' as int + d) as char
  }

  function Decimal(n: nat): (s: string)
    ensures s != "" && forall i :: 0 <= i < |s| ==> '0' <= s[i] <= '9'
  {
    if n < 10 then [Digit(n)] else Decimal(n / 10) + [Digit(n % 10)]
  }

  function Value(s: string): nat
    requires forall i :: 0 <= i < |s| ==> '0' <= s[i] <= '9'
  {
    if s == "" then 0 else 10 * Value(s[..|s| - 1]) + (s[|s| - 1] as int - '0' as int)
  }

  /** Reading the numeral back gives the number, so different numbers have different numerals. */
  lemma {:induction false} ValueOfDecimal(n: nat)
    ensures Value(Decimal(n)) == n
  {
    if n < 10 {
      assert Decimal(n)[..0] == "";
    } else {
      ValueOfDecimal(n / 10);
      assert Decimal(n)[..|Decimal(n)| - 1] == Decimal(n / 10);
    }
  }
}
