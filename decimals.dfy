/** Decimal numerals: the digits Python's `str(n)` and `%02d`-style formatting write. */
module Decimals {
  function Digit(v: int): (c: char)
    requires 0 <= v < 10
    ensures '0' <= c <= '9' && c as int - '0' as int == v
  {
    (v + '0' as int) as char
  }

  /** The number the digits `s` denote, most significant first. */
  function DigitsValue(s: string): int {
    if s == [] then 0 else DigitsValue(s[..|s| - 1]) * 10 + (s[|s| - 1] as int - '0' as int)
  }

  predicate AllDigits(s: string) {
    forall i :: 0 <= i < |s| ==> '0' <= s[i] <= '9'
  }

  /** `str(n)`: the shortest decimal numeral of `n`, with no leading zero. */
  function Decimal(n: nat): (s: string)
    ensures |s| >= 1 && AllDigits(s)
    ensures DigitsValue(s) == n
    ensures n > 0 ==> s[0] != '0'
  {
    var digit := [Digit(n % 10)];
    if n < 10 then
      assert digit[..0] == [];
      digit
    else
      var high := Decimal(n / 10);
      assert (high + digit)[..|high|] == high;
      high + digit
  }
}
