/** Decimal numerals, as printed for sizes, lengths and array indices. */
module Decimal {
  predicate Digits(k: string) {
    k != "" && forall i | 0 <= i < |k| :: '0' <= k[i] <= '9'
  }

  function DigitsValue(k: string): nat
    requires forall i | 0 <= i < |k| :: '0' <= k[i] <= '9'
  {
    if k == "" then 0 else DigitsValue(k[..|k| - 1]) * 10 + (k[|k| - 1] as int - '0' as int)
  }

  function Numeral(n: nat): (k: string)
    ensures Digits(k)
  {
    var last := (n % 10 + '0' as int) as char;
    if n < 10 then [last] else Numeral(n / 10) + [last]
  }

  /** Reading a printed number gives the number back, so different numbers print differently. */
  lemma {:induction false} NumeralReadsBack(n: nat)
    ensures DigitsValue(Numeral(n)) == n
  {
    var k := Numeral(n);
    if n < 10 {
      assert k[..0] == "";
    } else {
      NumeralReadsBack(n / 10);
      assert k[..|k| - 1] == Numeral(n / 10);
    }
  }
}
