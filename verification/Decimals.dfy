/** Decimal numerals: how they are written, and what a string of digits stands for. */
module Decimals {
  import opened Bytes

  function Digit(d: nat): Byte
    requires d < 10
  {
    ('0' as int + d) as char
  }

  function Decimal(n: nat): (s: ByteString)
    ensures s != []
  {
    if n < 10 then [Digit(n)] else Decimal(n / 10) + [Digit(n % 10)]
  }

  predicate AllDigits(s: string) { forall i :: 0 <= i < |s| ==> '0' <= s[i] <= '9' }

  function DigitsValue(s: string): nat
    requires AllDigits(s)
  {
    if s == "" then 0 else 10 * DigitsValue(s[..|s| - 1]) + (s[|s| - 1] as int - '0' as int)
  }

  lemma {:induction false} DecimalValue(n: nat)
    ensures AllDigits(Decimal(n)) && DigitsValue(Decimal(n)) == n
  {
    if n < 10 {
      assert [Digit(n)][..0] == [];
    } else {
      DecimalValue(n / 10);
      DigitsSnoc(Decimal(n / 10), n % 10);
    }
  }

  lemma {:induction false} DigitsSnoc(s: string, d: nat)
    requires AllDigits(s) && d < 10
    ensures AllDigits(s + [Digit(d)]) && DigitsValue(s + [Digit(d)]) == 10 * DigitsValue(s) + d
  {
    assert (s + [Digit(d)])[..|s|] == s;
  }

  /** There is no leading zero. */
  lemma {:induction false} DecimalIsShort(n: nat)
    ensures |Decimal(n)| > 1 ==> Decimal(n)[0] != '0'
  {
    if n >= 10 {
      DecimalIsShort(n / 10);
      assert n < 100 ==> Decimal(n / 10) == [Digit(n / 10)];
      LongDecimal(n / 10);
    }
  }

  lemma {:induction false} LongDecimal(n: nat)
    ensures |Decimal(n)| > 1 <==> n >= 10
  {
  }
}
