/** Numbers written out: decimal and lower-case hexadecimal digits, and powers of two. */
module Numerals {

  /** str(n) */
  function Decimal(n: nat): string {
    if n < 10 then [DigitChar(n)] else Decimal(n / 10) + [DigitChar(n % 10)]
  }

  function DigitChar(d: nat): char
    requires d < 10
  {
    ('0' as int + d) as char
  }

  function LowerDigit(d: nat): char
    requires d < 16
  {
    if d < 10 then DigitChar(d) else ('a' as int + (d - 10)) as char
  }

  function TwoPower(k: nat): nat {
    if k == 0 then 1 else 2 * TwoPower(k - 1)
  }
}
