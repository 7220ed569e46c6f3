/** Printing and parsing of unsigned decimal numbers. */
module Decimals {
  import opened Wrappers

  predicate IsDigit(c: char) { 48 <= c as int <= 57 }

  predicate AllDigits(s: string) {
    forall i :: 0 <= i < |s| ==> IsDigit(s[i])
  }

  function Decimal(n: nat): string {
    if n < 10 then [(48 + n) as char] else Decimal(n / 10) + [(48 + n % 10) as char]
  }

  function DigitValue(c: char): nat
    requires IsDigit(c)
  {
    c as int - 48
  }

  function DigitsValue(s: string): nat
    requires AllDigits(s)
  {
    if s == "" then 0 else 10 * DigitsValue(s[..|s| - 1]) + DigitValue(s[|s| - 1])
  }

  /** Decimal digits only, with an upper bound. */
  function ParseUint(s: string, max: nat): Option<nat> {
    if s == "" || !AllDigits(s) || DigitsValue(s) > max then None else Some(DigitsValue(s))
  }

  lemma {:induction false} DecimalDigits(n: nat)
    ensures Decimal(n) != "" && AllDigits(Decimal(n))
    ensures DigitsValue(Decimal(n)) == n
  {
    if n < 10 {
      var s := Decimal(n);
      assert s[..0] == "" && DigitsValue(s[..0]) == 0;
      assert DigitsValue(s) == n;
    } else {
      DecimalDigits(n / 10);
      var s := Decimal(n);
      assert s[..|s| - 1] == Decimal(n / 10);
      assert forall i :: 0 <= i < |s| - 1 ==> s[i] == Decimal(n / 10)[i];
    }
  }

  /** A printed number parses back, within the bound of the parser. */
  lemma ParseOfDecimal(n: nat, max: nat)
    ensures ParseUint(Decimal(n), max) == if n <= max then Some(n) else None
  {
    DecimalDigits(n);
  }
}
