/** Decimal text: `str` of an integer, `int` of a numeral, and that they are inverse. */
module Decimal {

  predicate IsDigit(c: char) {
    '0' <= c <= '9'
  }

  /** `str.isdecimal`, for the ASCII digits. */
  predicate IsDecimal(s: string) {
    s != "" && forall i | 0 <= i < |s| :: IsDigit(s[i])
  }

  /** An optional minus sign and digits. */
  predicate IsNumeral(s: string) {
    IsDecimal(if s != "" && s[0] == '-' then s[1..] else s)
  }

  function DigitChar(d: nat): char
    requires d < 10
  {
    '0' + d as char
  }

  function DigitValue(c: char): nat
    requires IsDigit(c)
  {
    (c - '0') as nat
  }

  function ShowNat(n: nat): string {
    if n < 10 then [DigitChar(n)] else ShowNat(n / 10) + [DigitChar(n % 10)]
  }

  function Show(n: int): string {
    if n < 0 then "-" + ShowNat(-n) else ShowNat(n)
  }

  /** The text of an integer, digit by digit. */
  lemma DigitsShown(n: nat)
    ensures n < 10 ==> Show(n) == ["0123456789"[n]]
    ensures n >= 10 ==> Show(n) == Show(n / 10) + ["0123456789"[n % 10]]
    ensures n > 0 ==> Show(0 - n) == "-" + Show(n)
  {
    assert forall d: nat | d < 10 :: "0123456789"[d] == DigitChar(d);
  }

  function ReadNat(s: string): nat
    requires IsDecimal(s)
  {
    var last := DigitValue(s[|s| - 1]);
    if |s| == 1 then last else 10 * ReadNat(s[..|s| - 1]) + last
  }

  function Read(s: string): int
    requires IsNumeral(s)
  {
    if s[0] == '-' then 0 - ReadNat(s[1..]) else ReadNat(s)
  }

  lemma {:induction false} ReadShowNat(n: nat)
    ensures IsDecimal(ShowNat(n)) && ReadNat(ShowNat(n)) == n
  {
    if n >= 10 {
      ReadShowNat(n / 10);
      var text := ShowNat(n);
      assert text[..|text| - 1] == ShowNat(n / 10);
    }
  }

  /** Printing an integer and reading it back gives the integer; the print is a numeral. */
  lemma ReadShow(n: int)
    ensures IsNumeral(Show(n)) && Read(Show(n)) == n
  {
    ReadShowNat(if n < 0 then -n else n);
    if n < 0 {
      assert Show(n)[1..] == ShowNat(-n);
    }
  }

  lemma ShowInjective(m: int, n: int)
    requires Show(m) == Show(n)
    ensures m == n
  {
    ReadShow(m);
    ReadShow(n);
  }
}
