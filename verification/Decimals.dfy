/** Decimal numerals: without leading zeros, and only so, a numeral is the one of its number. */
module Decimals {
  function Decimal(n: nat): string {
    if n < 10 then ["0123456789"[n]] else Decimal(n / 10) + ["0123456789"[n % 10]]
  }

  function ReadDecimal(s: string): nat {
    if s == "" || !('0' <= s[|s| - 1] <= '9') then 0
    else 10 * ReadDecimal(s[..|s| - 1]) + (s[|s| - 1] as nat - '0' as nat)
  }

  /** The numeral of a number: digits, without leading zeros. */
  predicate IsNumeral(s: string) {
    && s != "" && (forall i :: 0 <= i < |s| ==> '0' <= s[i] <= '9')
    && (|s| > 1 ==> s[0] != '0')
  }

  lemma {:induction false} DecimalIsNumeral(n: nat)
    ensures IsNumeral(Decimal(n)) && ReadDecimal(Decimal(n)) == n
    ensures n > 0 ==> Decimal(n)[0] != '0'
    decreases n
  {
    if n >= 10 {
      DecimalIsNumeral(n / 10);
      assert Decimal(n)[..|Decimal(n)| - 1] == Decimal(n / 10);
    }
  }

  lemma OneMoreDigit(n: nat, c: char)
    requires '0' <= c <= '9'
    ensures var d := c as nat - '0' as nat;
            (n > 0 ==> Decimal(10 * n + d) == Decimal(n) + [c]) && Decimal(d) == [c]
  {
    var d := c as nat - '0' as nat;
    assert "0123456789"[d] == c;
    assert (10 * n + d) / 10 == n && (10 * n + d) % 10 == d;
  }

  /** A numeral is a last digit behind nothing or behind a numeral that does not begin with zero. */
  lemma NumeralParts(s: string)
    requires IsNumeral(s)
    ensures var init, last := s[..|s| - 1], s[|s| - 1];
            && '0' <= last <= '9' && s == init + [last]
            && (init != "" ==> IsNumeral(init) && init[0] == s[0] && s[0] != '0')
  {
  }

  lemma LastDigit(init: string, c: char)
    requires '0' <= c <= '9'
    ensures ReadDecimal(init + [c]) == 10 * ReadDecimal(init) + (c as nat - '0' as nat)
    ensures init == "" ==> ReadDecimal(init) == 0
  {
    assert (init + [c])[..|init|] == init;
  }

  lemma {:induction false} NumeralIsDecimal(s: string)
    requires IsNumeral(s)
    ensures Decimal(ReadDecimal(s)) == s && (s[0] != '0' ==> ReadDecimal(s) > 0)
    decreases |s|
  {
    hide Decimal, ReadDecimal;
    NumeralParts(s);
    var init, last := s[..|s| - 1], s[|s| - 1];
    LastDigit(init, last);
    OneMoreDigit(ReadDecimal(init), last);
    hide IsNumeral;
    if init != "" {
      NumeralIsDecimal(init);
    } else {
      OnlyDigit(last);
    }
  }

  lemma OnlyDigit(c: char)
    ensures '0' <= c <= '9' && c != '0' ==> c as nat - '0' as nat > 0
    ensures [c][0] == c && "" + [c] == [c]
  {
  }
}
