/** Decimal numerals as the services write them into keys. */
module Digits {

  const DIGITS := "0123456789"

  function Digit(n: nat): char
    requires n < 10
  {
    DIGITS[n]
  }

  /** `n` in decimal without leading zeros. */
  function Decimal(n: nat): (s: string)
    ensures s != ""
    ensures forall i :: 0 <= i < |s| ==> s[i] in DIGITS
  {
    if n < 10 then [Digit(n)] else Decimal(n / 10) + [Digit(n % 10)]
  }

  lemma {:induction false} DecimalInjective(a: nat, b: nat)
    ensures Decimal(a) == Decimal(b) ==> a == b
  {
    if Decimal(a) == Decimal(b) {
      var s := Decimal(a);
      assert s[|s| - 1] == Digit(a % 10) == Digit(b % 10);
      if a >= 10 && b >= 10 {
        assert s[..|s| - 1] == Decimal(a / 10) == Decimal(b / 10);
        DecimalInjective(a / 10, b / 10);
      }
    }
  }

  /** The `width` last digits of `n`, zeros included. */
  function Padded(n: nat, width: nat): (s: string)
    ensures |s| == width
  {
    if width == 0 then "" else Padded(n / 10, width - 1) + [Digit(n % 10)]
  }

  predicate Fits(n: nat, width: nat) {
    if width == 0 then n == 0 else Fits(n / 10, width - 1)
  }

  lemma FourDigits(n: nat)
    requires n < 10000
    ensures Fits(n, 4)
  {
    assert n / 10 < 1000 && n / 10 / 10 < 100 && n / 10 / 10 / 10 < 10;
    assert Fits(n / 10 / 10 / 10, 1);
    assert Fits(n / 10 / 10, 2);
  }

  lemma {:induction false} PaddedInjective(a: nat, b: nat, width: nat)
    requires Fits(a, width) && Fits(b, width) && Padded(a, width) == Padded(b, width)
    ensures a == b
  {
    if width > 0 {
      var s := Padded(a, width);
      assert s[..width - 1] == Padded(a / 10, width - 1) == Padded(b / 10, width - 1);
      assert s[width - 1] == Digit(a % 10) == Digit(b % 10);
      PaddedInjective(a / 10, b / 10, width - 1);
    }
  }

  /** What a row of digits spells. */
  function Value(s: string): int {
    if s == "" then 0 else Value(s[..|s| - 1]) * 10 + (s[|s| - 1] as int - '0' as int)
  }

  predicate AllDigits(s: string) {
    forall i :: 0 <= i < |s| ==> '0' <= s[i] <= '9'
  }

  lemma DigitSpells(n: nat)
    requires n < 10
    ensures '0' <= Digit(n) <= '9' && Digit(n) as int - '0' as int == n
  {
    assert DIGITS[0] == '0' && DIGITS[1] == '1' && DIGITS[2] == '2' && DIGITS[3] == '3' && DIGITS[4] == '4';
    assert DIGITS[5] == '5' && DIGITS[6] == '6' && DIGITS[7] == '7' && DIGITS[8] == '8' && DIGITS[9] == '9';
  }

  lemma {:induction false} DecimalSpells(n: nat)
    ensures AllDigits(Decimal(n)) && Value(Decimal(n)) == n
  {
    DigitSpells(n % 10);
    if n < 10 {
      assert [Digit(n)][..0] == "";
      assert Value([Digit(n)]) == Value([Digit(n)][..0]) * 10 + (Digit(n) as int - '0' as int);
    } else {
      DecimalSpells(n / 10);
      ValueOneMore(Decimal(n / 10), Digit(n % 10));
    }
  }

  lemma ValueOneMore(s: string, c: char)
    ensures Value(s + [c]) == Value(s) * 10 + (c as int - '0' as int)
  {
    assert (s + [c])[..|s|] == s;
  }

  lemma {:induction false} PaddedSpells(n: nat, width: nat)
    requires Fits(n, width)
    ensures AllDigits(Padded(n, width)) && Value(Padded(n, width)) == n
  {
    if width > 0 {
      PaddedSpells(n / 10, width - 1);
      OneMoreDigitSpells(Padded(n / 10, width - 1), n / 10, n % 10);
      assert n == n / 10 * 10 + n % 10;
    }
  }

  lemma OneMoreDigitSpells(s: string, n: nat, d: nat)
    requires AllDigits(s) && Value(s) == n && d < 10
    ensures AllDigits(s + [Digit(d)]) && Value(s + [Digit(d)]) == n * 10 + d
  {
    DigitSpells(d);
    ValueOneMore(s, Digit(d));
  }
}
