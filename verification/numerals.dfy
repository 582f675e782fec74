/** Decimal digits: Python's `str(n)` and the zero-padded fields of `strftime`. */
module Numerals {

  predicate IsDigit(c: char) {
    '0' <= c <= '9'
  }

  predicate AllDigits(s: string) {
    forall i :: 0 <= i < |s| ==> IsDigit(s[i])
  }

  function DigitValue(c: char): (n: nat)
    requires IsDigit(c)
    ensures n <= 9
  {
    c as int - '0' as int
  }

  function Digit(n: nat): (c: char)
    requires n <= 9
    ensures IsDigit(c) && DigitValue(c) == n
  {
    ('0' as int + n) as char
  }

  /** The value of a string of decimal digits, most significant first. */
  function ValueOf(s: string): nat
    requires AllDigits(s)
  {
    if s == [] then 0 else ValueOf(s[..|s| - 1]) * 10 + DigitValue(s[|s| - 1])
  }

  function Pow10(k: nat): (p: nat)
    ensures p >= 1
  {
    if k == 0 then 1 else 10 * Pow10(k - 1)
  }

  /** Python's `str(n)` for a non-negative integer: shortest decimal form, no padding. */
  function Decimal(n: nat): (s: string)
    ensures |s| >= 1 && AllDigits(s)
    ensures s[0] == '0' ==> s == "0"
    ensures ValueOf(s) == n
  {
    if n < 10 then [Digit(n)]
    else
      var s := Decimal(n / 10) + [Digit(n % 10)];
      assert s[..|s| - 1] == Decimal(n / 10);
      s
  }

  /** `n` written in exactly `width` digits with leading zeros (`%02d`, `%04d`). */
  function Padded(n: nat, width: nat): (s: string)
    requires n < Pow10(width)
    ensures |s| == width && AllDigits(s)
    ensures ValueOf(s) == n
  {
    if width == 0 then []
    else
      var s := Padded(n / 10, width - 1) + [Digit(n % 10)];
      assert s[..|s| - 1] == Padded(n / 10, width - 1);
      s
  }

  /** Two different numbers never print the same: `str` is injective. */
  lemma DecimalInjective(m: nat, n: nat)
    requires Decimal(m) == Decimal(n)
    ensures m == n
  {
  }

  /** The leading digit is a lower bound of the value. */
  lemma {:induction false} ValueOfLeading(s: string)
    requires AllDigits(s) && s != []
    ensures ValueOf(s) >= DigitValue(s[0])
  {
    if |s| > 1 {
      ValueOfLeading(s[..|s| - 1]);
    }
  }

  /** Reading a digit string back with `Padded` at its own width gives it back. */
  lemma {:induction false} PaddedValueOf(s: string)
    requires AllDigits(s)
    ensures ValueOf(s) < Pow10(|s|) && Padded(ValueOf(s), |s|) == s
  {
    if s != [] {
      var init, last := s[..|s| - 1], s[|s| - 1];
      assert Digit(DigitValue(last)) == last;
      PaddedValueOf(init);
      PaddedSnoc(ValueOf(init), DigitValue(last), |init|);
      assert s == init + [last];
    }
  }

  /** Appending a digit to a number appends it to its padded form, one place wider. */
  lemma PaddedSnoc(v: nat, d: nat, width: nat)
    requires v < Pow10(width) && d <= 9
    ensures v * 10 + d < Pow10(width + 1)
    ensures Padded(v * 10 + d, width + 1) == Padded(v, width) + [Digit(d)]
  {
    Tens(v, d);
  }

  /** A digit string without a superfluous leading zero is what `Decimal` prints for its value. */
  lemma {:induction false} DecimalValueOf(s: string)
    requires AllDigits(s) && s != []
    requires s[0] == '0' ==> s == "0"
    ensures Decimal(ValueOf(s)) == s
  {
    var last := s[|s| - 1];
    assert Digit(DigitValue(last)) == last;
    if |s| > 1 {
      var init := s[..|s| - 1];
      assert init[0] == s[0];
      ValueOfLeading(init);
      DecimalValueOf(init);
      DecimalSnoc(ValueOf(init), DigitValue(last));
      assert s == init + [last];
    }
  }

  /** Appending a digit to a positive number appends it to the number's decimal form. */
  lemma DecimalSnoc(v: nat, d: nat)
    requires v >= 1 && d <= 9
    ensures Decimal(v * 10 + d) == Decimal(v) + [Digit(d)]
  {
    Tens(v, d);
  }

  lemma Tens(v: nat, d: nat)
    requires d <= 9
    ensures (v * 10 + d) / 10 == v && (v * 10 + d) % 10 == d
  {
  }
}
