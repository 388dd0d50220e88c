/** Positional numerals: printing in a base, padding with zeros, and reading back. */
module Numerals {
  import opened Numbers

  function DigitChar(d: nat): char
    requires d < 16
  {
    if d < 10 then '0' + d as char else 'A' + (d - 10) as char
  }

  /** Digits are read in either case. */
  function DigitValue(c: char): Option<nat> {
    if '0' <= c <= '9' then Some(c as int - '0' as int)
    else if 'A' <= c <= 'F' then Some(c as int - 'A' as int + 10)
    else if 'a' <= c <= 'f' then Some(c as int - 'a' as int + 10)
    else None
  }

  predicate IsDigit(c: char, base: nat) {
    DigitValue(c).Some? && DigitValue(c).value < base
  }

  predicate IsNumeral(text: string, base: nat) {
    text != "" && forall k :: 0 <= k < |text| ==> IsDigit(text[k], base)
  }

  /** The bases the formatter uses. */
  predicate IsBase(base: nat) {
    base == 2 || base == 10 || base == 16
  }

  function TimesBase(n: nat, base: nat): nat
    requires IsBase(base)
  {
    if base == 2 then n * 2 else if base == 10 then n * 10 else n * 16
  }

  function OverBase(n: nat, base: nat): (q: nat)
    requires IsBase(base)
    ensures n >= base ==> q < n
  {
    if base == 2 then n / 2 else if base == 10 then n / 10 else n / 16
  }

  function LastDigit(n: nat, base: nat): (d: nat)
    requires IsBase(base)
    ensures d < base
  {
    if base == 2 then n % 2 else if base == 10 then n % 10 else n % 16
  }

  function NumeralValue(text: string, base: nat): nat
    requires IsBase(base) && forall k :: 0 <= k < |text| ==> IsDigit(text[k], base)
  {
    if text == "" then 0
    else
      assert IsDigit(text[|text| - 1], base);
      TimesBase(NumeralValue(text[..|text| - 1], base), base) + DigitValue(text[|text| - 1]).value
  }

  function Numeral(n: nat, base: nat): (text: string)
    requires IsBase(base)
    ensures text != ""
  {
    if n < base then [DigitChar(n)] else Numeral(OverBase(n, base), base) + [DigitChar(LastDigit(n, base))]
  }

  function Zeros(count: nat): string {
    seq(count, _ => '0')
  }

  /** `rightJustified(width, '0')`. */
  function PaddedTo(text: string, width: nat): string {
    if |text| >= width then text else Zeros(width - |text|) + text
  }

  lemma DigitRoundTrip(d: nat, base: nat)
    requires d < base <= 16
    ensures IsDigit(DigitChar(d), base) && DigitValue(DigitChar(d)) == Some(d)
  {
  }

  lemma ValueSnoc(text: string, c: char, base: nat)
    requires IsBase(base) && forall k :: 0 <= k < |text| ==> IsDigit(text[k], base)
    requires IsDigit(c, base)
    ensures forall k :: 0 <= k < |text + [c]| ==> IsDigit((text + [c])[k], base)
    ensures NumeralValue(text + [c], base) == TimesBase(NumeralValue(text, base), base) + DigitValue(c).value
  {
    assert (text + [c])[..|text|] == text;
  }

  /** What is printed is read back. */
  lemma {:induction false} NumeralRoundTrip(n: nat, base: nat)
    requires IsBase(base)
    ensures IsNumeral(Numeral(n, base), base) && NumeralValue(Numeral(n, base), base) == n
  {
    if n < base {
      DigitRoundTrip(n, base);
      OneDigit(n, base);
    } else {
      var init, d := Numeral(OverBase(n, base), base), LastDigit(n, base);
      NumeralRoundTrip(OverBase(n, base), base);
      DigitRoundTrip(d, base);
      ValueSnoc(init, DigitChar(d), base);
      DigitsOf(n, base);
      assert Numeral(n, base) == init + [DigitChar(d)];
    }
  }

  lemma OneDigit(d: nat, base: nat)
    requires IsBase(base) && d < base
    ensures IsNumeral([DigitChar(d)], base) && NumeralValue([DigitChar(d)], base) == d
  {
    DigitRoundTrip(d, base);
    ValueSnoc("", DigitChar(d), base);
    assert "" + [DigitChar(d)] == [DigitChar(d)];
  }

  lemma DigitsOf(n: nat, base: nat)
    requires IsBase(base)
    ensures TimesBase(OverBase(n, base), base) + LastDigit(n, base) == n
  {
  }

  lemma {:induction false} LeadingZeros(count: nat, text: string, base: nat)
    requires IsBase(base) && IsNumeral(text, base)
    ensures IsNumeral(Zeros(count) + text, base) && NumeralValue(Zeros(count) + text, base) == NumeralValue(text, base)
  {
    var init, last := text[..|text| - 1], text[|text| - 1];
    assert Zeros(count) + text == (Zeros(count) + init) + [last];
    if init == "" {
      assert Zeros(count) + init == Zeros(count);
      ZerosAreZero(count, base);
      ValueSnoc(Zeros(count), last, base);
    } else {
      LeadingZeros(count, init, base);
      ValueSnoc(Zeros(count) + init, last, base);
    }
  }

  lemma {:induction false} ZerosAreZero(count: nat, base: nat)
    requires IsBase(base)
    ensures forall k :: 0 <= k < count ==> IsDigit(Zeros(count)[k], base)
    ensures NumeralValue(Zeros(count), base) == 0
  {
    if count > 0 {
      ZerosAreZero(count - 1, base);
      assert Zeros(count) == Zeros(count - 1) + ['0'];
      ValueSnoc(Zeros(count - 1), '0', base);
    }
  }

  lemma PaddedRoundTrip(n: nat, base: nat, width: nat)
    requires IsBase(base)
    ensures IsNumeral(PaddedTo(Numeral(n, base), width), base)
    ensures NumeralValue(PaddedTo(Numeral(n, base), width), base) == n
  {
    NumeralRoundTrip(n, base);
    if |Numeral(n, base)| < width {
      LeadingZeros(width - |Numeral(n, base)|, Numeral(n, base), base);
    }
  }
}
