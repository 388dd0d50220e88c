/** What number a text shows: the integer formats show the one number in their range that the
    registers hold, in the usual digits; and what number a typed text stores. */
module Displays {
  import opened Numbers
  import opened Numerals
  import opened ValueFormatter

  // ----- usual digits -----

  const DIGITS: string := "0123456789ABCDEF"

  /** One of the digits 0 to F, in upper case, that is worth its place among them. */
  predicate IsUsualDigit(c: char) {
    DigitValue(c).Some? && DigitValue(c).value < |DIGITS| && c == DIGITS[DigitValue(c).value]
  }

  predicate InUsualDigits(text: string) {
    forall k :: 0 <= k < |text| ==> IsUsualDigit(text[k])
  }

  lemma DigitIsUsual(d: nat)
    requires d < 16
    ensures IsUsualDigit(DigitChar(d))
  {
  }

  /** A numeral is in usual digits, and begins with zero only if it is zero. */
  lemma {:induction false} NumeralIsUsual(n: nat, base: nat)
    requires IsBase(base)
    ensures InUsualDigits(Numeral(n, base))
    ensures n > 0 ==> Numeral(n, base)[0] != '0'
    ensures n == 0 ==> Numeral(n, base) == "0"
  {
    hide IsUsualDigit;
    if n < base {
      DigitIsUsual(n);
    } else {
      NumeralIsUsual(OverBase(n, base), base);
      DigitIsUsual(LastDigit(n, base));
      assert OverBase(n, base) > 0;
    }
  }

  function Power(base: nat, k: nat): (p: nat)
    requires IsBase(base)
    ensures p >= 1
  {
    if k == 0 then 1 else TimesBase(Power(base, k - 1), base)
  }

  lemma {:induction false} NumeralFits(n: nat, base: nat, width: nat)
    requires IsBase(base) && width >= 1 && n < Power(base, width)
    ensures |Numeral(n, base)| <= width
  {
    if n >= base {
      NumeralFits(OverBase(n, base), base, width - 1);
    }
  }

  /** So many digits, zeros first, whose value is n. */
  predicate ShowsInDigits(text: string, base: nat, width: nat, n: nat)
    requires IsBase(base)
  {
    |text| == width && InUsualDigits(text) && IsNumeral(text, base) && NumeralValue(text, base) == n
  }

  lemma PaddedShows(n: nat, base: nat, width: nat)
    requires IsBase(base) && width >= 1 && n < Power(base, width)
    ensures ShowsInDigits(PaddedTo(Numeral(n, base), width), base, width, n)
  {
    hide Numeral, NumeralValue, IsUsualDigit, Power;
    NumeralIsUsual(n, base);
    NumeralFits(n, base, width);
    PaddedRoundTrip(n, base, width);
    DigitIsUsual(0);
    assert DigitChar(0) == '0';
  }

  lemma PowersOf16Bits()
    ensures Power(16, 4) == 0x1_0000 && Power(2, 16) == 0x1_0000
  {
    assert Power(2, 8) == 0x100;
  }

  /** Hex shows a prefix and four digits, binary sixteen; neither shows a unit. */
  lemma HexAndBinaryShowTheRegister(lib: Library, settings: FormatSettings, registers: seq<u16>)
    requires |registers| == 1
    ensures settings.format == Hex ==>
              var shown := FormatValue(lib, settings, registers);
              |shown| == 6 && shown[..2] == "0x" && ShowsInDigits(shown[2..], 16, 4, registers[0])
    ensures settings.format == Binary ==>
              ShowsInDigits(FormatValue(lib, settings, registers), 2, 16, registers[0])
  {
    hide Numeral, PaddedTo, ShowsInDigits, Power;
    PowersOf16Bits();
    if settings.format == Hex {
      PaddedShows(registers[0], 16, 4);
      PaddedLength(registers[0], 16, 4);
      assert FormatValue(lib, settings, registers)[2..] == PaddedTo(Numeral(registers[0], 16), 4);
    } else {
      PaddedShows(registers[0], 2, 16);
    }
  }

  lemma PaddedLength(n: nat, base: nat, width: nat)
    requires IsBase(base) && width >= 1 && n < Power(base, width)
    ensures |PaddedTo(Numeral(n, base), width)| == width
  {
    PaddedShows(n, base, width);
  }

  // ----- decimals -----

  /** Digits, with a minus sign in front of them or not. */
  predicate IsDecimal(text: string) {
    if text != "" && text[0] == '-' then IsNumeral(text[1..], 10) else IsNumeral(text, 10)
  }

  function Denoted(text: string): int
    requires IsDecimal(text)
  {
    if text[0] == '-' then 0 - NumeralValue(text[1..], 10) as int else NumeralValue(text, 10)
  }

  /** Nothing superfluous: no leading zeros, no negative zero, usual digits. */
  predicate IsPlain(text: string) {
    var digits := if text != "" && text[0] == '-' then text[1..] else text;
    && digits != "" && InUsualDigits(digits)
    && (digits[0] == '0' ==> text == "0")
  }

  lemma DecimalDenotes(n: int)
    ensures IsDecimal(Decimal(n)) && Denoted(Decimal(n)) == n && IsPlain(Decimal(n))
  {
    hide Numeral, NumeralValue, IsUsualDigit;
    var size: nat := if n < 0 then -n else n;
    NumeralRoundTrip(size, 10);
    NumeralIsUsual(size, 10);
    NumeralsHaveNoBlanks(Numeral(size, 10), 10);
    if n < 0 {
      assert Decimal(n)[1..] == Numeral(size, 10);
    }
  }

  /** The formats that show an integer in decimal. */
  predicate IsInteger(format: DisplayFormat) {
    format == SignedDecimal || format == UnsignedDecimal || format == Int32Signed || format == Int32Unsigned
  }

  predicate IsWide(format: DisplayFormat) {
    format == Float32 || format == Int32Signed || format == Int32Unsigned
  }

  /** How many numbers a format can show, and the lowest of them. */
  function Modulus(format: DisplayFormat): int {
    if IsWide(format) then 0x1_0000_0000 else 0x1_0000
  }

  function Lowest(format: DisplayFormat): int {
    if format == SignedDecimal then -0x8000 else if format == Int32Signed then -0x8000_0000 else 0
  }

  /** What the registers hold, without a sign: the first of two registers is the high half;
      the byte orders swap the registers, the bytes in each, or both. */
  function Held(order: ByteOrder, registers: seq<u16>): nat
    requires |registers| == 1 || |registers| == 2
  {
    if |registers| == 1 then registers[0]
    else
      match order
      case ABCD => registers[0] * 0x1_0000 + registers[1]
      case CDAB => registers[1] * 0x1_0000 + registers[0]
      case BADC => SwapBytes(registers[0]) * 0x1_0000 + SwapBytes(registers[1])
      case DCBA => SwapBytes(registers[1]) * 0x1_0000 + SwapBytes(registers[0])
  }

  lemma PackedIsHeld(order: ByteOrder, registers: seq<u16>)
    requires |registers| == 2
    ensures PackBytes(registers[0], registers[1], order) == Held(order, registers)
  {
    hide PackBytes, SwapBytes;
    var a, b := registers[0], registers[1];
    ByteOrdersAreSwaps(a, b);
    ByteOrdersAreSwaps(b, a);
    ByteOrdersAreSwaps(SwapBytes(a), SwapBytes(b));
    ByteOrdersAreSwaps(SwapBytes(b), SwapBytes(a));
  }

  /** The number of the format's range that the registers hold; there is just one. */
  predicate IsNumberIn(format: DisplayFormat, held: nat, n: int) {
    Lowest(format) <= n < Lowest(format) + Modulus(format) && n % Modulus(format) == held
  }

  lemma IntegerIsNumber(settings: FormatSettings, registers: seq<u16>)
    requires IsInteger(settings.format) && |registers| == RegisterSpanFor(settings.format)
    ensures IsNumberIn(settings.format, Held(settings.byteOrder, registers), IntegerIn(settings, registers))
  {
    hide PackBytes, Held;
    if |registers| == 2 {
      PackedIsHeld(settings.byteOrder, registers);
      SignIsLost(PackBytes(registers[0], registers[1], settings.byteOrder));
    } else {
      OneIsHeld(settings.byteOrder, registers);
      SignIsLost16(registers[0]);
    }
  }

  lemma OneIsHeld(order: ByteOrder, registers: seq<u16>)
    requires |registers| == 1
    ensures Held(order, registers) == registers[0]
  {
  }

  lemma NumbersAreUnique(format: DisplayFormat, held: nat, m: int, n: int)
    requires IsNumberIn(format, held, m) && IsNumberIn(format, held, n)
    ensures m == n
  {
  }

  /** Without scaling, an integer format shows, before the unit if there is one, the one number
      of its range that is congruent to what the registers hold: for the signed formats from
      -2^15 or -2^31 on, for the unsigned ones from 0. */
  lemma IntegersShowTheirNumber(lib: Library, settings: FormatSettings, registers: seq<u16>) returns (text: string)
    requires |registers| == RegisterSpanFor(settings.format)
    requires IsInteger(settings.format) && settings.scale == 1.0 && settings.offset == 0.0
    ensures FormatValue(lib, settings, registers) == text + (if settings.unit == "" then "" else " " + settings.unit)
    ensures IsDecimal(text) && IsPlain(text)
    ensures IsNumberIn(settings.format, Held(settings.byteOrder, registers), Denoted(text))
  {
    hide IsDecimal, Denoted, IsPlain, Held, IntegerIn, IsNumberIn;
    IntegerIsNumber(settings, registers);
    DecimalDenotes(IntegerIn(settings, registers));
    text := Decimal(IntegerIn(settings, registers));
    assert text + "" == text;
  }

  /** With the default settings a register shows as itself. */
  lemma DefaultShowsTheRegister(lib: Library, register: u16) returns (text: string)
    ensures RegisterSpanFor(DEFAULT_SETTINGS.format) == 1
    ensures FormatValue(lib, DEFAULT_SETTINGS, [register]) == text
    ensures IsDecimal(text) && IsPlain(text) && Denoted(text) == register
  {
    hide IsDecimal, Denoted, IsPlain;
    text := IntegersShowTheirNumber(lib, DEFAULT_SETTINGS, [register]);
    assert text + "" == text;
  }

  // ----- typed numbers -----

  lemma DecimalIsRead(lib: Library, text: string)
    requires IsDecimal(text) && -EXACT_LIMIT <= Denoted(text) <= EXACT_LIMIT
    ensures ReadReal(lib, text) == Some(Denoted(text) as real)
    ensures forall k :: 0 <= k < |text| ==> text[k] != ' '
  {
    hide NumeralValue, IsDigit;
    if text[0] == '-' {
      NumeralsHaveNoBlanks(text[1..], 10);
      assert forall k :: 1 <= k < |text| ==> text[k] == text[1..][k - 1];
      MinusIsNoDigit();
      assert !IsDigit(text[0], 10);
    } else {
      NumeralsHaveNoBlanks(text, 10);
    }
  }

  lemma MinusIsNoDigit()
    ensures !IsDigit('-', 10)
  {
  }

  /** The typed text, with the unit behind it or not. */
  predicate TypedAs(typed: string, text: string, settings: FormatSettings) {
    typed == text || (settings.unit != "" && typed == text + " " + settings.unit)
  }

  lemma UnitIsTakenOff(typed: string, text: string, settings: FormatSettings)
    requires TypedAs(typed, text, settings) && forall k :: 0 <= k < |text| ==> text[k] != ' '
    ensures WithoutUnit(typed, settings) == text
  {
    if typed == text {
      NoUnitInside(text, settings);
    } else {
      assert typed == text + UnitSuffix(settings);
      UnitRoundTrip(text, settings);
    }
  }

  lemma HeldAfterRounding(lib: Library, settings: FormatSettings, raw: real)
    requires IsInteger(settings.format)
    ensures var registers := RegistersOf(lib, settings, raw);
            && |registers| == RegisterSpanFor(settings.format)
            && Held(settings.byteOrder, registers) == Round(raw) % Modulus(settings.format)
  {
    hide Held, PackBytes, UnpackToRegisters, Round;
    var registers, n := RegistersOf(lib, settings, raw), Round(raw);
    if IsWide(settings.format) {
      UnpackThenPack(Truncate32(n), settings.byteOrder);
      PackedIsHeld(settings.byteOrder, registers);
    } else {
      OneIsHeld(settings.byteOrder, registers);
    }
  }

  /** A typed integer, with or without sign and unit, stores registers that hold it modulo
      2^16 or 2^32. */
  lemma TypedIntegerIsStored(lib: Library, settings: FormatSettings, typed: string, text: string)
    requires IsInteger(settings.format) && settings.scale == 1.0 && settings.offset == 0.0
    requires TypedAs(typed, text, settings)
    requires IsDecimal(text) && -EXACT_LIMIT <= Denoted(text) <= EXACT_LIMIT
    ensures var parsed := ParseValue(lib, settings, typed);
            && parsed.Some? && |parsed.value| == RegisterSpanFor(settings.format)
            && Held(settings.byteOrder, parsed.value) == Denoted(text) % Modulus(settings.format)
  {
    hide Denoted, ReadReal, IsDecimal, WithoutUnit, Held, RegistersOf, Round;
    DecimalIsRead(lib, text);
    UnitIsTakenOff(typed, text, settings);
    RoundInteger(Denoted(text));
    HeldAfterRounding(lib, settings, Denoted(text) as real);
  }

  /** The integer nearest to x, and of two the one farther from zero. */
  predicate IsNearest(x: real, n: int) {
    if x >= 0.0 then -0.5 < n as real - x <= 0.5 else -0.5 <= n as real - x < 0.5
  }

  lemma RoundIsNearest(x: real)
    ensures IsNearest(x, Round(x))
  {
  }

  /** Any typed number that is read stores, unscaled, the integer nearest to it. */
  lemma TypedNumberIsRounded(lib: Library, settings: FormatSettings, typed: string, x: real) returns (n: int)
    requires IsInteger(settings.format) && ReadReal(lib, WithoutUnit(typed, settings)) == Some(x)
    ensures IsNearest(if settings.scale == 1.0 && settings.offset == 0.0 then x else lib.unscale(x, settings), n)
    ensures var parsed := ParseValue(lib, settings, typed);
            && parsed.Some? && |parsed.value| == RegisterSpanFor(settings.format)
            && Held(settings.byteOrder, parsed.value) == n % Modulus(settings.format)
  {
    hide ReadReal, WithoutUnit, Held, RegistersOf, Round, IsNearest;
    var raw := if IsDefaultScaling(settings) then x else lib.unscale(x, settings);
    n := Round(raw);
    RoundIsNearest(raw);
    HeldAfterRounding(lib, settings, raw);
  }

  /** A typed hexadecimal or binary number of at most 32 bits stores its low 16 bits; a larger
      one is refused. The prefix is optional. */
  lemma TypedDigitsAreStored(lib: Library, settings: FormatSettings, typed: string, digits: string)
    requires settings.format == Hex || settings.format == Binary
    requires IsNumeral(digits, if settings.format == Hex then 16 else 2)
    requires if settings.format == Hex then
               TypedAs(typed, digits, settings) || TypedAs(typed, "0x" + digits, settings) || TypedAs(typed, "0X" + digits, settings)
             else TypedAs(typed, digits, settings)
    ensures var n := NumeralValue(digits, if settings.format == Hex then 16 else 2);
            ParseValue(lib, settings, typed) == if n < 0x1_0000_0000 then Some([n % 0x1_0000]) else None
  {
    hide NumeralValue, IsNumeral, WithoutUnit, TypedAs;
    var base := if settings.format == Hex then 16 else 2;
    NumeralsHaveNoBlanks(digits, base);
    var text := if TypedAs(typed, digits, settings) then digits
                else if TypedAs(typed, "0x" + digits, settings) then "0x" + digits
                else "0X" + digits;
    UnitIsTakenOff(typed, text, settings);
    if text == digits {
      DigitsHaveNoPrefix(digits, base);
    } else {
      assert text[2..] == digits;
    }
  }

  lemma DigitsHaveNoPrefix(digits: string, base: nat)
    requires IsNumeral(digits, base) && base <= 16
    ensures !StartsWithHexPrefix(digits)
  {
    if |digits| >= 2 {
      assert IsDigit(digits[1], base);
    }
  }

  // ----- scaled values and floats -----

  /** What the settings make of a number. */
  function Scaled(settings: FormatSettings, x: real): real {
    x * settings.scale + settings.offset
  }

  /** The number that is scaled: the float with that pattern, or the integer held. */
  predicate IsUnscaled(lib: Library, settings: FormatSettings, registers: seq<u16>, x: real)
    requires |registers| == RegisterSpanFor(settings.format) && (IsInteger(settings.format) || settings.format == Float32)
  {
    var held := Held(settings.byteOrder, registers);
    if settings.format == Float32 then x == lib.floatOf(held)
    else x == x.Floor as real && IsNumberIn(settings.format, held, x.Floor)
  }

  /** The library prints this number so that it is read back as it is. */
  predicate PrintsExactly(lib: Library, x: real) {
    ReadReal(lib, lib.printReal(x)) == Some(x)
  }

  /** The library undoes the scaling, and finds the pattern of a float again. */
  predicate InvertsExactly(lib: Library, settings: FormatSettings, registers: seq<u16>, x: real)
    requires |registers| == 1 || |registers| == 2
  {
    && (IsDefaultScaling(settings) || lib.unscale(Scaled(settings, x), settings) == x)
    && (settings.format == Float32 ==> Truncate32(lib.floatBits(x)) == Held(settings.byteOrder, registers))
  }

  lemma UnscaledIs(lib: Library, settings: FormatSettings, registers: seq<u16>, x: real)
    requires |registers| == RegisterSpanFor(settings.format) && (IsInteger(settings.format) || settings.format == Float32)
    requires IsUnscaled(lib, settings, registers, x)
    ensures NumericValue(lib, settings, registers) == Scaled(settings, x)
    ensures settings.format != Float32 ==> x == IntegerIn(settings, registers) as real
  {
    hide PackBytes, Held, IntegerIn, IsNumberIn;
    var held := Held(settings.byteOrder, registers);
    if settings.format == Float32 {
      PackedIsHeld(settings.byteOrder, registers);
    } else {
      IntegerIsNumber(settings, registers);
      NumbersAreUnique(settings.format, held, x.Floor, IntegerIn(settings, registers));
    }
  }

  /** Floats, and integers with a scaling, show as the library prints scale times the number
      plus offset, before the unit; and where the library is exact, reading that gives back the
      registers. */
  lemma ScaledShowAndReadBack(lib: Library, settings: FormatSettings, registers: seq<u16>, x: real)
    requires |registers| == RegisterSpanFor(settings.format) && (IsInteger(settings.format) || settings.format == Float32)
    requires settings.format == Float32 || !(settings.scale == 1.0 && settings.offset == 0.0)
    requires IsUnscaled(lib, settings, registers, x)
    ensures FormatValue(lib, settings, registers)
         == lib.printReal(Scaled(settings, x)) + (if settings.unit == "" then "" else " " + settings.unit)
    ensures PrintsExactly(lib, Scaled(settings, x)) && InvertsExactly(lib, settings, registers, x) ==>
              ParseValue(lib, settings, FormatValue(lib, settings, registers)) == Some(registers)
  {
    hide Scaled, NumericValue, IntegerIn, Held, IsUnscaled, RegistersOf, ReadReal, WithoutUnit;
    UnscaledIs(lib, settings, registers, x);
    var text := lib.printReal(Scaled(settings, x));
    assert text + "" == text;
    UnitRoundTrip(text, settings);
    assert FormatValue(lib, settings, registers) == WithUnit(text, settings);
    if PrintsExactly(lib, Scaled(settings, x)) && InvertsExactly(lib, settings, registers, x) {
      ExactIsStored(lib, settings, registers, x);
      if IsDefaultScaling(settings) {
        NothingScaled(settings, x);
      }
    }
  }

  lemma NothingScaled(settings: FormatSettings, x: real)
    requires IsDefaultScaling(settings)
    ensures Scaled(settings, x) == x
  {
  }

  lemma ExactIsStored(lib: Library, settings: FormatSettings, registers: seq<u16>, x: real)
    requires |registers| == RegisterSpanFor(settings.format) && (IsInteger(settings.format) || settings.format == Float32)
    requires InvertsExactly(lib, settings, registers, x)
    requires settings.format != Float32 ==> x == IntegerIn(settings, registers) as real
    ensures RegistersOf(lib, settings, x) == registers
  {
    hide PackBytes, Held, IntegerIn, UnpackToRegisters;
    if settings.format == Float32 {
      PackedIsHeld(settings.byteOrder, registers);
      PackThenUnpack(registers[0], registers[1], settings.byteOrder);
      assert registers == [registers[0], registers[1]];
    } else {
      IntegersRoundTrip(lib, settings, registers);
    }
  }
}
