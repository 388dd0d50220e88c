/** Register contents as text and back. What the number library does with texts that are not
    plain integers, and with values that are scaled, is a parameter. */
module ValueFormatter {
  import opened Numbers
  import opened Numerals

  datatype DisplayFormat =
    | SignedDecimal
    | UnsignedDecimal
    | Hex
    | Binary
    | Float32
    | Int32Signed
    | Int32Unsigned

  datatype ByteOrder = ABCD | BADC | CDAB | DCBA

  datatype FormatSettings = FormatSettings(
    format: DisplayFormat,
    byteOrder: ByteOrder,
    scale: real,
    offset: real,
    unit: string)

  const DEFAULT_SETTINGS: FormatSettings := FormatSettings(UnsignedDecimal, ABCD, 1.0, 0.0, "")

  /** Printing of reals; reading of texts other than plain integers, as a real or as an
      unsigned number in a base; the 32-bit pattern of a float and its value; unscaling,
      which divides by a scale that may be zero. */
  datatype Library = Library(
    printReal: real -> string,
    readReal: string -> Option<real>,
    readUnsigned: (string, nat) -> Option<u32>,
    floatOf: int -> real,
    floatBits: real -> int,
    unscale: (real, FormatSettings) -> real)

  // ----- two registers as four bytes -----

  function PackBytes(r0: u16, r1: u16, order: ByteOrder): u32 {
    var h0, l0, h1, l1 := r0 / 0x100, r0 % 0x100, r1 / 0x100, r1 % 0x100;
    match order
    case ABCD => Assemble(h0, l0, h1, l1)
    case BADC => Assemble(l0, h0, l1, h1)
    case CDAB => Assemble(h1, l1, h0, l0)
    case DCBA => Assemble(l1, h1, l0, h0)
  }

  function Assemble(a: u8, b: u8, c: u8, d: u8): u32 {
    (a * 0x100 + b) * 0x1_0000 + (c * 0x100 + d)
  }

  /** The shifts by 24, 16, 8 and 0 bits, masked to a byte. */
  function UnpackToRegisters(value: u32, order: ByteOrder): (r: seq<u16>)
    ensures |r| == 2
  {
    var high, low := value / 0x1_0000, value % 0x1_0000;
    var a, b, c, d := high / 0x100, high % 0x100, low / 0x100, low % 0x100;
    match order
    case ABCD => [a * 0x100 + b, c * 0x100 + d]
    case BADC => [b * 0x100 + a, d * 0x100 + c]
    case CDAB => [c * 0x100 + d, a * 0x100 + b]
    case DCBA => [d * 0x100 + c, b * 0x100 + a]
  }

  lemma Halves(high: u16, low: u16)
    ensures (high * 0x1_0000 + low) / 0x1_0000 == high && (high * 0x1_0000 + low) % 0x1_0000 == low
  {
  }

  lemma TwoBytes(a: u8, b: u8)
    ensures (a * 0x100 + b) / 0x100 == a && (a * 0x100 + b) % 0x100 == b
  {
  }

  lemma AssembleParts(a: u8, b: u8, c: u8, d: u8)
    ensures var value := Assemble(a, b, c, d);
            && value / 0x1_0000 / 0x100 == a && value / 0x1_0000 % 0x100 == b
            && value % 0x1_0000 / 0x100 == c && value % 0x1_0000 % 0x100 == d
  {
    Halves(a * 0x100 + b, c * 0x100 + d);
    TwoBytes(a, b);
    TwoBytes(c, d);
  }

  /** Unpacking undoes packing, for every byte order. */
  lemma PackThenUnpack(r0: u16, r1: u16, order: ByteOrder)
    ensures UnpackToRegisters(PackBytes(r0, r1, order), order) == [r0, r1]
  {
    var h0, l0, h1, l1 := r0 / 0x100, r0 % 0x100, r1 / 0x100, r1 % 0x100;
    match order
    case ABCD => AssembleParts(h0, l0, h1, l1);
    case BADC => AssembleParts(l0, h0, l1, h1);
    case CDAB => AssembleParts(h1, l1, h0, l0);
    case DCBA => AssembleParts(l1, h1, l0, h0);
  }

  lemma PackOfBytes(a: u8, b: u8, c: u8, d: u8)
    ensures PackBytes(a * 0x100 + b, c * 0x100 + d, ABCD) == Assemble(a, b, c, d)
    ensures PackBytes(b * 0x100 + a, d * 0x100 + c, BADC) == Assemble(a, b, c, d)
    ensures PackBytes(c * 0x100 + d, a * 0x100 + b, CDAB) == Assemble(a, b, c, d)
    ensures PackBytes(d * 0x100 + c, b * 0x100 + a, DCBA) == Assemble(a, b, c, d)
  {
    TwoBytes(a, b);
    TwoBytes(b, a);
    TwoBytes(c, d);
    TwoBytes(d, c);
  }

  /** Packing undoes unpacking, so each byte order is a bijection. */
  lemma UnpackThenPack(value: u32, order: ByteOrder)
    ensures PackBytes(UnpackToRegisters(value, order)[0], UnpackToRegisters(value, order)[1], order) == value
  {
    hide PackBytes, Assemble;
    var high, low := value / 0x1_0000, value % 0x1_0000;
    PackOfBytes(high / 0x100, high % 0x100, low / 0x100, low % 0x100);
    Rebuilt(value, high, low);
  }

  lemma Rebuilt(value: u32, high: u16, low: u16)
    requires value == high * 0x1_0000 + low
    ensures Assemble(high / 0x100, high % 0x100, low / 0x100, low % 0x100) == value
  {
  }

  /** What the four orders mean: register 0 first is plain big-endian; the others swap the
      registers, the bytes in each of them, or both. */
  lemma ByteOrdersAreSwaps(r0: u16, r1: u16)
    ensures PackBytes(r0, r1, ABCD) == r0 * 0x1_0000 + r1
    ensures PackBytes(r0, r1, CDAB) == PackBytes(r1, r0, ABCD)
    ensures PackBytes(r0, r1, BADC) == PackBytes(SwapBytes(r0), SwapBytes(r1), ABCD)
    ensures PackBytes(r0, r1, DCBA) == PackBytes(SwapBytes(r1), SwapBytes(r0), ABCD)
  {
  }

  function SwapBytes(r: u16): u16 {
    r % 0x100 * 0x100 + r / 0x100
  }

  // ----- printing -----

  function RegisterSpanFor(format: DisplayFormat): nat {
    match format
    case Float32 => 2
    case Int32Signed => 2
    case Int32Unsigned => 2
    case _ => 1
  }

  function AsSigned16(r: u16): int {
    if r < 0x8000 then r else r - 0x1_0000
  }

  function AsSigned32(value: u32): int {
    if value < 0x8000_0000 then value else value - 0x1_0000_0000
  }

  predicate IsDefaultScaling(settings: FormatSettings) {
    settings.scale == 1.0 && settings.offset == 0.0
  }

  function Decimal(n: int): string {
    if n < 0 then "-" + Numeral(-n, 10) else Numeral(n, 10)
  }

  function WithUnit(text: string, settings: FormatSettings): string {
    if settings.unit == "" then text else text + UnitSuffix(settings)
  }

  function UnitSuffix(settings: FormatSettings): string {
    " " + settings.unit
  }

  /** The integer a format other than Float32 shows. */
  function IntegerIn(settings: FormatSettings, registers: seq<u16>): int
    requires |registers| == RegisterSpanFor(settings.format)
  {
    match settings.format
    case SignedDecimal => AsSigned16(registers[0])
    case Int32Signed => AsSigned32(PackBytes(registers[0], registers[1], settings.byteOrder))
    case Int32Unsigned => PackBytes(registers[0], registers[1], settings.byteOrder)
    case _ => registers[0]
  }

  function NumericValue(lib: Library, settings: FormatSettings, registers: seq<u16>): real
    requires |registers| == RegisterSpanFor(settings.format)
  {
    match settings.format
    case Hex => registers[0] as real
    case Binary => registers[0] as real
    case Float32 =>
      lib.floatOf(PackBytes(registers[0], registers[1], settings.byteOrder)) * settings.scale + settings.offset
    case _ => IntegerIn(settings, registers) as real * settings.scale + settings.offset
  }

  function FormatValue(lib: Library, settings: FormatSettings, registers: seq<u16>): string
    requires |registers| == RegisterSpanFor(settings.format)
  {
    match settings.format
    case Hex => "0x" + PaddedTo(Numeral(registers[0], 16), 4)
    case Binary => PaddedTo(Numeral(registers[0], 2), 16)
    case _ =>
      WithUnit(if settings.format != Float32 && IsDefaultScaling(settings) then Decimal(IntegerIn(settings, registers))
               else lib.printReal(NumericValue(lib, settings, registers)),
               settings)
  }

  // ----- reading -----

  predicate EndsWith(text: string, suffix: string) {
    |text| >= |suffix| && text[|text| - |suffix|..] == suffix
  }

  function WithoutUnit(text: string, settings: FormatSettings): string {
    if settings.unit != "" && EndsWith(text, UnitSuffix(settings)) then text[..|text| - |UnitSuffix(settings)|] else text
  }

  /** `toUInt`: fails beyond 32 bits. */
  function ReadUnsigned(lib: Library, text: string, base: nat): Option<u32>
    requires IsBase(base)
  {
    if IsNumeral(text, base) then
      if NumeralValue(text, base) < 0x1_0000_0000 then Some(NumeralValue(text, base)) else None
    else lib.readUnsigned(text, base)
  }

  /** Integers up to here are exact as doubles. */
  const EXACT_LIMIT: int := 0x20_0000_0000_0000

  /** `toDouble`. */
  function ReadReal(lib: Library, text: string): Option<real> {
    if IsNumeral(text, 10) && NumeralValue(text, 10) <= EXACT_LIMIT then Some(NumeralValue(text, 10) as real)
    else if |text| > 0 && text[0] == '-' && IsNumeral(text[1..], 10) && NumeralValue(text[1..], 10) <= EXACT_LIMIT then
      Some(0.0 - NumeralValue(text[1..], 10) as real)
    else lib.readReal(text)
  }

  /** `qRound64`: halves away from zero. */
  function Round(x: real): int {
    if x >= 0.0 then (x + 0.5).Floor else -(0.5 - x).Floor
  }

  predicate StartsWithHexPrefix(text: string) {
    |text| >= 2 && text[0] == '0' && (text[1] == 'x' || text[1] == 'X')
  }

  function ParseValue(lib: Library, settings: FormatSettings, text: string): Option<seq<u16>> {
    var numericText := WithoutUnit(text, settings);
    match settings.format
    case Hex =>
      var hex := if StartsWithHexPrefix(numericText) then numericText[2..] else numericText;
      OneRegister(ReadUnsigned(lib, hex, 16))
    case Binary => OneRegister(ReadUnsigned(lib, numericText, 2))
    case _ =>
      match ReadReal(lib, numericText)
      case None => None
      case Some(numeric) =>
        var raw := if IsDefaultScaling(settings) then numeric else lib.unscale(numeric, settings);
        Some(RegistersOf(lib, settings, raw))
  }

  function OneRegister(value: Option<u32>): Option<seq<u16>> {
    match value
    case None => None
    case Some(n) => Some([Truncate16(n)])
  }

  function RegistersOf(lib: Library, settings: FormatSettings, raw: real): seq<u16> {
    match settings.format
    case Float32 => UnpackToRegisters(Truncate32(lib.floatBits(raw)), settings.byteOrder)
    case Int32Signed => UnpackToRegisters(Truncate32(Round(raw)), settings.byteOrder)
    case Int32Unsigned => UnpackToRegisters(Truncate32(Round(raw)), settings.byteOrder)
    case _ => [Truncate16(Round(raw))]
  }

  // ----- reading undoes printing -----

  lemma UnitRoundTrip(text: string, settings: FormatSettings)
    ensures settings.unit != "" ==> WithoutUnit(WithUnit(text, settings), settings) == text
    ensures settings.unit == "" ==> WithoutUnit(text, settings) == text
  {
  }

  lemma SuffixBringsBlank(text: string, settings: FormatSettings)
    requires EndsWith(text, UnitSuffix(settings))
    ensures exists k :: 0 <= k < |text| && text[k] == ' '
  {
    var start := |text| - |UnitSuffix(settings)|;
    assert text[start] == text[start..][0];
  }

  /** A text without blanks does not end in a unit. */
  lemma NoUnitInside(text: string, settings: FormatSettings)
    requires forall k :: 0 <= k < |text| ==> text[k] != ' '
    ensures WithoutUnit(text, settings) == text
  {
    if EndsWith(text, UnitSuffix(settings)) {
      SuffixBringsBlank(text, settings);
    }
  }

  lemma NumeralsHaveNoBlanks(text: string, base: nat)
    requires IsNumeral(text, base)
    ensures forall k :: 0 <= k < |text| ==> text[k] != ' ' && text[k] != '-'
  {
    forall k | 0 <= k < |text|
      ensures text[k] != ' ' && text[k] != '-'
    {
      assert IsDigit(text[k], base);
    }
  }

  lemma DecimalRoundTrip(lib: Library, n: int)
    requires -EXACT_LIMIT <= n <= EXACT_LIMIT
    ensures ReadReal(lib, Decimal(n)) == Some(n as real)
  {
    if n >= 0 {
      NumeralRoundTrip(n, 10);
    } else {
      NumeralRoundTrip(-n, 10);
      assert Decimal(n)[1..] == Numeral(-n, 10);
      assert !IsDigit(Decimal(n)[0], 10);
    }
  }

  lemma RoundInteger(n: int)
    ensures Round(n as real) == n
  {
  }

  lemma ReadPadded(lib: Library, n: u16, base: nat, width: nat)
    requires IsBase(base)
    ensures ReadUnsigned(lib, PaddedTo(Numeral(n, base), width), base) == Some(n)
    ensures forall k :: 0 <= k < |PaddedTo(Numeral(n, base), width)| ==> PaddedTo(Numeral(n, base), width)[k] != ' '
  {
    PaddedRoundTrip(n, base, width);
    NumeralsHaveNoBlanks(PaddedTo(Numeral(n, base), width), base);
  }

  lemma HexRoundTrip(lib: Library, settings: FormatSettings, registers: seq<u16>)
    requires settings.format == Hex && |registers| == 1
    ensures ParseValue(lib, settings, FormatValue(lib, settings, registers)) == Some(registers)
  {
    hide ReadUnsigned, Numeral, PaddedTo;
    var digits := PaddedTo(Numeral(registers[0], 16), 4);
    ReadPadded(lib, registers[0], 16, 4);
    NoUnitInside("0x" + digits, settings);
    assert ("0x" + digits)[2..] == digits;
    assert registers == [registers[0]];
  }

  lemma BinaryRoundTrip(lib: Library, settings: FormatSettings, registers: seq<u16>)
    requires settings.format == Binary && |registers| == 1
    ensures ParseValue(lib, settings, FormatValue(lib, settings, registers)) == Some(registers)
  {
    hide ReadUnsigned, Numeral, PaddedTo;
    ReadPadded(lib, registers[0], 2, 16);
    NoUnitInside(PaddedTo(Numeral(registers[0], 2), 16), settings);
    assert registers == [registers[0]];
  }

  lemma IntegersRoundTrip(lib: Library, settings: FormatSettings, registers: seq<u16>)
    requires |registers| == RegisterSpanFor(settings.format) && !settings.format.Float32?
    ensures RegistersOf(lib, settings, IntegerIn(settings, registers) as real) == registers
  {
    var n := IntegerIn(settings, registers);
    RoundInteger(n);
    if |registers| == 2 {
      PackThenUnpack(registers[0], registers[1], settings.byteOrder);
      SignIsLost(PackBytes(registers[0], registers[1], settings.byteOrder));
      assert Truncate32(n) == PackBytes(registers[0], registers[1], settings.byteOrder);
      assert registers == [registers[0], registers[1]];
    } else {
      SignIsLost16(registers[0]);
      assert Truncate16(n) == registers[0];
      assert registers == [registers[0]];
    }
  }

  lemma SignIsLost16(r: u16)
    ensures Truncate16(AsSigned16(r)) == r && Truncate16(r) == r
  {
  }

  lemma SignIsLost(value: u32)
    ensures Truncate32(AsSigned32(value)) == value && Truncate32(value) == value
  {
  }

  lemma DecimalsRoundTrip(lib: Library, settings: FormatSettings, registers: seq<u16>)
    requires |registers| == RegisterSpanFor(settings.format) && IsDefaultScaling(settings)
    requires !settings.format.Float32? && !settings.format.Hex? && !settings.format.Binary?
    ensures ParseValue(lib, settings, FormatValue(lib, settings, registers)) == Some(registers)
  {
    UnitRoundTrip(Decimal(IntegerIn(settings, registers)), settings);
    DecimalRoundTrip(lib, IntegerIn(settings, registers));
    IntegersRoundTrip(lib, settings, registers);
  }

  /** The theorem: unless the format is Float32 or a scaling rounds, reading what is shown
      gives back the registers, for every byte order, unit and content. */
  lemma ParseUndoesFormat(lib: Library, settings: FormatSettings, registers: seq<u16>)
    requires |registers| == RegisterSpanFor(settings.format) && !settings.format.Float32?
    requires settings.format.Hex? || settings.format.Binary? || IsDefaultScaling(settings)
    ensures ParseValue(lib, settings, FormatValue(lib, settings, registers)) == Some(registers)
  {
    match settings.format
    case Hex => HexRoundTrip(lib, settings, registers);
    case Binary => BinaryRoundTrip(lib, settings, registers);
    case _ => DecimalsRoundTrip(lib, settings, registers);
  }
}
