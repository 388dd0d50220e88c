/** Fixed-width integers of the wire format, and the big-endian 16-bit fields every
    Modbus header is made of. */
module Numbers {

  type byte = bv8

  type u8 = x: int | 0 <= x < 0x100
  type u16 = x: int | 0 <= x < 0x1_0000
  type u32 = x: int | 0 <= x < 0x1_0000_0000

  datatype Option<+T> = None | Some(value: T)

  function ToByte(n: u8): byte {
    n as bv8
  }

  function FromByte(b: byte): u8 {
    b as int
  }

  /** Unsigned truncation, as `quint16(value)` does it. */
  function Truncate16(n: int): u16 {
    n % 0x1_0000
  }

  function Truncate32(n: int): u32 {
    n % 0x1_0000_0000
  }

  function Max(a: int, b: int): int {
    if a > b then a else b
  }

  function Min(a: int, b: int): int {
    if a < b then a else b
  }

  /** `appendBigEndianU16`: high byte first. */
  function BigEndian16(value: u16): (bytes: seq<byte>)
    ensures |bytes| == 2
  {
    [ToByte(value / 0x100), ToByte(value % 0x100)]
  }

  /** `readBigEndianU16`. */
  function ReadBigEndian16(buffer: seq<byte>, offset: nat): u16
    requires offset + 2 <= |buffer|
  {
    FromByte(buffer[offset]) * 0x100 + FromByte(buffer[offset + 1])
  }

  /** Every value below 256 is the value of some byte. */
  lemma ByteOfValue(n: u8) returns (b: byte)
    ensures FromByte(b) == n
  {
    b := 0;
    var k := 0;
    while k < n
      invariant 0 <= k <= n && b as int == k
    {
      b := b + 1;
      k := k + 1;
    }
  }

  lemma FromToByte(n: u8)
    ensures FromByte(ToByte(n)) == n
  {
    var b := ByteOfValue(n);
    assert (b as int) as bv8 == b;
  }

  /** A 16-bit field survives the wire, wherever in a frame it is written. */
  lemma BigEndianRoundTrip(buffer: seq<byte>, offset: nat, value: u16)
    requires offset + 2 <= |buffer|
    requires buffer[offset..offset + 2] == BigEndian16(value)
    ensures ReadBigEndian16(buffer, offset) == value
  {
    assert buffer[offset] == buffer[offset..offset + 2][0];
    assert buffer[offset + 1] == buffer[offset..offset + 2][1];
    FromToByte(value / 0x100);
    FromToByte(value % 0x100);
  }

}
