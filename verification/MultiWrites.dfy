/** Requests that write several values at once, and what a device reads out of them. */
module MultiWrites {
  import opened Numbers
  import opened Bits
  import opened RegisterTypes
  import opened PduCodec

  function CoilsPdu(startAddress: u16, values: seq<bool>): seq<byte> {
    [WRITE_MULTIPLE_COILS] + BigEndian16(startAddress) + BigEndian16(Truncate16(|values|))
      + [ToByte(PackedSize(|values|) % 0x100)] + PackedBits(values)
  }

  method EncodeWriteMultipleCoilsRequest(startAddress: u16, values: seq<bool>) returns (pdu: seq<byte>)
    ensures pdu == CoilsPdu(startAddress, values)
  {
    pdu := [WRITE_MULTIPLE_COILS];
    pdu := pdu + BigEndian16(startAddress);
    pdu := pdu + BigEndian16(Truncate16(|values|));
    var packed := PackBits(values);
    pdu := pdu + [ToByte(|packed| % 0x100)];
    pdu := pdu + packed;
  }

  function RegistersPdu(startAddress: u16, values: seq<u16>): seq<byte> {
    [WRITE_MULTIPLE_REGISTERS] + BigEndian16(startAddress) + BigEndian16(Truncate16(|values|))
      + [ToByte(|values| * 2 % 0x100)] + RegisterBytes(values)
  }

  method EncodeWriteMultipleRegistersRequest(startAddress: u16, values: seq<u16>) returns (pdu: seq<byte>)
    ensures pdu == RegistersPdu(startAddress, values)
  {
    pdu := [WRITE_MULTIPLE_REGISTERS];
    pdu := pdu + BigEndian16(startAddress);
    pdu := pdu + BigEndian16(Truncate16(|values|));
    pdu := pdu + [ToByte(|values| * 2 % 0x100)];
    ghost var header := pdu;
    for i := 0 to |values|
      invariant pdu == header + RegisterBytes(values[..i])
    {
      assert values[..i + 1][..i] == values[..i];
      pdu := pdu + BigEndian16(values[i]);
    }
    assert values[..|values|] == values;
  }

  // ----- the device's side -----

  datatype CoilWrite = CoilWrite(startAddress: u16, values: seq<bool>)
  datatype RegisterWrite = RegisterWrite(startAddress: u16, values: seq<u16>)

  function DeviceParseCoils(pdu: seq<byte>): Option<CoilWrite> {
    if |pdu| < 6 || pdu[0] != WRITE_MULTIPLE_COILS then None
    else
      var quantity, byteCount := ReadBigEndian16(pdu, 3), FromByte(pdu[5]);
      if byteCount != PackedSize(quantity) || |pdu| != 6 + byteCount then None
      else
        Some(CoilWrite(ReadBigEndian16(pdu, 1),
                       seq(quantity, i requires 0 <= i < quantity => BitOf(pdu[6 + i / 8], i % 8))))
  }

  function RegistersAfter(pdu: seq<byte>, offset: nat, n: nat): seq<u16>
    requires offset + 2 * n <= |pdu|
  {
    seq(n, i requires 0 <= i < n => ReadBigEndian16(pdu, offset + 2 * i))
  }

  function DeviceParseRegisters(pdu: seq<byte>): Option<RegisterWrite> {
    if |pdu| < 6 || pdu[0] != WRITE_MULTIPLE_REGISTERS then None
    else
      var quantity, byteCount := ReadBigEndian16(pdu, 3), FromByte(pdu[5]);
      if byteCount != 2 * quantity || |pdu| != 6 + byteCount then None
      else Some(RegisterWrite(ReadBigEndian16(pdu, 1), RegistersAfter(pdu, 6, quantity)))
  }

  lemma HeaderFields(pdu: seq<byte>, startAddress: u16, quantity: u16, byteCount: u8)
    requires |pdu| >= 6
    requires pdu[1..3] == BigEndian16(startAddress) && pdu[3..5] == BigEndian16(quantity) && pdu[5] == ToByte(byteCount)
    ensures ReadBigEndian16(pdu, 1) == startAddress && ReadBigEndian16(pdu, 3) == quantity && FromByte(pdu[5]) == byteCount
  {
    BigEndianRoundTrip(pdu, 1, startAddress);
    BigEndianRoundTrip(pdu, 3, quantity);
    FromToByte(byteCount);
  }

  /** A device reads exactly the coils and the address that were put in if and only if there
      are at most 2040; beyond that the byte count no longer fits its field, and it reads
      nothing. */
  lemma CoilsArriveUpToCount(startAddress: u16, values: seq<bool>)
    ensures DeviceParseCoils(CoilsPdu(startAddress, values)) == Some(CoilWrite(startAddress, values)) <==> |values| <= 2040
    ensures |values| > 2040 ==> DeviceParseCoils(CoilsPdu(startAddress, values)) == None
  {
    hide ReadBigEndian16, BigEndian16, FromByte, ToByte, BitOf;
    var pdu, packed := CoilsPdu(startAddress, values), PackedBits(values);
    CoilsHeader(startAddress, values);
    assert pdu[6..] == packed;
    if |values| <= 2040 {
      forall i | 0 <= i < |values|
        ensures BitOf(pdu[6 + i / 8], i % 8) == values[i]
      {
        PackedBit(values, i);
        assert pdu[6 + i / 8] == pdu[6..][i / 8];
      }
      assert seq(|values|, i requires 0 <= i < |values| => BitOf(pdu[6 + i / 8], i % 8)) == values;
    }
  }

  lemma CoilsHeader(startAddress: u16, values: seq<bool>)
    ensures var pdu := CoilsPdu(startAddress, values);
            && |pdu| == 6 + PackedSize(|values|) && ReadBigEndian16(pdu, 1) == startAddress
            && ReadBigEndian16(pdu, 3) == Truncate16(|values|) && FromByte(pdu[5]) == PackedSize(|values|) % 0x100
  {
    hide ReadBigEndian16, BigEndian16, FromByte, ToByte;
    var pdu := CoilsPdu(startAddress, values);
    assert pdu[1..3] == BigEndian16(startAddress);
    assert pdu[3..5] == BigEndian16(Truncate16(|values|));
    HeaderFields(pdu, startAddress, Truncate16(|values|), PackedSize(|values|) % 0x100);
  }

  lemma RegistersHeader(startAddress: u16, values: seq<u16>)
    ensures var pdu := RegistersPdu(startAddress, values);
            && |pdu| == 6 + 2 * |values| && ReadBigEndian16(pdu, 1) == startAddress
            && ReadBigEndian16(pdu, 3) == Truncate16(|values|) && FromByte(pdu[5]) == |values| * 2 % 0x100
  {
    hide ReadBigEndian16, BigEndian16, FromByte, ToByte;
    var pdu := RegistersPdu(startAddress, values);
    assert pdu[1..3] == BigEndian16(startAddress);
    assert pdu[3..5] == BigEndian16(Truncate16(|values|));
    HeaderFields(pdu, startAddress, Truncate16(|values|), |values| * 2 % 0x100);
  }

  lemma CarriedRegisters(pdu: seq<byte>, offset: nat, values: seq<u16>)
    requires |pdu| == offset + 2 * |values| && pdu[offset..] == RegisterBytes(values)
    ensures RegistersAfter(pdu, offset, |values|) == values
  {
    hide ReadBigEndian16, BigEndian16;
    forall i | 0 <= i < |values|
      ensures ReadBigEndian16(pdu, offset + 2 * i) == values[i]
    {
      RegisterBytesAt(values, i);
      assert pdu[offset + 2 * i..offset + 2 * i + 2] == pdu[offset..][2 * i..2 * i + 2];
      BigEndianRoundTrip(pdu, offset + 2 * i, values[i]);
    }
  }

  /** The same for registers, whose limit is 127. */
  lemma RegistersArriveUpToCount(startAddress: u16, values: seq<u16>)
    ensures DeviceParseRegisters(RegistersPdu(startAddress, values)) == Some(RegisterWrite(startAddress, values))
       <==> |values| <= 127
    ensures |values| > 127 ==> DeviceParseRegisters(RegistersPdu(startAddress, values)) == None
  {
    hide ReadBigEndian16, BigEndian16, FromByte, ToByte, RegisterBytes;
    var pdu := RegistersPdu(startAddress, values);
    RegistersHeader(startAddress, values);
    assert pdu[6..] == RegisterBytes(values);
    if |values| <= 127 {
      CarriedRegisters(pdu, 6, values);
    }
  }
}
