/** Request and response PDUs. The decoders are those of the client; the `Device…` functions
    are the other end of the wire, as the protocol specifies it. */
module PduCodec {
  import opened Numbers
  import opened Bits
  import opened RegisterTypes
  import opened RtuFramer

  datatype Malformation =
    | EmptyPdu
    | MissingExceptionCode
    | UnexpectedFunctionCode(received: byte, expected: byte)
    | MissingByteCount
    | OddByteCount
    | ShorterThanDeclared
    | ByteCountMismatch
    | WriteResponseTooShort

  datatype DecodeResult<+T> =
    | Ok(value: T)
    | Malformed(reason: Malformation)
    | ExceptionResponse(originalFunctionCode: byte, exceptionCode: byte)

  datatype HeaderCheck = Valid | Invalid(reason: Malformation) | Exception(originalFunctionCode: byte, exceptionCode: byte)

  function CheckResponseHeader(pdu: seq<byte>, expectedFunctionCode: byte): HeaderCheck {
    if pdu == [] then Invalid(EmptyPdu)
    else if IsExceptionCode(pdu[0]) then
      if |pdu| < 2 then Invalid(MissingExceptionCode) else Exception(pdu[0] & 0x7F, pdu[1])
    else if pdu[0] != expectedFunctionCode then Invalid(UnexpectedFunctionCode(pdu[0], expectedFunctionCode))
    else Valid
  }

  /** The first n registers of a read response. */
  function RegistersIn(pdu: seq<byte>, n: nat): (values: seq<u16>)
    requires 2 + 2 * n <= |pdu|
    ensures |values| == n
  {
    seq(n, i requires 0 <= i < n => ReadBigEndian16(pdu, 2 + 2 * i))
  }

  function DecodedRegisters(pdu: seq<byte>, expectedFunctionCode: byte): DecodeResult<seq<u16>> {
    match CheckResponseHeader(pdu, expectedFunctionCode)
    case Exception(original, code) => ExceptionResponse(original, code)
    case Invalid(reason) => Malformed(reason)
    case Valid =>
      if |pdu| < 2 then Malformed(MissingByteCount)
      else
        var byteCount := FromByte(pdu[1]);
        if byteCount % 2 != 0 then Malformed(OddByteCount)
        else if |pdu| < 2 + byteCount then Malformed(ShorterThanDeclared)
        else Ok(RegistersIn(pdu, byteCount / 2))
  }

  method DecodeReadRegistersResponse(pdu: seq<byte>, expectedFunctionCode: byte)
    returns (result: DecodeResult<seq<u16>>)
    ensures result == DecodedRegisters(pdu, expectedFunctionCode)
  {
    match CheckResponseHeader(pdu, expectedFunctionCode) {
      case Exception(original, code) => return ExceptionResponse(original, code);
      case Invalid(reason) => return Malformed(reason);
      case Valid =>
    }
    if |pdu| < 2 {
      return Malformed(MissingByteCount);
    }
    var byteCount: int := FromByte(pdu[1]);
    if byteCount % 2 != 0 {
      return Malformed(OddByteCount);
    }
    if |pdu| < 2 + byteCount {
      return Malformed(ShorterThanDeclared);
    }
    var values := CollectRegisters(pdu, byteCount);
    return Ok(values);
  }

  method CollectRegisters(pdu: seq<byte>, byteCount: nat) returns (values: seq<u16>)
    requires byteCount % 2 == 0 && 2 + byteCount <= |pdu|
    ensures values == RegistersIn(pdu, byteCount / 2)
  {
    values := [];
    var i := 0;
    while i < byteCount
      invariant 0 <= i <= byteCount && i % 2 == 0
      invariant values == RegistersIn(pdu, i / 2)
    {
      values := values + [ReadBigEndian16(pdu, 2 + i)];
      i := i + 2;
    }
  }

  /** The first n bits of a read response. */
  function BitsIn(pdu: seq<byte>, n: nat): (values: seq<bool>)
    requires 2 + PackedSize(n) <= |pdu|
    ensures |values| == n
  {
    seq(n, i requires 0 <= i < n => BitOf(pdu[2 + i / 8], i % 8))
  }

  function DecodedBits(pdu: seq<byte>, expectedFunctionCode: byte, requestedQuantity: u16): DecodeResult<seq<bool>> {
    match CheckResponseHeader(pdu, expectedFunctionCode)
    case Exception(original, code) => ExceptionResponse(original, code)
    case Invalid(reason) => Malformed(reason)
    case Valid =>
      if |pdu| < 2 then Malformed(MissingByteCount)
      else
        var byteCount := FromByte(pdu[1]);
        if |pdu| < 2 + byteCount then Malformed(ShorterThanDeclared)
        else if byteCount != PackedSize(requestedQuantity) then Malformed(ByteCountMismatch)
        else Ok(BitsIn(pdu, requestedQuantity))
  }

  method DecodeReadBitsResponse(pdu: seq<byte>, expectedFunctionCode: byte, requestedQuantity: u16)
    returns (result: DecodeResult<seq<bool>>)
    ensures result == DecodedBits(pdu, expectedFunctionCode, requestedQuantity)
  {
    match CheckResponseHeader(pdu, expectedFunctionCode) {
      case Exception(original, code) => return ExceptionResponse(original, code);
      case Invalid(reason) => return Malformed(reason);
      case Valid =>
    }
    if |pdu| < 2 {
      return Malformed(MissingByteCount);
    }
    var byteCount: int := FromByte(pdu[1]);
    if |pdu| < 2 + byteCount {
      return Malformed(ShorterThanDeclared);
    }
    if byteCount != PackedSize(requestedQuantity) {
      return Malformed(ByteCountMismatch);
    }
    var values: seq<bool> := [];
    for bit := 0 to requestedQuantity
      invariant values == seq(bit, i requires 0 <= i < bit => BitOf(pdu[2 + i / 8], i % 8))
    {
      values := values + [pdu[2 + bit / 8] & (1 << (bit % 8)) != 0];
    }
    return Ok(values);
  }

  datatype WriteEcho = WriteEcho(address: u16, value: u16)

  /** Both write responses carry an address and a 16-bit value or quantity. */
  function DecodedWrite(pdu: seq<byte>, expectedFunctionCode: byte): DecodeResult<WriteEcho> {
    match CheckResponseHeader(pdu, expectedFunctionCode)
    case Exception(original, code) => ExceptionResponse(original, code)
    case Invalid(reason) => Malformed(reason)
    case Valid =>
      if |pdu| < 5 then Malformed(WriteResponseTooShort)
      else Ok(WriteEcho(ReadBigEndian16(pdu, 1), ReadBigEndian16(pdu, 3)))
  }

  // ----- requests -----

  function EncodeReadRequest(functionCode: byte, startAddress: u16, quantity: u16): seq<byte> {
    [functionCode] + BigEndian16(startAddress) + BigEndian16(quantity)
  }

  function EncodeWriteSingleCoilRequest(address: u16, value: bool): seq<byte> {
    [WRITE_SINGLE_COIL] + BigEndian16(address) + BigEndian16(if value then 0xFF00 else 0x0000)
  }

  function EncodeWriteSingleRegisterRequest(address: u16, value: u16): seq<byte> {
    [WRITE_SINGLE_REGISTER] + BigEndian16(address) + BigEndian16(value)
  }

  // ----- the device's side -----

  datatype ReadRequest = ReadRequest(functionCode: byte, startAddress: u16, quantity: u16)

  function DeviceParseRead(pdu: seq<byte>): Option<ReadRequest> {
    if |pdu| != 5 || !IsReadCode(pdu[0]) then None
    else Some(ReadRequest(pdu[0], ReadBigEndian16(pdu, 1), ReadBigEndian16(pdu, 3)))
  }

  function RegisterBytes(values: seq<u16>): (bytes: seq<byte>)
    ensures |bytes| == 2 * |values|
  {
    if values == [] then [] else RegisterBytes(values[..|values| - 1]) + BigEndian16(values[|values| - 1])
  }

  function DeviceRegistersResponse(functionCode: byte, values: seq<u16>): seq<byte>
    requires |values| <= 127
  {
    [functionCode, ToByte(2 * |values|)] + RegisterBytes(values)
  }

  function DeviceBitsResponse(functionCode: byte, values: seq<bool>): seq<byte>
    requires |values| <= 2040
  {
    [functionCode, ToByte(PackedSize(|values|))] + PackedBits(values)
  }

  /** The device reads out of a request what was put in. */
  lemma ReadRequestArrives(t: RegisterType, startAddress: u16, quantity: u16)
    ensures DeviceParseRead(EncodeReadRequest(ReadFunctionCodeFor(t), startAddress, quantity))
         == Some(ReadRequest(ReadFunctionCodeFor(t), startAddress, quantity))
  {
    var pdu := EncodeReadRequest(ReadFunctionCodeFor(t), startAddress, quantity);
    assert pdu[1..3] == BigEndian16(startAddress);
    assert pdu[3..5] == BigEndian16(quantity);
    BigEndianRoundTrip(pdu, 1, startAddress);
    BigEndianRoundTrip(pdu, 3, quantity);
  }

  lemma {:induction false} RegisterBytesAt(values: seq<u16>, i: nat)
    requires i < |values|
    ensures RegisterBytes(values)[2 * i..2 * i + 2] == BigEndian16(values[i])
  {
    var last := |values| - 1;
    if i < last {
      RegisterBytesAt(values[..last], i);
      assert RegisterBytes(values)[2 * i..2 * i + 2] == RegisterBytes(values[..last])[2 * i..2 * i + 2];
    }
  }

  /** A register response decodes to exactly the registers it was made from. */
  lemma RegistersRoundTrip(functionCode: byte, values: seq<u16>)
    requires |values| <= 127 && IsReadCode(functionCode)
    ensures DecodedRegisters(DeviceRegistersResponse(functionCode, values), functionCode) == Ok(values)
  {
    FromToByte(2 * |values|);
    ResponseCarriesRegisters(DeviceRegistersResponse(functionCode, values), values);
  }

  lemma ResponseCarriesRegisters(pdu: seq<byte>, values: seq<u16>)
    requires |pdu| == 2 + 2 * |values| && pdu[2..] == RegisterBytes(values)
    ensures RegistersIn(pdu, |values|) == values
  {
    hide RegisterBytes, ReadBigEndian16;
    forall i | 0 <= i < |values|
      ensures ReadBigEndian16(pdu, 2 + 2 * i) == values[i]
    {
      RegisterBytesAt(values, i);
      TailSlice(pdu, i);
      BigEndianRoundTrip(pdu, 2 + 2 * i, values[i]);
    }
  }

  lemma TailSlice(pdu: seq<byte>, i: nat)
    requires 2 * i + 4 <= |pdu|
    ensures pdu[2 + 2 * i..2 + 2 * i + 2] == pdu[2..][2 * i..2 * i + 2]
  {
  }

  /** A bit response decodes to exactly the bits it was made from; padding never shows. */
  lemma BitsRoundTrip(functionCode: byte, values: seq<bool>)
    requires |values| <= 2040 && IsReadCode(functionCode)
    ensures DecodedBits(DeviceBitsResponse(functionCode, values), functionCode, |values|) == Ok(values)
  {
    var pdu := DeviceBitsResponse(functionCode, values);
    FromToByte(PackedSize(|values|));
    forall i | 0 <= i < |values|
      ensures BitOf(pdu[2 + i / 8], i % 8) == values[i]
    {
      PackedBit(values, i);
      assert pdu[2 + i / 8] == PackedBits(values)[i / 8];
    }
    assert BitsIn(pdu, |values|) == values;
  }

  /** A device confirms a write by echoing its address and value. */
  function DeviceWriteResponse(functionCode: byte, address: u16, value: u16): seq<byte> {
    [functionCode] + BigEndian16(address) + BigEndian16(value)
  }

  /** A write echo decodes to what was written, and both single-write requests are answered
      by their own echo. */
  lemma WriteRoundTrip(functionCode: byte, address: u16, value: u16, on: bool)
    requires IsWriteCode(functionCode)
    ensures DecodedWrite(DeviceWriteResponse(functionCode, address, value), functionCode) == Ok(WriteEcho(address, value))
    ensures EncodeWriteSingleRegisterRequest(address, value) == DeviceWriteResponse(WRITE_SINGLE_REGISTER, address, value)
    ensures EncodeWriteSingleCoilRequest(address, on)
         == DeviceWriteResponse(WRITE_SINGLE_COIL, address, if on then 0xFF00 else 0)
    ensures IsResponsePdu(DeviceWriteResponse(functionCode, address, value))
  {
    var pdu := DeviceWriteResponse(functionCode, address, value);
    assert pdu[1..3] == BigEndian16(address);
    assert pdu[3..5] == BigEndian16(value);
    BigEndianRoundTrip(pdu, 1, address);
    BigEndianRoundTrip(pdu, 3, value);
  }

  /** Read responses have a shape whose end an RTU reader can predict. */
  lemma ReadResponsesArePredictable(functionCode: byte, registers: seq<u16>, bits: seq<bool>)
    requires IsReadCode(functionCode) && |registers| <= 127 && |bits| <= 2040
    ensures IsResponsePdu(DeviceRegistersResponse(functionCode, registers))
    ensures IsResponsePdu(DeviceBitsResponse(functionCode, bits))
  {
    FromToByte(2 * |registers|);
    FromToByte(PackedSize(|bits|));
  }
}
