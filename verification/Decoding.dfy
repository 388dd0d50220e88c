/** Byte for byte: which PDUs and frames the client accepts, what it reads out of them, and
    what its requests look like, with the protocol's numbers written out. */
module Decoding {
  import opened Numbers
  import opened Bits
  import opened RegisterTypes
  import opened RtuFramer
  import opened TcpFramer
  import opened PduCodec
  import opened OneShots

  /** Two bytes as a 16-bit number, high byte first. */
  function Word(high: byte, low: byte): u16 {
    FromByte(high) * 0x100 + FromByte(low)
  }

  /** Function codes of exception responses have their high bit set. */
  predicate HasHighBit(functionCode: byte) {
    functionCode >= 0x80
  }

  lemma HighBitIsException(functionCode: byte)
    ensures IsExceptionCode(functionCode) <==> HasHighBit(functionCode)
    ensures HasHighBit(functionCode) ==> functionCode & 0x7F == functionCode - 0x80
  {
  }

  // ----- replies -----

  /** The reply carries the function code asked for, which is no exception's. */
  predicate RightCode(pdu: seq<byte>, functionCode: byte) {
    pdu != [] && pdu[0] == functionCode && !HasHighBit(functionCode)
  }

  /** A register reply that is accepted: the right code, an even byte count, and that many
      bytes behind it. */
  predicate RegisterReply(pdu: seq<byte>, functionCode: byte) {
    RightCode(pdu, functionCode) && |pdu| >= 2 && FromByte(pdu[1]) % 2 == 0 && |pdu| >= 2 + FromByte(pdu[1])
  }

  /** A bit reply that is accepted: the byte count is that of the quantity asked for. */
  predicate BitReply(pdu: seq<byte>, functionCode: byte, quantity: u16) {
    RightCode(pdu, functionCode) && |pdu| >= 2 && FromByte(pdu[1]) == (quantity + 7) / 8 && |pdu| >= 2 + FromByte(pdu[1])
  }

  predicate WriteReply(pdu: seq<byte>, functionCode: byte) {
    RightCode(pdu, functionCode) && |pdu| >= 5
  }

  predicate ExceptionReply(pdu: seq<byte>) {
    |pdu| >= 2 && HasHighBit(pdu[0])
  }

  /** Exactly such replies are accepted, and register i is the i-th pair of bytes. */
  lemma RegistersAcceptedIff(pdu: seq<byte>, functionCode: byte)
    ensures DecodedRegisters(pdu, functionCode).Ok? <==> RegisterReply(pdu, functionCode)
    ensures RegisterReply(pdu, functionCode) ==>
              var registers := DecodedRegisters(pdu, functionCode).value;
              && 2 * |registers| == FromByte(pdu[1])
              && forall i :: 0 <= i < |registers| ==> registers[i] == Word(pdu[2 + 2 * i], pdu[3 + 2 * i])
  {
    hide FromByte;
    if pdu != [] {
      HighBitIsException(pdu[0]);
    }
  }

  /** Exactly such replies are accepted, and bit i is bit i mod 8 of byte i div 8. */
  lemma BitsAcceptedIff(pdu: seq<byte>, functionCode: byte, quantity: u16)
    ensures DecodedBits(pdu, functionCode, quantity).Ok? <==> BitReply(pdu, functionCode, quantity)
    ensures BitReply(pdu, functionCode, quantity) ==>
              var bits := DecodedBits(pdu, functionCode, quantity).value;
              && |bits| == quantity
              && forall i :: 0 <= i < quantity ==> bits[i] == BitOf(pdu[2 + i / 8], i % 8)
  {
    hide FromByte, BitOf;
    if pdu != [] {
      HighBitIsException(pdu[0]);
    }
  }

  /** Exactly such replies are accepted, and address and value are the two words. */
  lemma WritesAcceptedIff(pdu: seq<byte>, functionCode: byte)
    ensures DecodedWrite(pdu, functionCode).Ok? <==> WriteReply(pdu, functionCode)
    ensures WriteReply(pdu, functionCode) ==>
              DecodedWrite(pdu, functionCode).value == WriteEcho(Word(pdu[1], pdu[2]), Word(pdu[3], pdu[4]))
  {
    hide FromByte;
    if pdu != [] {
      HighBitIsException(pdu[0]);
    }
  }

  /** A reply is taken for an exception if and only if its first byte has the high bit and a
      second byte follows; whatever was asked for, the first names the function and the second
      the exception. */
  lemma ExceptionsIff(pdu: seq<byte>, functionCode: byte, quantity: u16)
    ensures DecodedRegisters(pdu, functionCode).ExceptionResponse? <==> ExceptionReply(pdu)
    ensures DecodedBits(pdu, functionCode, quantity).ExceptionResponse? <==> ExceptionReply(pdu)
    ensures DecodedWrite(pdu, functionCode).ExceptionResponse? <==> ExceptionReply(pdu)
    ensures ExceptionReply(pdu) ==>
              && DecodedRegisters(pdu, functionCode) == ExceptionResponse(pdu[0] - 0x80, pdu[1])
              && DecodedBits(pdu, functionCode, quantity) == ExceptionResponse(pdu[0] - 0x80, pdu[1])
              && DecodedWrite(pdu, functionCode) == ExceptionResponse(pdu[0] - 0x80, pdu[1])
  {
    hide FromByte, RegistersIn, BitsIn;
    if pdu != [] {
      HighBitIsException(pdu[0]);
    }
  }

  /** What a register reply is refused for, in the order in which it is looked at. */
  lemma RegisterRefusals(pdu: seq<byte>, functionCode: byte, reason: Malformation)
    requires DecodedRegisters(pdu, functionCode) == Malformed(reason)
    ensures match reason
            case EmptyPdu => pdu == []
            case MissingExceptionCode => |pdu| == 1 && HasHighBit(pdu[0])
            case UnexpectedFunctionCode(received, expected) =>
              pdu != [] && !HasHighBit(pdu[0]) && received == pdu[0] != functionCode == expected
            case MissingByteCount => pdu == [functionCode]
            case OddByteCount => RightCode(pdu, functionCode) && |pdu| >= 2 && FromByte(pdu[1]) % 2 == 1
            case ShorterThanDeclared => RightCode(pdu, functionCode) && 2 <= |pdu| < 2 + FromByte(pdu[1])
            case _ => false
  {
    hide FromByte;
    if pdu != [] {
      HighBitIsException(pdu[0]);
    }
  }

  /** The same for bits. */
  lemma BitRefusals(pdu: seq<byte>, functionCode: byte, quantity: u16, reason: Malformation)
    requires DecodedBits(pdu, functionCode, quantity) == Malformed(reason)
    ensures match reason
            case EmptyPdu => pdu == []
            case MissingExceptionCode => |pdu| == 1 && HasHighBit(pdu[0])
            case UnexpectedFunctionCode(received, expected) =>
              pdu != [] && !HasHighBit(pdu[0]) && received == pdu[0] != functionCode == expected
            case MissingByteCount => pdu == [functionCode]
            case ShorterThanDeclared => RightCode(pdu, functionCode) && 2 <= |pdu| < 2 + FromByte(pdu[1])
            case ByteCountMismatch =>
              RightCode(pdu, functionCode) && |pdu| >= 2 && FromByte(pdu[1]) != (quantity + 7) / 8
            case _ => false
  {
    hide FromByte;
    if pdu != [] {
      HighBitIsException(pdu[0]);
    }
  }

  // ----- frames -----

  lemma WordBytes(high: byte, low: byte)
    ensures BigEndian16(Word(high, low)) == [high, low]
  {
    assert Word(high, low) / 0x100 == FromByte(high) && Word(high, low) % 0x100 == FromByte(low);
  }

  /** A buffer yields a Modbus TCP frame if and only if the header is there, its protocol id
      is zero, and all bytes it declares are there. */
  lemma MbapAcceptedIff(buffer: seq<byte>)
    ensures DecodeMbapFrame(buffer).Some?
       <==> |buffer| >= 7 && buffer[2] == 0 && buffer[3] == 0 && |buffer| >= 6 + Word(buffer[4], buffer[5])
  {
    if |buffer| >= 7 {
      ZeroWord(buffer[2], buffer[3]);
    }
  }

  lemma ZeroWord(high: byte, low: byte)
    ensures Word(high, low) == 0 <==> high == 0 && low == 0
  {
    if FromByte(high) == 0 && FromByte(low) == 0 {
      ZeroByte(high);
      ZeroByte(low);
    }
  }

  lemma ZeroByte(b: byte)
    requires FromByte(b) == 0
    ensures b == 0
  {
    assert (b as int) as bv8 == b;
  }

  /** What an accepted buffer yields, field by field. */
  lemma MbapFields(buffer: seq<byte>)
    requires DecodeMbapFrame(buffer).Some?
    ensures |buffer| >= 7 && buffer[2] == 0 && buffer[3] == 0
    ensures var f, length := DecodeMbapFrame(buffer).value, Word(buffer[4], buffer[5]);
            && f.transactionId == Word(buffer[0], buffer[1]) && f.unitId == buffer[6]
            && f.frameByteCount == 6 + length <= |buffer|
            && f.pdu == if length == 0 then buffer[7..] else buffer[7..6 + length]
  {
    hide Word, ReadBigEndian16;
    MbapAcceptedIff(buffer);
    WordIsRead(buffer, 0, 1);
    WordIsRead(buffer, 4, 5);
  }

  lemma WordIsRead(buffer: seq<byte>, offset: nat, next: nat)
    requires next == offset + 1 < |buffer|
    ensures ReadBigEndian16(buffer, offset) == Word(buffer[offset], buffer[next])
  {
  }

  /** What is taken off a buffer encodes to the very bytes that it was taken from, unless the
      declared length is zero, which no encoder declares. */
  lemma MbapDecodeThenEncode(buffer: seq<byte>)
    requires DecodeMbapFrame(buffer).Some? && Word(buffer[4], buffer[5]) > 0
    ensures var f := DecodeMbapFrame(buffer).value;
            MbapFrame(f.transactionId, f.unitId, f.pdu) == buffer[..f.frameByteCount]
  {
    hide Word, BigEndian16, DecodeMbapFrame;
    MbapFields(buffer);
    var f := DecodeMbapFrame(buffer).value;
    HeaderBytes(buffer);
    assert Truncate16(1 + |f.pdu|) == Word(buffer[4], buffer[5]);
    assert buffer[..f.frameByteCount] == [buffer[0], buffer[1]] + [0, 0] + [buffer[4], buffer[5]] + [buffer[6]] + f.pdu;
  }

  lemma HeaderBytes(buffer: seq<byte>)
    requires |buffer| >= 7
    ensures BigEndian16(Word(buffer[0], buffer[1])) == [buffer[0], buffer[1]]
    ensures BigEndian16(0) == [0, 0]
    ensures BigEndian16(Word(buffer[4], buffer[5])) == [buffer[4], buffer[5]]
  {
    WordBytes(buffer[0], buffer[1]);
    WordBytes(0, 0);
    ZeroWord(0, 0);
    WordBytes(buffer[4], buffer[5]);
  }

  /** An accepted RTU frame is the encoding of what is read out of it. */
  lemma RtuDecodeThenEncode(frame: seq<byte>)
    requires DecodeRtuFrame(frame).Some?
    ensures var f := DecodeRtuFrame(frame).value;
            |frame| >= 3 && RtuFrame(f.unitId, f.pdu) == frame
  {
    hide Crc16.Crc;
    var f, n := DecodeRtuFrame(frame).value, |frame|;
    var body := frame[..n - 2];
    assert body == [f.unitId] + f.pdu;
    HalvesOf(Crc16.Crc(body), frame[n - 2], frame[n - 1]);
    assert frame == body + [frame[n - 2], frame[n - 1]];
  }

  /** Where an RTU reader expects the end of a response: after 5 bytes for an exception, 8 for
      the codes 5, 6, 15 and 16, 5 more than the byte count for the codes 1 to 4; for any
      other code, and before the deciding byte is there, nowhere. */
  lemma RtuLengths(buffer: seq<byte>)
    ensures ExpectedRtuResponseLength(buffer) ==
              if |buffer| < 2 then 0
              else if buffer[1] >= 0x80 then 5
              else if buffer[1] == 5 || buffer[1] == 6 || buffer[1] == 15 || buffer[1] == 16 then 8
              else if 1 <= buffer[1] <= 4 && |buffer| >= 3 then 5 + FromByte(buffer[2])
              else 0
  {
    hide FromByte;
    if |buffer| >= 2 {
      HighBitIsException(buffer[1]);
      ReadCodes(buffer[1]);
    }
  }

  lemma ReadCodes(functionCode: byte)
    ensures IsReadCode(functionCode) <==> 1 <= functionCode <= 4
  {
  }

  // ----- requests -----

  /** The function codes of the protocol. */
  function CodeOf(request: Request): byte {
    match request
    case ReadRegisters(Coil, _, _) => 1
    case ReadRegisters(DiscreteInput, _, _) => 2
    case ReadRegisters(HoldingRegister, _, _) => 3
    case ReadRegisters(InputRegister, _, _) => 4
    case WriteSingleCoil(_, _) => 5
    case WriteSingleRegister(_, _) => 6
  }

  /** A request is five bytes: its function code, the address, and the quantity or the value,
      a coil being switched on by 0xFF00 and off by 0. */
  lemma RequestLayout(request: Request)
    ensures var pdu := RequestPdu(request);
            && |pdu| == 5 && pdu[0] == CodeOf(request)
            && Word(pdu[1], pdu[2])
               == (if request.ReadRegisters? then request.startAddress else request.address) % 0x1_0000
            && Word(pdu[3], pdu[4])
               == match request
                  case ReadRegisters(_, _, quantity) => quantity % 0x1_0000
                  case WriteSingleRegister(_, value) => value % 0x1_0000
                  case WriteSingleCoil(_, on) => if on then 0xFF00 else 0
  {
    hide Word, BigEndian16;
    var pdu := RequestPdu(request);
    FieldIs(pdu, 1, if request.ReadRegisters? then request.startAddress else request.address);
    match request
    case ReadRegisters(_, _, quantity) => FieldIs(pdu, 3, quantity);
    case WriteSingleRegister(_, value) => FieldIs(pdu, 3, value);
    case WriteSingleCoil(_, on) => FieldIs(pdu, 3, if on then 0xFF00 else 0);
  }

  lemma FieldIs(pdu: seq<byte>, offset: nat, value: int)
    requires offset + 2 <= |pdu|
    requires pdu[offset] == BigEndian16(Truncate16(value))[0] && pdu[offset + 1] == BigEndian16(Truncate16(value))[1]
    ensures Word(pdu[offset], pdu[offset + 1]) == value % 0x1_0000
  {
    FromToByte(Truncate16(value) / 0x100);
    FromToByte(Truncate16(value) % 0x100);
  }
}
