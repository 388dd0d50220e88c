/** MBAP frames of Modbus TCP, and taking them off the front of a byte stream. */
module TcpFramer {
  import opened Numbers

  const HEADER_BYTE_COUNT: nat := 7

  datatype DecodedMbapFrame = DecodedMbapFrame(transactionId: u16, unitId: byte, pdu: seq<byte>, frameByteCount: nat)

  function MbapFrame(transactionId: u16, unitId: byte, pdu: seq<byte>): (frame: seq<byte>)
    ensures |frame| == 7 + |pdu|
  {
    BigEndian16(transactionId) + BigEndian16(0) + BigEndian16(Truncate16(1 + |pdu|)) + [unitId] + pdu
  }

  method EncodeMbapFrame(transactionId: u16, unitId: byte, pdu: seq<byte>) returns (frame: seq<byte>)
    ensures frame == MbapFrame(transactionId, unitId, pdu)
  {
    frame := BigEndian16(transactionId);
    frame := frame + BigEndian16(0);
    frame := frame + BigEndian16(Truncate16(1 + |pdu|));
    frame := frame + [unitId];
    frame := frame + pdu;
  }

  /** `None` while the frame is incomplete, or when it is not Modbus TCP. A declared length
      of zero makes the PDU run to the end of the buffer, because a negative length asks
      for everything that is there. */
  function DecodeMbapFrame(buffer: seq<byte>): (r: Option<DecodedMbapFrame>)
    ensures r.Some? ==> 6 <= r.value.frameByteCount <= |buffer|
  {
    if |buffer| < HEADER_BYTE_COUNT then None
    else
      var transactionId := ReadBigEndian16(buffer, 0);
      var protocolId := ReadBigEndian16(buffer, 2);
      var length := ReadBigEndian16(buffer, 4);
      var unitId := buffer[6];
      if protocolId != 0 then None
      else if |buffer| < 6 + length then None
      else if length == 0 then Some(DecodedMbapFrame(transactionId, unitId, buffer[7..], 6))
      else Some(DecodedMbapFrame(transactionId, unitId, buffer[7..6 + length], 6 + length))
  }

  /** The header fields of an encoded frame, whatever follows it in the buffer. */
  lemma EncodedHeader(transactionId: u16, unitId: byte, pdu: seq<byte>, more: seq<byte>)
    requires |pdu| < 0xFFFF
    ensures var buffer := MbapFrame(transactionId, unitId, pdu) + more;
            && ReadBigEndian16(buffer, 0) == transactionId
            && ReadBigEndian16(buffer, 2) == 0
            && ReadBigEndian16(buffer, 4) == 1 + |pdu|
            && buffer[6] == unitId
            && buffer[7..7 + |pdu|] == pdu
  {
    var buffer := MbapFrame(transactionId, unitId, pdu) + more;
    assert buffer[0..2] == BigEndian16(transactionId);
    assert buffer[2..4] == BigEndian16(0);
    assert buffer[4..6] == BigEndian16(Truncate16(1 + |pdu|));
    BigEndianRoundTrip(buffer, 0, transactionId);
    BigEndianRoundTrip(buffer, 2, 0);
    BigEndianRoundTrip(buffer, 4, Truncate16(1 + |pdu|));
  }

  /** An encoded frame at the front of a buffer is taken off exactly, whatever follows. */
  lemma DecodeEncodedMbap(transactionId: u16, unitId: byte, pdu: seq<byte>, more: seq<byte>)
    requires |pdu| < 0xFFFF
    ensures DecodeMbapFrame(MbapFrame(transactionId, unitId, pdu) + more)
         == Some(DecodedMbapFrame(transactionId, unitId, pdu, 7 + |pdu|))
  {
    EncodedHeader(transactionId, unitId, pdu, more);
  }

  /** A proper prefix of an encoded frame is never taken for a frame. */
  lemma IncompleteMbapWaits(transactionId: u16, unitId: byte, pdu: seq<byte>, n: nat)
    requires |pdu| < 0xFFFF && n < 7 + |pdu|
    ensures DecodeMbapFrame(MbapFrame(transactionId, unitId, pdu)[..n]) == None
  {
    if n >= 7 {
      var frame := MbapFrame(transactionId, unitId, pdu);
      EncodedHeader(transactionId, unitId, pdu, []);
      assert frame + [] == frame;
      assert frame[..n][4] == frame[4] && frame[..n][5] == frame[5];
    }
  }
}
