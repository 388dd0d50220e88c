/** RTU frames: unit id, PDU, CRC with its low byte first; and how a reader that gets no
    length field finds the end of a response. */
module RtuFramer {
  import opened Numbers
  import opened Bits
  import opened RegisterTypes
  import opened Crc16
  import opened CrcDetection

  datatype DecodedRtuFrame = DecodedRtuFrame(unitId: byte, pdu: seq<byte>)

  function RtuFrame(unitId: byte, pdu: seq<byte>): (frame: seq<byte>)
    ensures |frame| == |pdu| + 3
  {
    var crc := Crc([unitId] + pdu);
    [unitId] + pdu + [(crc & 0xFF) as bv8, (crc >> 8) as bv8]
  }

  method EncodeRtuFrame(unitId: byte, pdu: seq<byte>) returns (frame: seq<byte>)
    ensures frame == RtuFrame(unitId, pdu)
  {
    frame := [unitId];
    frame := frame + pdu;
    var crc := ComputeModbusCrc16(frame);
    frame := frame + [(crc & 0xFF) as bv8];
    frame := frame + [((crc >> 8) & 0xFF) as bv8];
    HighByte(crc);
    assert frame == [unitId] + pdu + [(crc & 0xFF) as bv8, (crc >> 8) as bv8];
  }

  lemma HighByte(crc: bv16)
    ensures (crc >> 8) & 0xFF == crc >> 8
  {
  }

  function DecodeRtuFrame(frame: seq<byte>): Option<DecodedRtuFrame> {
    if |frame| < 3 then None
    else
      var withoutCrc := frame[..|frame| - 2];
      var receivedCrc := (frame[|frame| - 2] as bv16) | ((frame[|frame| - 1] as bv16) << 8);
      if Crc(withoutCrc) != receivedCrc then None
      else Some(DecodedRtuFrame(withoutCrc[0], withoutCrc[1..]))
  }

  lemma HalvesOf(crc: bv16, low: byte, high: byte)
    ensures crc == (low as bv16) | ((high as bv16) << 8) <==> low == (crc & 0xFF) as bv8 && high == (crc >> 8) as bv8
  {
  }

  /** Whatever is framed is unframed to itself. */
  lemma DecodeEncodedRtu(unitId: byte, pdu: seq<byte>)
    ensures DecodeRtuFrame(RtuFrame(unitId, pdu)) == Some(DecodedRtuFrame(unitId, pdu))
  {
    var frame, body := RtuFrame(unitId, pdu), [unitId] + pdu;
    assert frame[..|frame| - 2] == body;
    HalvesOf(Crc(body), frame[|frame| - 2], frame[|frame| - 1]);
  }

  lemma FeedTwo(frame: seq<byte>)
    requires |frame| >= 2
    ensures Feed(INITIAL, frame)
         == ByteStep(ByteStep(Feed(INITIAL, frame[..|frame| - 2]), frame[|frame| - 2]), frame[|frame| - 1])
  {
    var n := |frame|;
    assert frame[..n - 1][..n - 2] == frame[..n - 2];
    assert Feed(INITIAL, frame[..n - 1]) == ByteStep(Feed(INITIAL, frame[..n - 2]), frame[n - 2]);
  }

  /** A frame of at least three bytes is accepted if and only if its CRC, taken over all
      its bytes, is zero. */
  lemma AcceptedIffCrcZero(frame: seq<byte>)
    requires |frame| >= 3
    ensures DecodeRtuFrame(frame).Some? <==> Crc(frame) == 0
  {
    var low, high := frame[|frame| - 2], frame[|frame| - 1];
    var r := Feed(INITIAL, frame[..|frame| - 2]);
    FeedTrailer(frame);
    TrailerMatches(r, low, high, Feed(INITIAL, frame));
  }

  lemma FeedTrailer(frame: seq<byte>)
    requires |frame| >= 2
    ensures Feed(INITIAL, frame) == CLEAR
       <==> && frame[|frame| - 2] == LowHalf(Feed(INITIAL, frame[..|frame| - 2]))
            && frame[|frame| - 1] == HighHalf(Feed(INITIAL, frame[..|frame| - 2]))
  {
    FeedTwo(frame);
    TrailerClears(Feed(INITIAL, frame[..|frame| - 2]), frame[|frame| - 2], frame[|frame| - 1]);
  }

  lemma TrailerMatches(r: Register, low: byte, high: byte, after: Register)
    requires after == CLEAR <==> low == LowHalf(r) && high == HighHalf(r)
    ensures after.bits == 0 <==> r.bits == (low as bv16) | ((high as bv16) << 8)
  {
    HalvesOf(r.bits, low, high);
  }

  /** A received frame that differs from an accepted one in an odd number of bits is rejected. */
  lemma OddErrorsRejected(sent: seq<byte>, received: seq<byte>)
    requires |sent| == |received|
    requires DecodeRtuFrame(sent).Some?
    requires Ones(Difference(sent, received)) % 2 == 1
    ensures DecodeRtuFrame(received) == None
  {
    AcceptedIffCrcZero(sent);
    AcceptedIffCrcZero(received);
    assert Feed(INITIAL, sent) == CLEAR;
    ReceivedRegister(sent, received);
    OddErrorLeavesTrace(Difference(sent, received));
  }

  /** A received frame that differs from an accepted one, but only within sixteen
      consecutive bits of the line, is rejected. */
  lemma BurstErrorsRejected(sent: seq<byte>, received: seq<byte>, first: nat)
    requires |sent| == |received|
    requires DecodeRtuFrame(sent).Some?
    requires sent != received
    requires forall n :: 0 <= n < 8 * |sent| && Difference(sent, received)[n] ==> first <= n < first + 16
    ensures DecodeRtuFrame(received) == None
  {
    AcceptedIffCrcZero(sent);
    AcceptedIffCrcZero(received);
    assert Feed(INITIAL, sent) == CLEAR;
    ReceivedRegister(sent, received);
    var n := FirstDifference(sent, received);
    // A window that would run past the end of the frame is moved back to end with it.
    BurstLeavesTrace(Difference(sent, received), if first + 16 <= 8 * |sent| then first else 8 * |sent| - 16);
  }

  lemma FirstDifference(sent: seq<byte>, received: seq<byte>) returns (n: nat)
    requires |sent| == |received| && sent != received
    ensures n < 8 * |sent| && Difference(sent, received)[n]
  {
    var i :| 0 <= i < |sent| && sent[i] != received[i];
    var k := DifferentBit(sent[i], received[i]);
    n := 8 * i + k;
    assert n / 8 == i && n % 8 == k;
    FrameBit(sent, n);
    FrameBit(received, n);
  }

  // ----- where a response ends -----

  predicate IsExceptionCode(functionCode: byte) {
    functionCode & 0x80 != 0
  }

  predicate IsReadCode(functionCode: byte) {
    || functionCode == READ_COILS
    || functionCode == READ_DISCRETE_INPUTS
    || functionCode == READ_HOLDING_REGISTERS
    || functionCode == READ_INPUT_REGISTERS
  }

  predicate IsWriteCode(functionCode: byte) {
    || functionCode == WRITE_SINGLE_COIL
    || functionCode == WRITE_SINGLE_REGISTER
    || functionCode == WRITE_MULTIPLE_COILS
    || functionCode == WRITE_MULTIPLE_REGISTERS
  }

  /** 0 while the bytes so far do not decide the length, or the function code is unknown. */
  function ExpectedRtuResponseLength(partialFrame: seq<byte>): nat {
    if |partialFrame| < 2 then 0
    else
      var functionCode := partialFrame[1];
      if IsExceptionCode(functionCode) then 5
      else if IsWriteCode(functionCode) then 8
      else if IsReadCode(functionCode) then
        if |partialFrame| < 3 then 0 else 5 + FromByte(partialFrame[2])
      else 0
  }

  /** The shapes a device answers in: an exception, a write echo, or a counted read. */
  predicate IsResponsePdu(pdu: seq<byte>) {
    && pdu != []
    && if IsExceptionCode(pdu[0]) then |pdu| == 2
       else if IsWriteCode(pdu[0]) then |pdu| == 5
       else IsReadCode(pdu[0]) && |pdu| >= 2 && |pdu| == 2 + FromByte(pdu[1])
  }

  /** The predicted length is the length of the encoded frame exactly for response PDUs. */
  lemma PredictedLengthIffResponse(unitId: byte, pdu: seq<byte>)
    ensures ExpectedRtuResponseLength(RtuFrame(unitId, pdu)) == |RtuFrame(unitId, pdu)| <==> IsResponsePdu(pdu)
  {
    var frame := RtuFrame(unitId, pdu);
    if pdu != [] {
      assert frame[1] == pdu[0];
      if |pdu| >= 2 {
        assert frame[2] == pdu[1];
      }
    }
  }

  /** Once decided, the prediction does not change as more bytes arrive. */
  lemma PredictionStable(partialFrame: seq<byte>, more: seq<byte>)
    requires ExpectedRtuResponseLength(partialFrame) != 0
    ensures ExpectedRtuResponseLength(partialFrame + more) == ExpectedRtuResponseLength(partialFrame)
  {
  }
}
