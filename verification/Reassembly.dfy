/** However a stream of frames is cut into chunks, the stack ends up as if each frame had
    been delivered by itself. */
module Reassembly {
  import opened Numbers
  import opened Crc16
  import opened TcpFramer
  import opened RtuFramer
  import opened Caches
  import opened Transactions
  import opened Polling
  import opened OneShots
  import opened PollStack

  /** A frame that says where it ends: over TCP a Modbus header with a declared length of at
      least one, over RTU a response whose predicted length is its length. Its checksum may
      be wrong. */
  predicate Framed(mode: FramingMode, frame: seq<byte>) {
    if mode == Tcp then
      |frame| >= HEADER_BYTE_COUNT && ReadBigEndian16(frame, 2) == 0 && |frame| == 6 + ReadBigEndian16(frame, 4)
    else |frame| > 0 && ExpectedRtuResponseLength(frame) == |frame|
  }

  predicate AllFramed(mode: FramingMode, frames: seq<seq<byte>>) {
    forall k :: 0 <= k < |frames| ==> Framed(mode, frames[k])
  }

  function Concat(pieces: seq<seq<byte>>): seq<byte> {
    if pieces == [] then [] else pieces[0] + Concat(pieces[1..])
  }

  /** What devices send is framed. */
  lemma EncodedIsFramed(transactionId: u16, unitId: byte, pdu: seq<byte>)
    ensures |pdu| < 0xFFFF ==> Framed(Tcp, MbapFrame(transactionId, unitId, pdu))
    ensures IsResponsePdu(pdu) ==> Framed(Rtu, RtuFrame(unitId, pdu))
  {
    PredictedLengthIffResponse(unitId, pdu);
    if |pdu| < 0xFFFF {
      var frame := MbapFrame(transactionId, unitId, pdu);
      EncodedHeader(transactionId, unitId, pdu, []);
      assert frame + [] == frame;
    }
  }

  /** The arrival at the front of the buffer is that of the first frame, whatever follows. */
  lemma FrontFrame(mode: FramingMode, frame: seq<byte>, more: seq<byte>)
    requires Framed(mode, frame)
    ensures NextArrival(mode, frame).Some?
    ensures NextArrival(mode, frame).value.size == |frame|
    ensures NextArrival(mode, frame + more) == NextArrival(mode, frame)
  {
    if mode == Tcp {
      FrontMbapFrame(frame, more);
    } else {
      PredictionStable(frame, more);
      assert (frame + more)[..|frame|] == frame == frame[..|frame|];
    }
  }

  lemma FrontMbapFrame(frame: seq<byte>, more: seq<byte>)
    requires Framed(Tcp, frame)
    ensures DecodeMbapFrame(frame) == Some(DecodedMbapFrame(ReadBigEndian16(frame, 0), frame[6], frame[7..], |frame|))
    ensures DecodeMbapFrame(frame + more) == DecodeMbapFrame(frame)
  {
    SameField(frame, more, 0);
    SameField(frame, more, 2);
    SameField(frame, more, 4);
    assert (frame + more)[7..|frame|] == frame[7..] == frame[7..|frame|];
  }

  lemma SameField(frame: seq<byte>, more: seq<byte>, offset: nat)
    requires offset + 2 <= |frame|
    ensures ReadBigEndian16(frame + more, offset) == ReadBigEndian16(frame, offset)
  {
  }

  /** What arrives of an encoded frame is what was encoded. */
  lemma EncodedArrives(transactionId: u16, unitId: byte, pdu: seq<byte>, more: seq<byte>)
    ensures |pdu| < 0xFFFF ==>
              NextArrival(Tcp, MbapFrame(transactionId, unitId, pdu) + more) == Some(Reply(7 + |pdu|, Some(transactionId), pdu))
    ensures IsResponsePdu(pdu) ==> NextArrival(Rtu, RtuFrame(unitId, pdu) + more) == Some(Reply(3 + |pdu|, None, pdu))
  {
    hide MbapFrame, DecodeMbapFrame, RtuFrame, DecodeRtuFrame, ExpectedRtuResponseLength, IsResponsePdu;
    if |pdu| < 0xFFFF {
      DecodeEncodedMbap(transactionId, unitId, pdu, more);
    }
    if IsResponsePdu(pdu) {
      var frame := RtuFrame(unitId, pdu);
      DecodeEncodedRtu(unitId, pdu);
      PredictedLengthIffResponse(unitId, pdu);
      PredictionStable(frame, more);
      assert (frame + more)[..|frame|] == frame;
    }
  }

  /** A proper prefix of a frame waits for the rest. */
  lemma PrefixWaits(mode: FramingMode, frame: seq<byte>, n: nat)
    requires Framed(mode, frame) && n < |frame|
    ensures NextArrival(mode, frame[..n]) == None
  {
    var prefix := frame[..n];
    if mode == Tcp {
      if n >= 7 {
        assert ReadBigEndian16(prefix, 2) == ReadBigEndian16(frame, 2);
        assert ReadBigEndian16(prefix, 4) == ReadBigEndian16(frame, 4);
      }
    } else if ExpectedRtuResponseLength(prefix) != 0 {
      PredictionStable(prefix, frame[n..]);
      assert prefix + frame[n..] == frame;
    }
  }

  // ----- delivering does not look at the buffer -----

  function LinkWithBuffer(l: Link, buffer: seq<byte>): Link {
    l.(m := l.m.(receiveBuffer := buffer))
  }

  lemma IssueIgnoresBuffer(l: Link, buffer: seq<byte>)
    requires l.e.nextPlan < |l.e.plans|
    ensures IssueNext(LinkWithBuffer(l, buffer)) == LinkWithBuffer(IssueNext(l), buffer)
    ensures IssueNext(l).m.mode == l.m.mode
  {
  }

  lemma {:induction false} PumpIgnoresBuffer(l: Link, buffer: seq<byte>)
    ensures Pump(LinkWithBuffer(l, buffer)) == LinkWithBuffer(Pump(l), buffer)
    ensures Pump(l).m.mode == l.m.mode
    decreases |l.e.plans| - l.e.nextPlan
  {
    assert CanIssue(LinkWithBuffer(l, buffer)) == CanIssue(l);
    if CanIssue(l) {
      PumpIgnoresBuffer(IssueNext(l), buffer);
      IssueIgnoresBuffer(l, buffer);
    }
  }

  lemma SettlingIgnoresBuffer(l: Link, i: int, buffer: seq<byte>)
    ensures NoteRequestSettled(LinkWithBuffer(l, buffer), i) == LinkWithBuffer(NoteRequestSettled(l, i), buffer)
    ensures NoteRequestSettled(l, i).m.mode == l.m.mode
  {
    PumpIgnoresBuffer(l.(e := Settle(l.e, i)), buffer);
  }

  lemma ResponseIgnoresBuffer(l: Link, correlationId: nat, pdu: seq<byte>, buffer: seq<byte>)
    ensures HandleResponse(LinkWithBuffer(l, buffer), correlationId, pdu)
         == LinkWithBuffer(HandleResponse(l, correlationId, pdu), buffer)
    ensures HandleResponse(l, correlationId, pdu).m.mode == l.m.mode
  {
    var index := PlanIndexOf(correlationId);
    var applied := UseReply(l.e, index, pdu);
    SettlingIgnoresBuffer(l.(e := applied), index, buffer);
  }

  lemma DeliverIgnoresBuffer(s: Stack, a: Arrival, buffer: seq<byte>)
    ensures Deliver(WithBuffer(s, buffer), a) == WithBuffer(Deliver(s, a), buffer)
    ensures Deliver(s, a).link.m.mode == s.link.m.mode
  {
    if a.Reply? {
      var i := MatchOf(s.link.m.pending, a.transactionId);
      if i < |s.link.m.pending| {
        ResponseIgnoresBuffer(s.link.(m := Complete(s.link.m, i, a.pdu)), s.link.m.pending[i].correlationId, a.pdu, buffer);
      }
    }
  }

  // ----- frame by frame -----

  function DeliverFrame(s: Stack, frame: seq<byte>): (r: Stack)
    ensures r.link.m.receiveBuffer == s.link.m.receiveBuffer
  {
    match NextArrival(s.link.m.mode, frame)
    case None => s
    case Some(a) => Deliver(s, a)
  }

  function DeliverFrames(s: Stack, frames: seq<seq<byte>>): Stack
    decreases |frames|
  {
    if frames == [] then s else DeliverFrames(DeliverFrame(s, frames[0]), frames[1..])
  }

  /** A request is outstanding whenever a frame is delivered. */
  predicate Awaited(s: Stack, frames: seq<seq<byte>>)
    decreases |frames|
  {
    frames != [] ==> s.link.m.pending != [] && Awaited(DeliverFrame(s, frames[0]), frames[1..])
  }

  lemma ConsumeFront(s: Stack, frame: seq<byte>, more: seq<byte>)
    requires Framed(s.link.m.mode, frame) && s.link.m.pending != []
    ensures Consume(WithBuffer(s, frame + more)) == Consume(WithBuffer(DeliverFrame(s, frame), more))
  {
    FrontFrame(s.link.m.mode, frame, more);
    var a := NextArrival(s.link.m.mode, frame).value;
    assert (frame + more)[a.size..] == more;
    assert WithBuffer(WithBuffer(s, frame + more), more) == WithBuffer(s, more);
    DeliverIgnoresBuffer(s, a, more);
  }

  lemma ConsumeWaits(s: Stack, buffer: seq<byte>)
    requires NextArrival(s.link.m.mode, buffer) == None
    ensures Consume(WithBuffer(s, buffer)) == WithBuffer(s, buffer)
  {
  }

  lemma EmptyWaits(mode: FramingMode)
    ensures NextArrival(mode, []) == None
  {
  }

  lemma {:induction false} ConcatSplit(frames: seq<seq<byte>>, j: nat)
    requires j <= |frames|
    ensures Concat(frames[..j]) + Concat(frames[j..]) == Concat(frames)
  {
    if j > 0 {
      ConcatSplit(frames[1..], j - 1);
      assert frames[..j][1..] == frames[1..][..j - 1];
      assert frames[j..] == frames[1..][j - 1..];
    } else {
      assert frames[0..] == frames;
    }
  }

  /** Delivering the first j frames leaves the others to deliver. */
  lemma {:induction false} DeliverSplit(s: Stack, frames: seq<seq<byte>>, j: nat)
    requires j <= |frames| && Awaited(s, frames)
    ensures Awaited(DeliverFrames(s, frames[..j]), frames[j..])
    ensures DeliverFrames(DeliverFrames(s, frames[..j]), frames[j..]) == DeliverFrames(s, frames)
    ensures DeliverFrames(s, frames[..j]).link.m.mode == s.link.m.mode
    decreases |frames|
  {
    if j > 0 {
      DeliverSplit(DeliverFrame(s, frames[0]), frames[1..], j - 1);
      DeliverFrameKeepsMode(s, frames[0]);
      assert frames[..j][0] == frames[0] && frames[..j][1..] == frames[1..][..j - 1];
      assert frames[j..] == frames[1..][j - 1..];
    } else {
      assert frames[0..] == frames;
    }
  }

  lemma DeliverFrameKeepsMode(s: Stack, frame: seq<byte>)
    ensures DeliverFrame(s, frame).link.m.mode == s.link.m.mode
  {
    var next := NextArrival(s.link.m.mode, frame);
    if next.Some? {
      DeliverIgnoresBuffer(s, next.value, []);
    }
  }

  /** A buffered prefix of a frame stream has been used up as far as it goes: its first j
      frames are delivered, and the rest, a proper prefix of the next frame, is kept. */
  predicate Absorbed(s: Stack, frames: seq<seq<byte>>, buffer: seq<byte>, j: nat, rest: seq<byte>) {
    && j <= |frames| && buffer == Concat(frames[..j]) + rest
    && (if j == |frames| then rest == [] else rest <= frames[j] && |rest| < |frames[j]|)
    && Consume(WithBuffer(s, buffer)) == WithBuffer(DeliverFrames(s, frames[..j]), rest)
  }

  lemma {:induction false} ConsumePrefix(s: Stack, frames: seq<seq<byte>>, buffer: seq<byte>)
    returns (j: nat, rest: seq<byte>)
    requires AllFramed(s.link.m.mode, frames) && Awaited(s, frames) && buffer <= Concat(frames)
    ensures Absorbed(s, frames, buffer, j, rest)
    decreases |frames|
  {
    if frames == [] {
      j, rest := 0, [];
      EmptyWaits(s.link.m.mode);
      ConsumeWaits(s, []);
    } else if |buffer| < |frames[0]| {
      j, rest := 0, buffer;
      FirstIncomplete(s, frames, buffer);
    } else {
      FirstComplete(frames, buffer);
      DeliverFrameKeepsMode(s, frames[0]);
      var i, tail := ConsumePrefix(DeliverFrame(s, frames[0]), frames[1..], buffer[|frames[0]|..]);
      j, rest := i + 1, tail;
      AbsorbFirst(s, frames, buffer[|frames[0]|..], i, tail);
    }
  }

  lemma AbsorbFirst(s: Stack, frames: seq<seq<byte>>, more: seq<byte>, i: nat, rest: seq<byte>)
    requires frames != [] && Framed(s.link.m.mode, frames[0]) && s.link.m.pending != []
    requires Absorbed(DeliverFrame(s, frames[0]), frames[1..], more, i, rest)
    ensures Absorbed(s, frames, frames[0] + more, i + 1, rest)
  {
    ConsumeFront(s, frames[0], more);
    TakeOneMore(s, frames, i);
    assert i < |frames| - 1 ==> frames[1..][i] == frames[i + 1];
  }

  lemma FirstIncomplete(s: Stack, frames: seq<seq<byte>>, buffer: seq<byte>)
    requires frames != [] && Framed(s.link.m.mode, frames[0])
    requires buffer <= Concat(frames) && |buffer| < |frames[0]|
    ensures buffer <= frames[0] && Consume(WithBuffer(s, buffer)) == WithBuffer(s, buffer)
  {
    assert buffer == frames[0][..|buffer|];
    PrefixWaits(s.link.m.mode, frames[0], |buffer|);
    ConsumeWaits(s, buffer);
  }

  lemma FirstComplete(frames: seq<seq<byte>>, buffer: seq<byte>)
    requires frames != [] && buffer <= Concat(frames) && |buffer| >= |frames[0]|
    ensures buffer == frames[0] + buffer[|frames[0]|..] && buffer[|frames[0]|..] <= Concat(frames[1..])
  {
    assert Concat(frames) == frames[0] + Concat(frames[1..]);
  }

  lemma TakeOneMore(s: Stack, frames: seq<seq<byte>>, i: nat)
    requires i < |frames|
    ensures Concat(frames[..i + 1]) == frames[0] + Concat(frames[1..][..i])
    ensures DeliverFrames(s, frames[..i + 1]) == DeliverFrames(DeliverFrame(s, frames[0]), frames[1..][..i])
  {
    assert frames[..i + 1][0] == frames[0] && frames[..i + 1][1..] == frames[1..][..i];
  }

  function ReceiveAll(s: Stack, chunks: seq<seq<byte>>): Stack
    decreases |chunks|
  {
    if chunks == [] then s else ReceiveAll(Receive(s, chunks[0]), chunks[1..])
  }

  /** Part of a frame is already buffered; the chunks bring the rest of the stream. */
  lemma {:induction false} ChunksFrom(s: Stack, frames: seq<seq<byte>>, buffered: seq<byte>, chunks: seq<seq<byte>>)
    requires AllFramed(s.link.m.mode, frames) && Awaited(s, frames)
    requires if frames == [] then buffered == [] else buffered <= frames[0] && |buffered| < |frames[0]|
    requires buffered + Concat(chunks) == Concat(frames)
    ensures ReceiveAll(WithBuffer(s, buffered), chunks) == WithBuffer(DeliverFrames(s, frames), [])
    decreases |chunks|
  {
    if chunks != [] {
      var buffer := buffered + chunks[0];
      assert Concat(frames) == buffer + Concat(chunks[1..]);
      if frames == [] {
        ReceiveNothing(s);
        ChunksFrom(s, frames, [], chunks[1..]);
      } else {
        var j, rest := ConsumePrefix(s, frames, buffer);
        assert Absorbed(s, frames, buffer, j, rest);
        assert Receive(WithBuffer(s, buffered), chunks[0]) == WithBuffer(DeliverFrames(s, frames[..j]), rest);
        ConcatSplit(frames, j);
        DeliverSplit(s, frames, j);
        SameHead(Concat(frames[..j]), rest, Concat(chunks[1..]), Concat(frames[j..]));
        ChunksFrom(DeliverFrames(s, frames[..j]), frames[j..], rest, chunks[1..]);
      }
    }
  }

  lemma SameHead(head: seq<byte>, a: seq<byte>, b: seq<byte>, tail: seq<byte>)
    requires (head + a) + b == head + tail
    ensures a + b == tail
  {
    assert (head + a) + b == head + (a + b);
    assert (head + (a + b))[|head|..] == (head + tail)[|head|..];
  }

  lemma ReceiveNothing(s: Stack)
    ensures Receive(WithBuffer(s, []), []) == WithBuffer(s, [])
  {
    EmptyWaits(s.link.m.mode);
    ConsumeWaits(s, []);
    var nothing: seq<byte> := [];
    assert nothing + nothing == nothing;
  }

  /** The theorem: from a frame boundary, with a request outstanding whenever a frame is
      complete, every way of cutting the stream gives the state that delivering the frames
      one by one gives; so any two ways agree. */
  lemma ChunkingDoesNotMatter(s: Stack, frames: seq<seq<byte>>, chunks: seq<seq<byte>>)
    requires s.link.m.receiveBuffer == [] && AllFramed(s.link.m.mode, frames) && Awaited(s, frames)
    requires Concat(chunks) == Concat(frames)
    ensures ReceiveAll(s, chunks) == DeliverFrames(s, frames)
  {
    assert WithBuffer(s, []) == s;
    ChunksFrom(s, frames, [], chunks);
    DeliveryKeepsBuffer(s, frames);
  }

  lemma {:induction false} DeliveryKeepsBuffer(s: Stack, frames: seq<seq<byte>>)
    ensures DeliverFrames(s, frames).link.m.receiveBuffer == s.link.m.receiveBuffer
    decreases |frames|
  {
    if frames != [] {
      DeliveryKeepsBuffer(DeliverFrame(s, frames[0]), frames[1..]);
    }
  }

  // ----- frames that answer nothing -----

  /** The complete frame at the front of an RTU buffer. */
  predicate RtuFrameInFront(s: Stack, length: nat) {
    && s.link.m.mode == Rtu && s.link.m.pending != []
    && length == ExpectedRtuResponseLength(s.link.m.receiveBuffer) && 0 < length <= |s.link.m.receiveBuffer|
  }

  lemma ExpectedLengthAtLeast(buffer: seq<byte>)
    ensures ExpectedRtuResponseLength(buffer) == 0 || ExpectedRtuResponseLength(buffer) >= 5
  {
  }

  /** A frame whose CRC is wrong is dropped: what follows it is consumed as if it had not come. */
  lemma GarbledFramesAreDropped(s: Stack, length: nat)
    requires RtuFrameInFront(s, length) && Crc(s.link.m.receiveBuffer[..length]) != 0
    ensures Consume(s) == Consume(WithBuffer(s, s.link.m.receiveBuffer[length..]))
  {
    hide Crc, DecodeRtuFrame, ExpectedRtuResponseLength;
    ExpectedLengthAtLeast(s.link.m.receiveBuffer);
    AcceptedIffCrcZero(s.link.m.receiveBuffer[..length]);
    assert NextArrival(Rtu, s.link.m.receiveBuffer) == Some(Garbled(length));
    assert Deliver(WithBuffer(s, s.link.m.receiveBuffer[length..]), Garbled(length))
        == WithBuffer(s, s.link.m.receiveBuffer[length..]);
  }

  lemma RtuFrameHolds(frame: seq<byte>)
    requires |frame| >= 3 && DecodeRtuFrame(frame).Some?
    ensures DecodeRtuFrame(frame).value.pdu == frame[1..|frame| - 2]
  {
  }

  /** One whose CRC is right answers the oldest request, with all but the unit and the CRC. */
  lemma SoundFramesAnswerTheOldest(s: Stack, length: nat)
    requires RtuFrameInFront(s, length) && Crc(s.link.m.receiveBuffer[..length]) == 0
    ensures length >= 5
    ensures Consume(s)
         == Consume(Answer(WithBuffer(s, s.link.m.receiveBuffer[length..]), 0, s.link.m.receiveBuffer[1..length - 2]))
  {
    hide Crc, DecodeRtuFrame, ExpectedRtuResponseLength, Answer;
    var buffer := s.link.m.receiveBuffer;
    ExpectedLengthAtLeast(buffer);
    AcceptedIffCrcZero(buffer[..length]);
    RtuFrameHolds(buffer[..length]);
    assert buffer[..length][1..length - 2] == buffer[1..length - 2];
    var a := Reply(length, None, buffer[1..length - 2]);
    assert NextArrival(Rtu, buffer) == Some(a);
  }

  lemma {:induction false} NotFound(pending: seq<PendingRequest>, transactionId: u16)
    requires forall i :: 0 <= i < |pending| ==> pending[i].transactionId != transactionId
    ensures FindTransaction(pending, transactionId) == |pending|
  {
    if pending != [] {
      NotFound(pending[1..], transactionId);
    }
  }

  /** Over TCP a complete frame that bears the id of no pending request is dropped. */
  lemma UnknownIdsAreDropped(s: Stack)
    requires s.link.m.mode == Tcp && s.link.m.pending != [] && DecodeMbapFrame(s.link.m.receiveBuffer).Some?
    requires var f := DecodeMbapFrame(s.link.m.receiveBuffer).value;
             forall i :: 0 <= i < |s.link.m.pending| ==> s.link.m.pending[i].transactionId != f.transactionId
    ensures var f := DecodeMbapFrame(s.link.m.receiveBuffer).value;
            Consume(s) == Consume(WithBuffer(s, s.link.m.receiveBuffer[f.frameByteCount..]))
  {
    hide DecodeMbapFrame;
    var f := DecodeMbapFrame(s.link.m.receiveBuffer).value;
    NotFound(s.link.m.pending, f.transactionId);
    var a := Reply(f.frameByteCount, Some(f.transactionId), f.pdu);
    assert NextArrival(Tcp, s.link.m.receiveBuffer) == Some(a);
    assert Deliver(WithBuffer(s, s.link.m.receiveBuffer[a.size..]), a) == WithBuffer(s, s.link.m.receiveBuffer[a.size..]);
  }
}
