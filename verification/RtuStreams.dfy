/** Over a serial line replies carry no ids, and are paired with requests by their order in the
    byte stream, however the stream is cut up. */
module RtuStreams {
  import opened Numbers
  import opened RtuFramer
  import opened Transactions
  import opened PollStack
  import opened StackInvariants
  import opened CycleResults
  import opened Reassembly

  /** The frames of these replies, each from its own unit. */
  function RtuFrames(units: seq<byte>, pdus: seq<seq<byte>>): (frames: seq<seq<byte>>)
    requires |units| == |pdus|
    ensures |frames| == |pdus|
  {
    seq(|pdus|, k requires 0 <= k < |pdus| => RtuFrame(units[k], pdus[k]))
  }

  predicate AllResponses(pdus: seq<seq<byte>>) {
    forall k :: 0 <= k < |pdus| ==> IsResponsePdu(pdus[k])
  }

  lemma RestOfFrames(units: seq<byte>, pdus: seq<seq<byte>>)
    requires |units| == |pdus| && pdus != []
    ensures RtuFrames(units, pdus)[0] == RtuFrame(units[0], pdus[0])
    ensures RtuFrames(units, pdus)[1..] == RtuFrames(units[1..], pdus[1..])
  {
    hide RtuFrame;
  }

  lemma FramesAreFramed(units: seq<byte>, pdus: seq<seq<byte>>)
    requires |units| == |pdus| && AllResponses(pdus)
    ensures AllFramed(Rtu, RtuFrames(units, pdus))
  {
    hide RtuFrame, Framed, IsResponsePdu;
    forall k | 0 <= k < |pdus|
      ensures Framed(Rtu, RtuFrames(units, pdus)[k])
    {
      EncodedIsFramed(0, units[k], pdus[k]);
    }
  }

  /** One frame answers the oldest request, and leaves the others in their order. */
  lemma OneFrame(s: Stack, unitId: byte, pdu: seq<byte>)
    requires StackValid(s) && s.link.m.mode == Rtu && s.link.m.pending != [] && IsResponsePdu(pdu)
    ensures DeliverFrame(s, RtuFrame(unitId, pdu)) == Deliver(s, Reply(|pdu| + 3, None, pdu)) == Answer(s, 0, pdu)
    ensures StackValid(Answer(s, 0, pdu)) && Answer(s, 0, pdu).link.m.mode == Rtu
    ensures s.link.m.pending[1..] <= Answer(s, 0, pdu).link.m.pending
  {
    hide Answer, NextArrival, RtuFrame, StackValid, IsResponsePdu;
    EncodedArrives(0, unitId, pdu, []);
    assert RtuFrame(unitId, pdu) + [] == RtuFrame(unitId, pdu);
    OldestIsAnswered(s, pdu);
    DeliverIgnoresBuffer(s, Reply(|pdu| + 3, None, pdu), []);
  }

  /** With a request for each reply, delivering the frames is answering in turn. */
  lemma {:induction false} FramesInTurn(s: Stack, units: seq<byte>, pdus: seq<seq<byte>>)
    requires StackValid(s) && s.link.m.mode == Rtu
    requires |units| == |pdus| <= |s.link.m.pending| && AllResponses(pdus)
    ensures Awaited(s, RtuFrames(units, pdus))
    ensures DeliverFrames(s, RtuFrames(units, pdus)) == AnswerInTurn(s, pdus)
    decreases |pdus|
  {
    hide Answer, Deliver, DeliverFrame, StackValid, RtuFrames, IsResponsePdu;
    if pdus != [] {
      RestOfFrames(units, pdus);
      assert IsResponsePdu(pdus[0]);
      OneFrame(s, units[0], pdus[0]);
      assert |Answer(s, 0, pdus[0]).link.m.pending| >= |s.link.m.pending| - 1;
      FramesInTurn(Answer(s, 0, pdus[0]), units[1..], pdus[1..]);
    }
  }

  /** The theorem: over RTU, from a frame boundary, with a request pending for each reply, the
      k-th frame of the byte stream ends the k-th oldest request, however the stream is cut. */
  lemma RtuStreamPairsInOrder(s: Stack, units: seq<byte>, pdus: seq<seq<byte>>, chunks: seq<seq<byte>>, k: nat)
    requires StackValid(s) && s.link.m.mode == Rtu && s.link.m.receiveBuffer == []
    requires k < |pdus| == |units| <= |s.link.m.pending| && AllResponses(pdus)
    requires Concat(chunks) == Concat(RtuFrames(units, pdus))
    ensures s.link.m.pending[k].serial in ReceiveAll(s, chunks).link.m.outcomes
    ensures ReceiveAll(s, chunks).link.m.outcomes[s.link.m.pending[k].serial] == AnswerTo(s.link.m.pending[k], pdus[k])
  {
    hide StackValid, RtuFrames, AnswerInTurn, DeliverFrames, ReceiveAll, Awaited, Concat;
    FramesAreFramed(units, pdus);
    FramesInTurn(s, units, pdus);
    ChunkingDoesNotMatter(s, RtuFrames(units, pdus), chunks);
    RtuPairsInOrder(s, pdus, k);
  }
}
