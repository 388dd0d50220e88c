/** Devices at the other end of the wire: whatever mixture of their answers to transmitted
    frames arrives - late, repeated, reordered over TCP, in turn over RTU - is honest data, so a
    cycle against them reads their memory. */
module Devices {
  import opened Numbers
  import opened RegisterTypes
  import opened ReadCoalescer
  import opened PlannerCoverage
  import opened TcpFramer
  import opened RtuFramer
  import opened PduCodec
  import opened Caches
  import opened CoalescedPolling
  import opened Transactions
  import opened Polling
  import opened OneShots
  import opened PollStack
  import opened Accounting
  import opened StackInvariants
  import opened Provenance
  import opened Isolation
  import opened Reassembly
  import opened RtuStreams
  import opened EndToEnd

  /** A device at the other end of a TCP connection: it takes a frame apart, and answers from
      its memory under the same transaction and unit id. */
  function DeviceOverTcp(memory: Memory, frame: seq<byte>): Option<seq<byte>> {
    match DecodeMbapFrame(frame)
    case None => None
    case Some(d) =>
      if Serviceable(d.pdu) then Some(MbapFrame(d.transactionId, d.unitId, DeviceAnswer(memory, FromByte(d.unitId), d.pdu)))
      else None
  }

  /** The same on a serial line. */
  function DeviceOverRtu(memory: Memory, frame: seq<byte>): Option<seq<byte>> {
    match DecodeRtuFrame(frame)
    case None => None
    case Some(d) =>
      if Serviceable(d.pdu) then Some(RtuFrame(d.unitId, DeviceAnswer(memory, FromByte(d.unitId), d.pdu))) else None
  }

  lemma AnswerShape(memory: Memory, unitId: u8, pdu: seq<byte>)
    requires Serviceable(pdu)
    ensures IsResponsePdu(DeviceAnswer(memory, unitId, pdu)) && |DeviceAnswer(memory, unitId, pdu)| < 0xFFFF
  {
    var request := DeviceParseRead(pdu).value;
    var region := RegionOf(request.functionCode);
    var words := WordsIn(memory, unitId, region, request.startAddress, if IsBitType(region) then 0 else request.quantity);
    var flags := FlagsIn(memory, unitId, region, request.startAddress, if IsBitType(region) then request.quantity else 0);
    ReadResponsesArePredictable(request.functionCode, words, flags);
  }

  // ----- one request and its answer -----

  lemma TcpRoundTrip(memory: Memory, r: PendingRequest, more: seq<byte>)
    requires Serviceable(r.requestPdu) && |r.requestPdu| == 5
    ensures var answer := DeviceAnswer(memory, r.unitId, r.requestPdu);
            && DeviceOverTcp(memory, FrameFor(Tcp, r)) == Some(MbapFrame(r.transactionId, ToByte(r.unitId), answer))
            && NextArrival(Tcp, MbapFrame(r.transactionId, ToByte(r.unitId), answer) + more)
               == Some(Reply(7 + |answer|, Some(r.transactionId), answer))
  {
    hide MbapFrame, DecodeMbapFrame, DeviceParseRead, DeviceAnswer, NextArrival;
    var answer := DeviceAnswer(memory, r.unitId, r.requestPdu);
    FromToByte(r.unitId);
    AnswerShape(memory, r.unitId, r.requestPdu);
    DecodeEncodedMbap(r.transactionId, ToByte(r.unitId), r.requestPdu, []);
    assert FrameFor(Tcp, r) + [] == FrameFor(Tcp, r);
    EncodedArrives(r.transactionId, ToByte(r.unitId), answer, more);
  }

  lemma RtuRoundTrip(memory: Memory, r: PendingRequest, more: seq<byte>)
    requires Serviceable(r.requestPdu)
    ensures var answer := DeviceAnswer(memory, r.unitId, r.requestPdu);
            && DeviceOverRtu(memory, FrameFor(Rtu, r)) == Some(RtuFrame(ToByte(r.unitId), answer))
            && NextArrival(Rtu, RtuFrame(ToByte(r.unitId), answer) + more) == Some(Reply(3 + |answer|, None, answer))
  {
    hide RtuFrame, DecodeRtuFrame, DeviceParseRead, DeviceAnswer, NextArrival, IsResponsePdu;
    var answer := DeviceAnswer(memory, r.unitId, r.requestPdu);
    FromToByte(r.unitId);
    AnswerShape(memory, r.unitId, r.requestPdu);
    DecodeEncodedRtu(ToByte(r.unitId), r.requestPdu);
    EncodedArrives(0, ToByte(r.unitId), answer, more);
  }

  lemma PollIsServiceable(s: Stack, i: nat)
    requires Sound(s) && Readable(s.link.e)
    requires i < |s.link.m.pending| && IsPoll(s.link.m.pending[i])
    ensures Serviceable(s.link.m.pending[i].requestPdu) && |s.link.m.pending[i].requestPdu| == 5
  {
    hide Balanced, Settled;
    var r := s.link.m.pending[i];
    assert Genuine(r, s.link.e.plans, s.c.correlationId);
    var plan := s.link.e.plans[r.correlationId % GENERATION_UNIT];
    PlansAreGood(s.link.e.targets, s.link.e.options);
    ReadRequestArrives(plan.registerType, plan.startAddress, plan.quantity);
    RegionRoundTrip(plan.registerType);
  }

  /** Over TCP, in every state a frame can meet: the frame of a pending poll, taken apart and
      answered by a device, comes back as the reply to exactly that poll, carrying the device's
      memory, whatever other requests are pending and whatever bytes follow. */
  lemma TcpWireIsHonest(s: Stack, i: nat, memory: Memory, more: seq<byte>)
    requires Sound(s) && AllRecent(s.link.m) && Readable(s.link.e)
    requires i < |s.link.m.pending| && IsPoll(s.link.m.pending[i])
    ensures var reply := DeviceOverTcp(memory, FrameFor(Tcp, s.link.m.pending[i]));
            && reply.Some?
            && var a := NextArrival(Tcp, reply.value + more);
               && a.Some? && a.value.size == |reply.value|
               && a.value.Reply? && MatchOf(s.link.m.pending, a.value.transactionId) == i
               && HonestArrival(memory, s, a.value)
  {
    hide Readable, Sound, MbapFrame, DeviceOverTcp, NextArrival, FrameFor;
    PollIsServiceable(s, i);
    TcpRoundTrip(memory, s.link.m.pending[i], more);
    OwnReplyFindsRequest(s, i);
  }

  lemma OwnReplyFindsRequest(s: Stack, i: nat)
    requires Sound(s) && AllRecent(s.link.m) && i < |s.link.m.pending|
    ensures FindTransaction(s.link.m.pending, s.link.m.pending[i].transactionId) == i
  {
    var m := s.link.m;
    assert Consistent(s.link, []);
    ReplyMatchesItsRequest(m, m.pending[i].serial, m.pending[i].transactionId);
    var j := FindTransaction(m.pending, m.pending[i].transactionId);
    assert m.pending[j].serial == m.pending[i].serial;
  }

  /** Over RTU the same holds for the oldest pending request. */
  lemma RtuWireIsHonest(s: Stack, memory: Memory, more: seq<byte>)
    requires Sound(s) && Readable(s.link.e) && s.link.m.pending != [] && IsPoll(s.link.m.pending[0])
    ensures var reply := DeviceOverRtu(memory, FrameFor(Rtu, s.link.m.pending[0]));
            && reply.Some?
            && var a := NextArrival(Rtu, reply.value + more);
               && a.Some? && a.value.size == |reply.value|
               && a.value.Reply? && MatchOf(s.link.m.pending, a.value.transactionId) == 0
               && HonestArrival(memory, s, a.value)
  {
    hide Readable, Sound, RtuFrame, DeviceOverRtu, NextArrival, FrameFor;
    PollIsServiceable(s, 0);
    RtuRoundTrip(memory, s.link.m.pending[0], more);
  }

  // ----- what delivering adds -----

  /** Transmissions and requests are added, never changed; requests added are numbered above
      all before. */
  predicate OnlyAdded(a: Manager, b: Manager) {
    && b.mode == a.mode && b.sent >= a.sent && a.wire <= b.wire
    && forall k :: 0 <= k < |b.pending| ==> b.pending[k] in a.pending || b.pending[k].serial > a.sent
  }

  lemma OnlyAddedTransitive(a: Manager, b: Manager, c: Manager)
    requires OnlyAdded(a, b) && OnlyAdded(b, c)
    ensures OnlyAdded(a, c)
  {
  }

  lemma {:induction false} PumpGrows(l: Link)
    ensures OnlyAdded(l.m, Pump(l).m)
    decreases |l.e.plans| - l.e.nextPlan
  {
    hide OnlyAdded;
    if CanIssue(l) {
      IssueGrows(l);
      PumpGrows(IssueNext(l));
      OnlyAddedTransitive(l.m, IssueNext(l).m, Pump(l).m);
    } else {
      SameManagerOnlyAdded(l.m);
    }
  }

  lemma SameManagerOnlyAdded(m: Manager)
    ensures OnlyAdded(m, m)
  {
  }

  lemma IssueGrows(l: Link)
    requires l.e.nextPlan < |l.e.plans|
    ensures OnlyAdded(l.m, IssueNext(l).m)
  {
    hide FrameFor, PlanPdu;
  }

  lemma ResponseGrows(l: Link, correlationId: nat, pdu: seq<byte>)
    ensures OnlyAdded(l.m, HandleResponse(l, correlationId, pdu).m)
  {
    hide OnlyAdded, Pump, UseReply;
    var index := PlanIndexOf(correlationId);
    PumpGrows(l.(e := Settle(UseReply(l.e, index, pdu), index)));
    SameManagerOnlyAdded(l.m);
  }

  lemma CompleteGrows(m: Manager, i: nat, pdu: seq<byte>)
    requires i < |m.pending|
    ensures OnlyAdded(m, Complete(m, i, pdu))
  {
    WithoutAt(m.pending, i);
  }

  lemma DeliverGrows(s: Stack, a: Arrival)
    ensures OnlyAdded(s.link.m, Deliver(s, a).link.m)
  {
    hide OnlyAdded, HandleResponse, Complete;
    SameManagerOnlyAdded(s.link.m);
    if a.Reply? {
      var i := MatchOf(s.link.m.pending, a.transactionId);
      if i < |s.link.m.pending| {
        var completed := Complete(s.link.m, i, a.pdu);
        CompleteGrows(s.link.m, i, a.pdu);
        ResponseGrows(s.link.(m := completed), s.link.m.pending[i].correlationId, a.pdu);
        OnlyAddedTransitive(s.link.m, completed, Deliver(s, a).link.m);
      }
    }
  }

  lemma {:induction false} ConsumeGrows(s: Stack)
    ensures OnlyAdded(s.link.m, Consume(s).link.m)
    decreases |s.link.m.receiveBuffer|
  {
    hide OnlyAdded, Deliver, NextArrival;
    var m := s.link.m;
    var next := NextArrival(m.mode, m.receiveBuffer);
    SameManagerOnlyAdded(m);
    if m.pending != [] && next.Some? {
      var taken := WithBuffer(s, m.receiveBuffer[next.value.size..]);
      BufferOnlyAdded(m, m.receiveBuffer[next.value.size..]);
      DeliverGrows(taken, next.value);
      ConsumeGrows(Deliver(taken, next.value));
      OnlyAddedTransitive(m, taken.link.m, Deliver(taken, next.value).link.m);
      OnlyAddedTransitive(m, Deliver(taken, next.value).link.m, Consume(s).link.m);
    }
  }

  lemma BufferOnlyAdded(m: Manager, buffer: seq<byte>)
    ensures OnlyAdded(m, m.(receiveBuffer := buffer))
  {
  }

  /** Delivering changes neither targets nor options. */
  lemma DeliverKeepsReadable(s: Stack, a: Arrival)
    requires Sound(s) && Readable(s.link.e)
    ensures Readable(Deliver(s, a).link.e)
  {
    hide HandleResponse, ControllerResponse, Complete, Plans, WithinProtocol, Placed, LinkTraced, Balanced, Settled;
    DeliverValid(s, a);
    if a.Reply? && MatchOf(s.link.m.pending, a.transactionId) < |s.link.m.pending| {
      var i := MatchOf(s.link.m.pending, a.transactionId);
      ResponseKeepsTargets(s.link.(m := Complete(s.link.m, i, a.pdu)), s.link.m.pending[i].correlationId, a.pdu);
    }
  }

  lemma ResponseKeepsTargets(l: Link, correlationId: nat, pdu: seq<byte>)
    ensures HandleResponse(l, correlationId, pdu).e.targets == l.e.targets
    ensures HandleResponse(l, correlationId, pdu).e.options == l.e.options
  {
    hide UseReply, Pump;
    var index := PlanIndexOf(correlationId);
    UseKeepsTargets(l.e, index, pdu);
    PumpKeepsConfiguration(l.(e := Settle(UseReply(l.e, index, pdu), index)));
  }

  lemma UseKeepsTargets(e: Engine, index: int, pdu: seq<byte>)
    ensures UseReply(e, index, pdu).targets == e.targets && UseReply(e, index, pdu).options == e.options
  {
    hide ApplySlices, ImmediateUpdates, DecodePlanResponse, FailedTargets;
  }

  // ----- TCP: answers to transmitted frames, in any order, any number of times -----

  /** A reply to the j-th transmission. */
  datatype TcpAnswer = TcpAnswer(j: nat, unitId: byte, pdu: seq<byte>)

  /** A device answers under the transaction id of the transmission. */
  function TcpReply(wire: seq<Transmission>, answer: TcpAnswer): seq<byte>
    requires answer.j < |wire|
  {
    MbapFrame(Truncate16(wire[answer.j].serial), answer.unitId, answer.pdu)
  }

  /** To a poll it is the device's answer to the transmitted frame, and to anything else any
      reply that fits a frame; the request is still numbered unambiguously when `limit`
      requests have been sent. */
  predicate Answers(memory: Memory, wire: seq<Transmission>, answer: TcpAnswer, limit: nat) {
    && answer.j < |wire| && |answer.pdu| < 0xFFFF && limit - wire[answer.j].serial < 0x1_0000
    && (wire[answer.j].correlationId >= GENERATION_UNIT ==>
          DeviceOverTcp(memory, wire[answer.j].frame) == Some(TcpReply(wire, answer)))
  }

  predicate AllAnswer(memory: Memory, wire: seq<Transmission>, answers: seq<TcpAnswer>, limit: nat) {
    forall k :: 0 <= k < |answers| ==> Answers(memory, wire, answers[k], limit)
  }

  predicate IntoWire(wire: seq<Transmission>, answers: seq<TcpAnswer>) {
    forall k :: 0 <= k < |answers| ==> answers[k].j < |wire|
  }

  function TcpReplies(wire: seq<Transmission>, answers: seq<TcpAnswer>): seq<byte>
    requires IntoWire(wire, answers)
  {
    if answers == [] then [] else TcpReply(wire, answers[0]) + TcpReplies(wire, answers[1..])
  }

  predicate RecentUntil(pending: seq<PendingRequest>, limit: nat) {
    forall i :: 0 <= i < |pending| ==> limit - pending[i].serial < 0x1_0000
  }

  lemma AnswersAreIntoWire(memory: Memory, wire: seq<Transmission>, answers: seq<TcpAnswer>, limit: nat)
    requires AllAnswer(memory, wire, answers, limit)
    ensures IntoWire(wire, answers)
  {
    hide DeviceOverTcp;
    forall k | 0 <= k < |answers|
      ensures answers[k].j < |wire|
    {
      assert Answers(memory, wire, answers[k], limit);
    }
  }

  lemma {:induction false} RepliesOfLongerWire(memory: Memory, wire: seq<Transmission>, longer: seq<Transmission>,
                                               answers: seq<TcpAnswer>, limit: nat)
    requires wire <= longer && AllAnswer(memory, wire, answers, limit)
    ensures AllAnswer(memory, longer, answers, limit) && IntoWire(wire, answers) && IntoWire(longer, answers)
    ensures TcpReplies(longer, answers) == TcpReplies(wire, answers)
  {
    hide DeviceOverTcp, MbapFrame;
    AnswersAreIntoWire(memory, wire, answers, limit);
    if answers != [] {
      assert Answers(memory, wire, answers[0], limit);
      assert AllAnswer(memory, wire, answers[1..], limit);
      RepliesOfLongerWire(memory, wire, longer, answers[1..], limit);
      assert forall k :: 0 < k < |answers| ==> answers[k] == answers[1..][k - 1];
    }
  }

  lemma SameMbapSamePdu(transactionId: u16, unitId: byte, pdu: seq<byte>, otherId: u16, otherUnit: byte, other: seq<byte>)
    requires |pdu| < 0xFFFF && |other| < 0xFFFF
    requires MbapFrame(transactionId, unitId, pdu) == MbapFrame(otherId, otherUnit, other)
    ensures pdu == other
  {
    hide MbapFrame, DecodeMbapFrame;
    DecodeEncodedMbap(transactionId, unitId, pdu, []);
    DecodeEncodedMbap(otherId, otherUnit, other, []);
  }

  /** If the transmitted request is what the reply is taken for, and it is a poll, then the
      reply is the device's answer to it. */
  lemma TransmissionAnswered(memory: Memory, s: Stack, answer: TcpAnswer, i: nat, limit: nat)
    requires Sound(s) && s.link.m.mode == Tcp && Readable(s.link.e) && Answers(memory, s.link.m.wire, answer, limit)
    requires i < |s.link.m.pending| && IsPoll(s.link.m.pending[i])
    requires s.link.m.wire[answer.j].serial == s.link.m.pending[i].serial
    ensures DeviceAnswers(memory, s.link.m.pending[i], answer.pdu)
  {
    hide Sound, Readable, FrameFor, MbapFrame, NextArrival, DeviceOverTcp;
    var r := s.link.m.pending[i];
    PollIsServiceable(s, i);
    TcpRoundTrip(memory, r, []);
    TransmissionOfPending(s, answer.j, i);
    AnswerShape(memory, r.unitId, r.requestPdu);
    SameMbapSamePdu(Truncate16(s.link.m.wire[answer.j].serial), answer.unitId, answer.pdu,
                    r.transactionId, ToByte(r.unitId), DeviceAnswer(memory, r.unitId, r.requestPdu));
  }

  lemma TransmissionOfPending(s: Stack, j: nat, i: nat)
    requires Sound(s) && j < |s.link.m.wire| && i < |s.link.m.pending|
    requires s.link.m.wire[j].serial == s.link.m.pending[i].serial
    ensures Carries(s.link.m.mode, s.link.m.wire[j], s.link.m.pending[i])
  {
    hide FrameFor;
    assert Consistent(s.link, []);
  }

  lemma SoundManager(s: Stack)
    requires Sound(s)
    ensures ManagerValid(s.link.m) && Numbered(s.link.m.pending, s.link.m.sent)
    ensures forall j :: 0 <= j < |s.link.m.wire| ==> 1 <= s.link.m.wire[j].serial <= s.link.m.sent
  {
    hide FrameFor;
    assert Consistent(s.link, []);
  }

  /** What arrives of a reply to a transmission. */
  function ArrivalOf(wire: seq<Transmission>, answer: TcpAnswer): Arrival
    requires answer.j < |wire|
  {
    Reply(7 + |answer.pdu|, Some(Truncate16(wire[answer.j].serial)), answer.pdu)
  }

  /** Whatever transmission is answered, the reply is honest. */
  lemma TcpReplyIsHonest(memory: Memory, s: Stack, answer: TcpAnswer, limit: nat)
    requires Sound(s) && s.link.m.mode == Tcp && Readable(s.link.e) && s.link.m.sent <= limit
    requires RecentUntil(s.link.m.pending, limit) && Answers(memory, s.link.m.wire, answer, limit)
    ensures HonestArrival(memory, s, ArrivalOf(s.link.m.wire, answer))
  {
    hide Sound, Readable, ManagerValid, DeviceOverTcp, MbapFrame, DeviceAnswers;
    SoundManager(s);
    var i := FindTransaction(s.link.m.pending, Truncate16(s.link.m.wire[answer.j].serial));
    if i < |s.link.m.pending| && IsPoll(s.link.m.pending[i]) {
      SameIdSameSerial(s.link.m.pending[i].serial, s.link.m.wire[answer.j].serial, limit);
      TransmissionAnswered(memory, s, answer, i, limit);
    }
  }

  lemma StillRecent(a: Manager, b: Manager, limit: nat)
    requires OnlyAdded(a, b) && RecentUntil(a.pending, limit) && a.pending != [] && Numbered(a.pending, a.sent)
    ensures RecentUntil(b.pending, limit)
  {
    assert limit - a.pending[0].serial < 0x1_0000;
  }

  /** The theorem over TCP: if the buffer holds replies to transmitted frames - to any of them,
      in any order, repeated, and followed by part of another - and those to polls are the
      devices' answers, then it is honest, as long as 65536 more requests have not been sent
      meanwhile. */
  lemma {:induction false} TcpBufferIsHonest(memory: Memory, s: Stack, answers: seq<TcpAnswer>, rest: seq<byte>, limit: nat)
    requires Sound(s) && s.link.m.mode == Tcp && Readable(s.link.e) && limit == Consume(s).link.m.sent
    requires AllAnswer(memory, s.link.m.wire, answers, limit) && RecentUntil(s.link.m.pending, limit)
    requires IntoWire(s.link.m.wire, answers)
    requires s.link.m.receiveBuffer == TcpReplies(s.link.m.wire, answers) + rest && NextArrival(Tcp, rest) == None
    ensures HonestBuffer(memory, s)
    decreases |answers|
  {
    hide Sound, Readable, NextArrival, HonestArrival, Deliver, AllAnswer, RecentUntil, Consume, MbapFrame, Answers;
    var m := s.link.m;
    if answers == [] {
      assert m.receiveBuffer == rest;
    } else if m.pending != [] {
      FirstAnswers(memory, m.wire, answers, limit);
      var reply, more := TcpReply(m.wire, answers[0]), TcpReplies(m.wire, answers[1..]) + rest;
      assert m.receiveBuffer == reply + more;
      var taken, a := WithBuffer(s, more), ArrivalOf(m.wire, answers[0]);
      EncodedArrives(Truncate16(m.wire[answers[0].j].serial), answers[0].unitId, answers[0].pdu, more);
      assert m.receiveBuffer[a.size..] == more;
      BufferSound(s, more);
      SentOnlyGrows(s);
      TcpReplyIsHonest(memory, taken, answers[0], limit);
      TcpRestIsHonest(memory, taken, a, answers[1..], rest, limit);
      ConsumeOne(s, a, more);
      TcpBufferIsHonest(memory, Deliver(taken, a), answers[1..], rest, limit);
    }
  }

  lemma FirstAnswers(memory: Memory, wire: seq<Transmission>, answers: seq<TcpAnswer>, limit: nat)
    requires answers != [] && AllAnswer(memory, wire, answers, limit)
    ensures Answers(memory, wire, answers[0], limit) && answers[0].j < |wire| && |answers[0].pdu| < 0xFFFF
    ensures AllAnswer(memory, wire, answers[1..], limit)
    ensures IntoWire(wire, answers) && IntoWire(wire, answers[1..])
  {
    hide DeviceOverTcp, MbapFrame;
    AnswersAreIntoWire(memory, wire, answers, limit);
  }

  lemma SentOnlyGrows(s: Stack)
    ensures s.link.m.sent <= Consume(s).link.m.sent
  {
    ConsumeGrows(s);
  }

  lemma ConsumeOne(s: Stack, a: Arrival, more: seq<byte>)
    requires s.link.m.pending != [] && NextArrival(s.link.m.mode, s.link.m.receiveBuffer) == Some(a)
    requires s.link.m.receiveBuffer[a.size..] == more
    ensures Consume(s) == Consume(Deliver(WithBuffer(s, more), a))
  {
  }

  /** What holds of the buffer before a frame is delivered holds of the rest afterwards. */
  lemma TcpRestIsHonest(memory: Memory, s: Stack, a: Arrival, answers: seq<TcpAnswer>, rest: seq<byte>, limit: nat)
    requires Sound(s) && s.link.m.mode == Tcp && Readable(s.link.e) && s.link.m.pending != []
    requires AllAnswer(memory, s.link.m.wire, answers, limit) && RecentUntil(s.link.m.pending, limit)
    requires IntoWire(s.link.m.wire, answers) && s.link.m.receiveBuffer == TcpReplies(s.link.m.wire, answers) + rest
    ensures var after := Deliver(s, a);
            && Sound(after) && after.link.m.mode == Tcp && Readable(after.link.e)
            && AllAnswer(memory, after.link.m.wire, answers, limit) && RecentUntil(after.link.m.pending, limit)
            && IntoWire(after.link.m.wire, answers)
            && after.link.m.receiveBuffer == TcpReplies(after.link.m.wire, answers) + rest
  {
    hide Sound, Readable, AllAnswer, RecentUntil;
    DeliverSound(s, a);
    DeliverKeepsReadable(s, a);
    DeliverGrows(s, a);
    SoundManager(s);
    StillRecent(s.link.m, Deliver(s, a).link.m, limit);
    RepliesOfLongerWire(memory, s.link.m.wire, Deliver(s, a).link.m.wire, answers, limit);
  }

  // ----- RTU: answers in turn -----

  /** The k-th reply is to the k-th oldest request: to a poll the device's answer to its frame,
      to anything else any response. */
  predicate InTurn(memory: Memory, pending: seq<PendingRequest>, units: seq<byte>, pdus: seq<seq<byte>>) {
    && |units| == |pdus| <= |pending|
    && forall k :: 0 <= k < |pdus| ==>
         && IsResponsePdu(pdus[k])
         && (IsPoll(pending[k]) ==> DeviceOverRtu(memory, FrameFor(Rtu, pending[k])) == Some(RtuFrame(units[k], pdus[k])))
  }

  lemma SameFrameSamePdu(unitId: byte, pdu: seq<byte>, otherUnit: byte, other: seq<byte>)
    requires RtuFrame(unitId, pdu) == RtuFrame(otherUnit, other)
    ensures pdu == other
  {
    hide RtuFrame, DecodeRtuFrame;
    DecodeEncodedRtu(unitId, pdu);
    DecodeEncodedRtu(otherUnit, other);
  }

  lemma OldestPollAnswered(memory: Memory, s: Stack, unitId: byte, pdu: seq<byte>)
    requires Sound(s) && Readable(s.link.e) && s.link.m.pending != []
    requires IsPoll(s.link.m.pending[0]) ==>
               DeviceOverRtu(memory, FrameFor(Rtu, s.link.m.pending[0])) == Some(RtuFrame(unitId, pdu))
    ensures HonestArrival(memory, s, Reply(3 + |pdu|, None, pdu))
  {
    hide Sound, Readable, FrameFor, RtuFrame, DeviceOverRtu, NextArrival;
    var r := s.link.m.pending[0];
    if IsPoll(r) {
      PollIsServiceable(s, 0);
      RtuRoundTrip(memory, r, []);
      SameFrameSamePdu(unitId, pdu, ToByte(r.unitId), DeviceAnswer(memory, r.unitId, r.requestPdu));
    }
  }

  /** The theorem over RTU: if the buffer holds replies in the order of the pending requests,
      followed by part of another, and those to polls are the devices' answers, then it is
      honest. */
  lemma {:induction false} RtuBufferIsHonest(memory: Memory, s: Stack, units: seq<byte>, pdus: seq<seq<byte>>,
                                             rest: seq<byte>)
    requires Sound(s) && s.link.m.mode == Rtu && Readable(s.link.e) && InTurn(memory, s.link.m.pending, units, pdus)
    requires s.link.m.receiveBuffer == Concat(RtuFrames(units, pdus)) + rest && NextArrival(Rtu, rest) == None
    ensures HonestBuffer(memory, s)
    decreases |pdus|
  {
    hide Sound, Readable, DeviceOverRtu, NextArrival, HonestArrival, Answer, FrameFor, RtuFrame, RtuFrames, IsResponsePdu;
    if pdus == [] {
      assert RtuFrames(units, pdus) == [];
      assert s.link.m.receiveBuffer == rest;
    } else {
      RestOfFrames(units, pdus);
      var frame, more := RtuFrame(units[0], pdus[0]), Concat(RtuFrames(units[1..], pdus[1..])) + rest;
      assert s.link.m.receiveBuffer == frame + more;
      EncodedArrives(0, units[0], pdus[0], more);
      FrameSize(units[0], pdus[0]);
      assert (frame + more)[3 + |pdus[0]|..] == more;
      BufferSound(s, more);
      var taken := WithBuffer(s, more);
      OldestPollAnswered(memory, taken, units[0], pdus[0]);
      RtuRestIsHonest(memory, taken, units, pdus);
      RtuBufferIsHonest(memory, Deliver(taken, Reply(3 + |pdus[0]|, None, pdus[0])), units[1..], pdus[1..], rest);
    }
  }

  lemma FrameSize(unitId: byte, pdu: seq<byte>)
    ensures |RtuFrame(unitId, pdu)| == 3 + |pdu|
  {
  }

  lemma RtuRestIsHonest(memory: Memory, s: Stack, units: seq<byte>, pdus: seq<seq<byte>>)
    requires Sound(s) && s.link.m.mode == Rtu && Readable(s.link.e)
    requires InTurn(memory, s.link.m.pending, units, pdus) && pdus != []
    ensures var after := Deliver(s, Reply(3 + |pdus[0]|, None, pdus[0]));
            && Sound(after) && after.link.m.mode == Rtu && Readable(after.link.e)
            && InTurn(memory, after.link.m.pending, units[1..], pdus[1..])
  {
    hide Readable, DeviceOverRtu, Answer, FrameFor, RtuFrame, IsResponsePdu, StackValid, LinkTraced;
    var a := Reply(3 + |pdus[0]|, None, pdus[0]);
    assert IsResponsePdu(pdus[0]);
    OneFrame(s, units[0], pdus[0]);
    DeliverSound(s, a);
    DeliverKeepsReadable(s, a);
    var after := Answer(s, 0, pdus[0]).link.m.pending;
    assert forall k :: 0 <= k < |pdus| - 1 ==> after[k] == s.link.m.pending[k + 1];
  }

  // ----- cycles against devices -----

  predicate TcpStream(memory: Memory, s: Stack, answers: seq<TcpAnswer>, rest: seq<byte>) {
    && AllAnswer(memory, s.link.m.wire, answers, Consume(s).link.m.sent)
    && RecentUntil(s.link.m.pending, Consume(s).link.m.sent)
    && IntoWire(s.link.m.wire, answers)
    && s.link.m.receiveBuffer == TcpReplies(s.link.m.wire, answers) + rest && NextArrival(Tcp, rest) == None
  }

  predicate RtuStream(memory: Memory, s: Stack, units: seq<byte>, pdus: seq<seq<byte>>, rest: seq<byte>) {
    && InTurn(memory, s.link.m.pending, units, pdus)
    && s.link.m.receiveBuffer == Concat(RtuFrames(units, pdus)) + rest && NextArrival(Rtu, rest) == None
  }

  /** What is buffered came from devices that answer transmitted frames. */
  ghost predicate FromDevices(memory: Memory, s: Stack) {
    if s.link.m.mode == Tcp then exists answers: seq<TcpAnswer>, rest: seq<byte> :: TcpStream(memory, s, answers, rest)
    else exists units: seq<byte>, pdus: seq<seq<byte>>, rest: seq<byte> :: RtuStream(memory, s, units, pdus, rest)
  }

  /** Events inside a cycle, as `Undisturbed`, with data that devices sent. */
  ghost predicate Serviced(memory: Memory, s: Stack, event: Event) {
    if event.DataArrives? then
      s.link.m.pending != [] ==> FromDevices(memory, WithBuffer(s, s.link.m.receiveBuffer + event.data))
    else Undisturbed(memory, s, event)
  }

  lemma DevicesAreHonest(memory: Memory, s: Stack)
    requires Sound(s) && Readable(s.link.e) && FromDevices(memory, s)
    ensures HonestBuffer(memory, s)
  {
    hide Sound, Readable, HonestBuffer, NextArrival, TcpReplies, AllAnswer, RecentUntil, Consume, InTurn, RtuFrames;
    if s.link.m.mode == Tcp {
      var answers: seq<TcpAnswer>, rest: seq<byte> :| TcpStream(memory, s, answers, rest);
      TcpBufferIsHonest(memory, s, answers, rest, Consume(s).link.m.sent);
    } else {
      var units: seq<byte>, pdus: seq<seq<byte>>, rest: seq<byte> :| RtuStream(memory, s, units, pdus, rest);
      RtuBufferIsHonest(memory, s, units, pdus, rest);
    }
  }

  /** Devices that answer transmitted frames from their memory disturb no cycle. */
  lemma ServicedIsUndisturbed(memory: Memory, s: Stack, event: Event)
    requires Sound(s) && Readable(s.link.e) && Serviced(memory, s, event)
    ensures Undisturbed(memory, s, event)
  {
    hide Sound, Readable, FromDevices;
    if event.DataArrives? && s.link.m.pending != [] {
      BufferSound(s, s.link.m.receiveBuffer + event.data);
      DevicesAreHonest(memory, WithBuffer(s, s.link.m.receiveBuffer + event.data));
    }
  }

  /** The theorem from wire to cache: take any stretch of any run that begins with a new cycle,
      in which what arrives are answers of devices to transmitted frames and no poll is given
      up. When that cycle has completed, every target's cache is the devices' memory over the
      target's range. */
  lemma ServicedCycleReadsMemory(states: seq<Stack>, events: seq<Event>, j: nat, k: nat, memory: Memory, index: nat)
    requires IsRun(states, events) && j <= k < |states|
    requires states[j].link.e.record.settled == []
    requires Placed(states[j].link.e.targets) && WithinProtocol(states[j].link.e.options)
    requires forall i :: j <= i < k ==> Serviced(memory, states[i], events[i])
    requires states[k].link.e.intervalArmed && index < |states[k].link.e.targets|
    ensures states[k].link.e.targets == states[j].link.e.targets
    ensures index < |states[k].link.e.caches|
    ensures HoldsMemory(memory, states[k].link.e.targets[index], states[k].link.e.caches[index])
  {
    hide Serviced, Undisturbed, Sound, HoldsMemory, Placed, WithinProtocol, Configured, Step;
    RunsAreTraced(states, events, j);
    for i := j to k
      invariant states[i].link.e.targets == states[j].link.e.targets
      invariant states[i].link.e.options == states[j].link.e.options
      invariant forall n :: j <= n < i ==> Undisturbed(memory, states[n], events[n])
    {
      assert Follows(states[i], events[i], states[i + 1]);
      RunsAreTraced(states, events, i);
      SoundIsConfigured(states[i]);
      ServicedIsUndisturbed(memory, states[i], events[i]);
      UndisturbedKeepsTargets(memory, states[i], events[i]);
    }
    CompletedCycleReadsMemory(states, events, j, k, memory, index);
  }

  lemma SoundIsConfigured(s: Stack)
    requires Sound(s)
    ensures Configured(s.link.e)
  {
  }

  lemma UndisturbedKeepsTargets(memory: Memory, s: Stack, event: Event)
    requires Shaped(s.link.e) && Allowed(s, event) && Undisturbed(memory, s, event)
    ensures Step(s, event).link.e.targets == s.link.e.targets && Step(s, event).link.e.options == s.link.e.options
  {
    hide HonestBuffer, Consume, FailAll, Sweep, AfterSweep;
    match event
    case DataArrives(data) =>
      if s.link.m.pending != [] {
        ConsumeKeepsTargets(WithBuffer(s, s.link.m.receiveBuffer + data));
      }
    case DeadlinesPass(expired) =>
      FailuresKeepTargets(s.(link := s.link.(m := AfterSweep(s.link.m, expired))),
                          Sweep(s.link.m.pending, expired, s.link.m.retryCount).exhausted);
    case FlushTimeout =>
    case SendOneShot(_) =>
  }

  lemma {:induction false} ConsumeKeepsTargets(s: Stack)
    ensures Consume(s).link.e.targets == s.link.e.targets && Consume(s).link.e.options == s.link.e.options
    decreases |s.link.m.receiveBuffer|
  {
    hide HandleResponse, NextArrival, Complete, ControllerResponse;
    var m := s.link.m;
    var next := NextArrival(m.mode, m.receiveBuffer);
    if m.pending != [] && next.Some? {
      var taken := WithBuffer(s, m.receiveBuffer[next.value.size..]);
      if next.value.Reply? && MatchOf(m.pending, next.value.transactionId) < |m.pending| {
        var i := MatchOf(m.pending, next.value.transactionId);
        ResponseKeepsTargets(taken.link.(m := Complete(taken.link.m, i, next.value.pdu)), m.pending[i].correlationId,
                             next.value.pdu);
      }
      ConsumeKeepsTargets(Deliver(taken, next.value));
    }
  }

  lemma {:induction false} FailuresKeepTargets(s: Stack, doomed: seq<PendingRequest>)
    ensures FailAll(s, doomed).link.e.targets == s.link.e.targets && FailAll(s, doomed).link.e.options == s.link.e.options
    decreases |doomed|
  {
    hide Pump;
    if doomed != [] {
      var l, index := s.link, PlanIndexOf(doomed[0].correlationId);
      var covered := if 0 <= index < |l.e.plans| then l.e.plans[index].covered else [];
      PumpKeepsConfiguration(l.(e := Settle(ReportFailure(l.e, covered), index)));
      FailuresKeepTargets(Fail(s, doomed[0].correlationId), doomed[1..]);
    }
  }
}
