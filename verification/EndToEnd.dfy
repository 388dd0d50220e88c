/** A whole cycle through all layers: against devices that answer with their memory, a cycle
    that completes leaves every target with the device's memory, however replies are cut up,
    reordered, repeated or delayed, and however often requests are sent again. */
module EndToEnd {
  import opened Numbers
  import opened RegisterTypes
  import opened ReadCoalescer
  import opened PlannerCoverage
  import opened PduCodec
  import Decoding
  import opened TcpFramer
  import opened RtuFramer
  import opened Caches
  import opened CoalescedPolling
  import opened Transactions
  import opened Polling
  import opened OneShots
  import opened PollStack
  import opened Accounting
  import opened StackInvariants
  import opened Provenance
  import opened Isolation

  // ----- honest devices -----

  predicate DeviceAnswers(memory: Memory, r: PendingRequest, pdu: seq<byte>) {
    && Serviceable(r.requestPdu)
    && pdu == DeviceAnswer(memory, r.unitId, r.requestPdu)
  }

  /** If the arrival is taken for the reply to a poll, it is the device's answer to it. */
  predicate HonestArrival(memory: Memory, s: Stack, a: Arrival) {
    a.Reply? ==>
      var i := MatchOf(s.link.m.pending, a.transactionId);
      i < |s.link.m.pending| && IsPoll(s.link.m.pending[i]) ==> DeviceAnswers(memory, s.link.m.pending[i], a.pdu)
  }

  predicate HonestBuffer(memory: Memory, s: Stack)
    decreases |s.link.m.receiveBuffer|
  {
    var m := s.link.m;
    var next := NextArrival(m.mode, m.receiveBuffer);
    m.pending != [] && next.Some? ==>
      var taken := WithBuffer(s, m.receiveBuffer[next.value.size..]);
      HonestArrival(memory, taken, next.value) && HonestBuffer(memory, Deliver(taken, next.value))
  }

  /** Events inside a cycle: honest data, timeouts that at most send polls again, flushes,
      one-shots. */
  predicate Undisturbed(memory: Memory, s: Stack, event: Event) {
    match event
    case DataArrives(data) => HonestBuffer(memory, WithBuffer(s, s.link.m.receiveBuffer + data))
    case DeadlinesPass(expired) => OnlyOneShots(Sweep(s.link.m.pending, expired, s.link.m.retryCount).exhausted)
    case FlushTimeout => true
    case SendOneShot(_) => true
    case _ => false
  }

  // ----- what a settled plan leaves in the caches -----

  predicate CellHolds(memory: Memory, e: Engine, index: nat, offset: nat)
    requires CachesFit(e.targets, e.caches) && index < |e.targets| && offset < e.targets[index].quantity
  {
    CellOf(e.targets[index], e.caches[index], offset) == MemoryCell(memory, e.targets[index], offset)
  }

  ghost predicate PlanHolds(memory: Memory, e: Engine, plan: ReadRequestPlan)
    requires CachesFit(e.targets, e.caches)
  {
    forall index: nat, offset: nat ::
      index < |e.targets| && offset < e.targets[index].quantity && CarriersInPlan(plan.covered, index, offset) > 0 ==>
        CellHolds(memory, e, index, offset)
  }

  /** Every plan settled in this cycle has left the memory it covers. */
  ghost predicate CycleHolds(memory: Memory, e: Engine)
    requires CachesFit(e.targets, e.caches)
  {
    forall k :: 0 <= k < |e.record.settled| && e.record.settled[k] < |e.plans| ==>
      PlanHolds(memory, e, e.plans[e.record.settled[k]])
  }

  predicate Readable(e: Engine) {
    Configured(e) && Placed(e.targets) && WithinProtocol(e.options)
  }

  predicate SameConfiguration(a: Engine, b: Engine) {
    b.targets == a.targets && b.plans == a.plans && b.options == a.options
  }

  ghost predicate Progressed(memory: Memory, a: Engine, b: Engine) {
    SameConfiguration(a, b) && Readable(b) && CycleHolds(memory, b)
  }

  lemma HoldsAfterStore(memory: Memory, e: Engine, plan: ReadRequestPlan, other: ReadRequestPlan)
    requires Readable(e) && GoodSlices(e.targets, plan, plan.covered)
    requires other == plan || PlanHolds(memory, e, other)
    ensures CachesFit(e.targets, StoreValues(e, plan.covered, MemoryValues(memory, plan)).caches)
    ensures PlanHolds(memory, StoreValues(e, plan.covered, MemoryValues(memory, plan)), other)
  {
    var after := StoreValues(e, plan.covered, MemoryValues(memory, plan));
    ApplySlicesFit(e.targets, e.caches, plan.covered, MemoryValues(memory, plan));
    forall index: nat, offset: nat |
      index < |e.targets| && offset < e.targets[index].quantity && CarriersInPlan(other.covered, index, offset) > 0
      ensures CellHolds(memory, after, index, offset)
    {
      SlicesCell(memory, e.targets, e.caches, plan, plan.covered, index, offset);
      assert other != plan ==> CellHolds(memory, e, index, offset);
    }
  }

  lemma CycleHoldsAfterStore(memory: Memory, e: Engine, p: nat)
    requires Readable(e) && CycleHolds(memory, e) && p < |e.plans| && GoodSlices(e.targets, e.plans[p], e.plans[p].covered)
    ensures var stored := StoreValues(e, e.plans[p].covered, MemoryValues(memory, e.plans[p]));
            CachesFit(e.targets, stored.caches) && CycleHolds(memory, Settle(stored, p))
  {
    var stored := StoreValues(e, e.plans[p].covered, MemoryValues(memory, e.plans[p]));
    HoldsAfterStore(memory, e, e.plans[p], e.plans[p]);
    var settled := e.record.settled + [p];
    forall k | 0 <= k < |settled| && settled[k] < |e.plans|
      ensures PlanHolds(memory, stored, e.plans[settled[k]])
    {
      HoldsAfterStore(memory, e, e.plans[p], e.plans[settled[k]]);
    }
    forall k | 0 <= k < |settled| && settled[k] < |e.plans|
      ensures PlanHolds(memory, Settle(stored, p), e.plans[settled[k]])
    {
      SamePlanHolds(memory, stored, Settle(stored, p), e.plans[settled[k]]);
    }
  }

  lemma SamePlanHolds(memory: Memory, a: Engine, b: Engine, plan: ReadRequestPlan)
    requires CachesFit(a.targets, a.caches) && PlanHolds(memory, a, plan)
    requires b.targets == a.targets && b.caches == a.caches
    ensures PlanHolds(memory, b, plan)
  {
    forall index: nat, offset: nat |
      index < |b.targets| && offset < b.targets[index].quantity && CarriersInPlan(plan.covered, index, offset) > 0
      ensures CellHolds(memory, b, index, offset)
    {
      assert CellHolds(memory, a, index, offset);
    }
  }

  lemma SameCycleHolds(memory: Memory, a: Engine, b: Engine)
    requires CachesFit(a.targets, a.caches) && CycleHolds(memory, a)
    requires b.targets == a.targets && b.plans == a.plans && b.caches == a.caches && b.record.settled == a.record.settled
    ensures CycleHolds(memory, b)
  {
    forall k | 0 <= k < |b.record.settled| && b.record.settled[k] < |b.plans|
      ensures PlanHolds(memory, b, b.plans[b.record.settled[k]])
    {
      SamePlanHolds(memory, a, b, b.plans[b.record.settled[k]]);
    }
  }

  lemma SettlingKeepsRecord(l: Link, i: nat)
    ensures var settled := NoteRequestSettled(l, i).e;
            && SameConfiguration(l.e, settled)
            && settled.caches == l.e.caches && settled.record.settled == Settle(l.e, i).record.settled
  {
    PumpKeepsConfiguration(l.(e := Settle(l.e, i)));
  }

  /** A device's answer, once decoded and scattered, is memory. */
  lemma HonestReply(memory: Memory, s: Stack, i: nat, pdu: seq<byte>)
    requires StackValid(s) && LinkTraced(s.link, s.c.correlationId) && i < |s.link.m.pending|
    requires Readable(s.link.e) && CycleHolds(memory, s.link.e)
    requires IsPoll(s.link.m.pending[i]) && DeviceAnswers(memory, s.link.m.pending[i], pdu)
    ensures Progressed(memory, s.link.e, Answer(s, i, pdu).link.e)
  {
    var l, r := s.link, s.link.m.pending[i];
    PollIsCurrent(l, i);
    var p := r.correlationId % GENERATION_UNIT;
    var plan := l.e.plans[p];
    assert Genuine(r, l.e.plans, s.c.correlationId);
    PlansAreGood(l.e.targets, l.e.options);
    PlanAnswered(memory, plan);
    var stored := StoreValues(l.e, plan.covered, MemoryValues(memory, plan));
    assert ApplyPlanResponse(l.e, plan, pdu) == stored;
    CycleHoldsAfterStore(memory, l.e, p);
    SettlingKeepsRecord(Link(Complete(l.m, i, pdu), stored), p);
    var after := NoteRequestSettled(Link(Complete(l.m, i, pdu), stored), p).e;
    SameCycleHolds(memory, Settle(stored, p), after);
    assert Answer(s, i, pdu).link.e == after;
  }

  // ----- every event of the cycle -----

  lemma DeliverProgresses(memory: Memory, s: Stack, a: Arrival)
    requires StackValid(s) && LinkTraced(s.link, s.c.correlationId)
    requires Readable(s.link.e) && CycleHolds(memory, s.link.e) && HonestArrival(memory, s, a)
    ensures Progressed(memory, s.link.e, Deliver(s, a).link.e)
  {
    if a.Reply? {
      var i := MatchOf(s.link.m.pending, a.transactionId);
      if i < |s.link.m.pending| {
        if IsPoll(s.link.m.pending[i]) {
          HonestReply(memory, s, i, a.pdu);
        } else {
          AnswerOneShot(s, i, a.pdu);
        }
      }
    }
  }

  lemma {:induction false} ConsumeProgresses(memory: Memory, s: Stack)
    requires StackValid(s) && LinkTraced(s.link, s.c.correlationId)
    requires Readable(s.link.e) && CycleHolds(memory, s.link.e) && HonestBuffer(memory, s)
    ensures Progressed(memory, s.link.e, Consume(s).link.e)
    decreases |s.link.m.receiveBuffer|
  {
    var m := s.link.m;
    var next := NextArrival(m.mode, m.receiveBuffer);
    if m.pending != [] && next.Some? {
      var taken := WithBuffer(s, m.receiveBuffer[next.value.size..]);
      WithBufferValid(s, m.receiveBuffer[next.value.size..]);
      DeliverProgresses(memory, taken, next.value);
      DeliverValid(taken, next.value);
      DeliverTraced(taken, next.value);
      ConsumeProgresses(memory, Deliver(taken, next.value));
    }
  }

  lemma {:induction false} OneShotFailuresLeavePolling(s: Stack, doomed: seq<PendingRequest>)
    requires OnlyOneShots(doomed) && (s.link.e.running ==> s.link.e.generation > 0)
    ensures FailAll(s, doomed).link == s.link
    decreases |doomed|
  {
    if doomed != [] {
      ForeignIdsIgnored(s.link, doomed[0].correlationId, []);
      OneShotFailuresLeavePolling(Fail(s, doomed[0].correlationId), doomed[1..]);
    }
  }

  lemma {:induction false} CellsSurviveFlush(memory: Memory, e: Engine)
    requires Readable(e) && CycleHolds(memory, e)
    ensures Progressed(memory, e, Flush(e))
  {
    forall k | 0 <= k < |e.record.settled| && e.record.settled[k] < |e.plans|
      ensures PlanHolds(memory, Flush(e), e.plans[e.record.settled[k]])
    {
      var plan := e.plans[e.record.settled[k]];
      assert PlanHolds(memory, e, plan);
      forall index: nat, offset: nat |
        index < |e.targets| && offset < e.targets[index].quantity && CarriersInPlan(plan.covered, index, offset) > 0
        ensures CellHolds(memory, Flush(e), index, offset)
      {
        assert CellHolds(memory, e, index, offset);
      }
    }
  }

  lemma EventProgresses(memory: Memory, s: Stack, event: Event)
    requires StackValid(s) && LinkTraced(s.link, s.c.correlationId) && Allowed(s, event)
    requires Readable(s.link.e) && CycleHolds(memory, s.link.e) && Undisturbed(memory, s, event)
    ensures Progressed(memory, s.link.e, Step(s, event).link.e)
  {
    match event
    case DataArrives(data) =>
      if s.link.m.pending != [] {
        WithBufferValid(s, s.link.m.receiveBuffer + data);
        ConsumeProgresses(memory, WithBuffer(s, s.link.m.receiveBuffer + data));
      }
    case DeadlinesPass(expired) =>
      OneShotFailuresLeavePolling(s.(link := s.link.(m := AfterSweep(s.link.m, expired))),
                                  Sweep(s.link.m.pending, expired, s.link.m.retryCount).exhausted);
    case FlushTimeout => CellsSurviveFlush(memory, s.link.e);
    case SendOneShot(_) =>
  }

  // ----- the cycle -----

  lemma CompletedCycleSettledAll(l: Link, p: nat)
    requires Consistent(l, []) && l.e.intervalArmed && p < |l.e.plans|
    ensures exists k :: 0 <= k < |l.e.record.settled| && l.e.record.settled[k] == p
  {
    var progress := ProgressOf(l.e);
    assert PlanAccounted(l.m.pending, [], progress, p);
    SumsOfPolls(l.m.pending, l.e.generation, p);
    CountOfPresent(l.e.record.settled, p);
  }

  lemma CompletedCycleHolds(memory: Memory, l: Link, index: nat)
    requires Consistent(l, []) && l.e.intervalArmed && Readable(l.e) && CycleHolds(memory, l.e) && index < |l.e.targets|
    ensures HoldsMemory(memory, l.e.targets[index], l.e.caches[index])
  {
    var e := l.e;
    forall offset: nat | offset < e.targets[index].quantity
      ensures CellOf(e.targets[index], e.caches[index], offset) == MemoryCell(memory, e.targets[index], offset)
    {
      ExactCoverage(e.targets, e.options, index, offset);
      var p := SomePlanCarries(e.plans, index, offset);
      CompletedCycleSettledAll(l, p);
      var k :| 0 <= k < |e.record.settled| && e.record.settled[k] == p;
      assert PlanHolds(memory, e, e.plans[p]);
      assert CellHolds(memory, e, index, offset);
    }
    CellsAreMemory(memory, e.targets[index], e.caches[index]);
  }

  /** The theorem: take any stretch of any run that begins with a new cycle, in which the
      devices answer polls with their memory and no poll is given up. When that cycle has
      completed, every target's cache is the device's memory over the target's range. */
  lemma CompletedCycleReadsMemory(states: seq<Stack>, events: seq<Event>, j: nat, k: nat, memory: Memory, index: nat)
    requires IsRun(states, events) && j <= k < |states|
    requires states[j].link.e.record.settled == []
    requires Placed(states[j].link.e.targets) && WithinProtocol(states[j].link.e.options)
    requires forall i :: j <= i < k ==> Undisturbed(memory, states[i], events[i])
    requires states[k].link.e.intervalArmed && index < |states[k].link.e.targets|
    ensures states[k].link.e.targets == states[j].link.e.targets
    ensures index < |states[k].link.e.caches|
    ensures HoldsMemory(memory, states[k].link.e.targets[index], states[k].link.e.caches[index])
  {
    RunsAreTraced(states, events, j);
    for i := j to k
      invariant StackValid(states[i]) && LinkTraced(states[i].link, states[i].c.correlationId)
      invariant Progressed(memory, states[j].link.e, states[i].link.e)
    {
      assert Follows(states[i], events[i], states[i + 1]);
      EventProgresses(memory, states[i], events[i]);
      RunsAreTraced(states, events, i + 1);
    }
    CompletedCycleHolds(memory, states[k].link, index);
  }

  // ----- one-shots -----

  function Latest(s: Stack): nat
    requires s.link.m.pending != []
  {
    |s.link.m.pending| - 1
  }

  /** Sending a one-shot and answering it: the controller interprets the reply as what it
      has just asked for, and nothing else is left behind. */
  lemma OneShotAnswered(s: Stack, request: Request, pdu: seq<byte>)
    requires (s.link.e.running ==> s.link.e.generation > 0) && s.c.correlationId + 1 < GENERATION_UNIT
    ensures var asked := OneShot(s, request);
            var r := asked.link.m.pending[Latest(asked)];
            var answered := Answer(asked, Latest(asked), pdu);
            && r.requestPdu == RequestPdu(request) && r.unitId == UnitByte(s.c)
            && answered.link.e == s.link.e && answered.link.m.pending == s.link.m.pending
            && answered.c.results == s.c.results + ResultOf(Remember(s.c, request), pdu)
  {
    hide RequestPdu, ResultOf, FrameFor;
    var asked := OneShot(s, request);
    var r := NewRequest(s.link.m, UnitByte(s.c), RequestPdu(request), s.c.correlationId + 1);
    assert asked.link.m.pending == s.link.m.pending + [r];
    assert Without(asked.link.m.pending, Latest(asked)) == s.link.m.pending;
    AnswerOneShot(asked, Latest(asked), pdu);
    LatestOneShotIsAnswered(asked, Latest(asked), pdu);
  }

  /** A single read, answered by the device, reports the device's memory at the address
      asked for, and polling does not notice. */
  lemma SingleReadReportsMemory(memory: Memory, s: Stack, t: RegisterType, start: u16, quantity: u16)
    requires s.link.e.running ==> s.link.e.generation > 0
    requires s.c.correlationId + 1 < GENERATION_UNIT && quantity <= MaxQuantity(t)
    ensures var request := ReadRegisters(t, start, quantity);
            var asked := OneShot(s, request);
            && Serviceable(RequestPdu(request))
            && var answered := Answer(asked, Latest(asked), DeviceAnswer(memory, UnitByte(s.c), RequestPdu(request)));
               && answered.link.e == s.link.e && answered.link.m.pending == s.link.m.pending
               && answered.c.results == s.c.results
                  + [if IsBitType(t) then BitsRead(start, FlagsIn(memory, UnitByte(s.c), t, start, quantity))
                     else RegistersRead(start, WordsIn(memory, UnitByte(s.c), t, start, quantity))]
  {
    hide OneShot, Answer, DeviceParseRead, DeviceAnswer, EncodeReadRequest, DecodedBits, DecodedRegisters;
    var request := ReadRegisters(t, start, quantity);
    assert RequestPdu(request) == EncodeReadRequest(ReadFunctionCodeFor(t), start, quantity);
    ReadAnswered(memory, UnitByte(s.c), t, start, quantity);
    OneShotAnswered(s, request, DeviceAnswer(memory, UnitByte(s.c), RequestPdu(request)));
  }

  lemma ReadAnswered(memory: Memory, unitId: u8, t: RegisterType, start: u16, quantity: u16)
    requires quantity <= MaxQuantity(t)
    ensures var pdu := EncodeReadRequest(ReadFunctionCodeFor(t), start, quantity);
            && Serviceable(pdu)
            && var answer := DeviceAnswer(memory, unitId, pdu);
               if IsBitType(t) then
                 DecodedBits(answer, ReadFunctionCodeFor(t), quantity) == Ok(FlagsIn(memory, unitId, t, start, quantity))
               else DecodedRegisters(answer, ReadFunctionCodeFor(t)) == Ok(WordsIn(memory, unitId, t, start, quantity))
  {
    ReadRequestArrives(t, start, quantity);
    RegionRoundTrip(t);
    if IsBitType(t) {
      BitsRoundTrip(ReadFunctionCodeFor(t), FlagsIn(memory, unitId, t, start, quantity));
    } else {
      RegistersRoundTrip(ReadFunctionCodeFor(t), WordsIn(memory, unitId, t, start, quantity));
    }
  }

  /** A single write, echoed by the device, reports the address and value written. */
  lemma SingleWriteReportsEcho(s: Stack, address: u16, value: u16)
    requires (s.link.e.running ==> s.link.e.generation > 0) && s.c.correlationId + 1 < GENERATION_UNIT
    ensures var request := WriteSingleRegister(address, value);
            var asked := OneShot(s, request);
            var answered := Answer(asked, Latest(asked), RequestPdu(request));
            && answered.link.e == s.link.e && answered.link.m.pending == s.link.m.pending
            && answered.c.results == s.c.results + [RegisterWritten(address, value)]
  {
    hide OneShot, Answer, ResultOf, RequestPdu, Remember;
    var request := WriteSingleRegister(address, value);
    EchoIsResult(s.c, address, value);
    OneShotAnswered(s, request, RequestPdu(request));
  }

  lemma EchoIsResult(c: Controller, address: u16, value: u16)
    ensures var request := WriteSingleRegister(address, value);
            ResultOf(Remember(c, request), RequestPdu(request)) == [RegisterWritten(address, value)]
  {
    hide DecodedWrite, DecodedBits, DecodedRegisters, RequestPdu, ReadFunctionCodeFor;
    RegisterEchoDecodes(address, value);
  }

  /** A switched coil, echoed by the device, reports the address and the state. */
  lemma SingleCoilWriteReportsEcho(s: Stack, address: u16, on: bool)
    requires (s.link.e.running ==> s.link.e.generation > 0) && s.c.correlationId + 1 < GENERATION_UNIT
    ensures var request := WriteSingleCoil(address, on);
            var asked := OneShot(s, request);
            var answered := Answer(asked, Latest(asked), RequestPdu(request));
            && answered.link.e == s.link.e && answered.link.m.pending == s.link.m.pending
            && answered.c.results == s.c.results + [CoilWritten(address, on)]
  {
    hide OneShot, Answer, ResultOf, RequestPdu, Remember;
    var request := WriteSingleCoil(address, on);
    CoilEchoIsResult(s.c, address, on);
    OneShotAnswered(s, request, RequestPdu(request));
  }

  lemma CoilEchoIsResult(c: Controller, address: u16, on: bool)
    ensures var request := WriteSingleCoil(address, on);
            ResultOf(Remember(c, request), RequestPdu(request)) == [CoilWritten(address, on)]
  {
    hide DecodedWrite, DecodedBits, DecodedRegisters, RequestPdu, ReadFunctionCodeFor;
    CoilEchoDecodes(address, on);
  }

  lemma RegisterEchoDecodes(address: u16, value: u16)
    ensures DecodedWrite(RequestPdu(WriteSingleRegister(address, value)), WRITE_SINGLE_REGISTER)
         == Ok(WriteEcho(address, value))
  {
    hide DecodedWrite, EncodeWriteSingleRegisterRequest, DeviceWriteResponse, IsWriteCode, IsResponsePdu, BigEndian16, ToByte;
    WriteCodes();
    WriteRoundTrip(WRITE_SINGLE_REGISTER, address, value, false);
  }

  lemma CoilEchoDecodes(address: u16, on: bool)
    ensures DecodedWrite(RequestPdu(WriteSingleCoil(address, on)), WRITE_SINGLE_COIL)
         == Ok(WriteEcho(address, if on then 0xFF00 else 0))
  {
    hide DecodedWrite, EncodeWriteSingleCoilRequest, DeviceWriteResponse, IsWriteCode, IsResponsePdu, BigEndian16, ToByte;
    WriteCodes();
    WriteRoundTrip(WRITE_SINGLE_COIL, address, if on then 0xFF00 else 0, on);
  }

  lemma WriteCodes()
    ensures IsWriteCode(WRITE_SINGLE_COIL) && IsWriteCode(WRITE_SINGLE_REGISTER)
  {
  }

  /** What the wire carries of a one-shot: one frame, which a device unframes to the unit that
      is set, cut to 8 bits, and the request. */
  lemma OneShotGoesOut(s: Stack, request: Request)
    ensures var before, wire := s.link.m.wire, OneShot(s, request).link.m.wire;
            && |wire| == |before| + 1 && wire[..|before|] == before
            && match s.link.m.mode
               case Tcp =>
                 var frame := DecodeMbapFrame(wire[|before|].frame);
                 && frame.Some? && frame.value.pdu == RequestPdu(request)
                 && FromByte(frame.value.unitId) == s.c.unitId % 0x100
                 && frame.value.transactionId == (s.link.m.nextTransactionId + 1) % 0x1_0000
               case Rtu =>
                 var frame := DecodeRtuFrame(wire[|before|].frame);
                 && frame.Some? && frame.value.pdu == RequestPdu(request)
                 && FromByte(frame.value.unitId) == s.c.unitId % 0x100
  {
    hide RequestPdu, MbapFrame, RtuFrame, DecodeMbapFrame, DecodeRtuFrame, FromByte, ToByte;
    var id, unit, pdu := Truncate16(s.link.m.nextTransactionId + 1), ToByte(UnitByte(s.c)), RequestPdu(request);
    FromToByte(UnitByte(s.c));
    Decoding.RequestLayout(request);
    DecodeEncodedMbap(id, unit, pdu, []);
    assert MbapFrame(id, unit, pdu) + [] == MbapFrame(id, unit, pdu);
    DecodeEncodedRtu(unit, pdu);
  }
}
