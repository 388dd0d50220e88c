/** The three objects as the program has them: fields updated in place by methods. Every
    method is proved to do to its object's state what the functions of Transactions,
    Polling, OneShots and PollStack say, so everything proved about those holds here. Ghost
    fields keep the records that only the proofs read. */
module PollObjects {
  import opened Numbers
  import opened RegisterTypes
  import opened ReadCoalescer
  import opened PlannerCoverage
  import opened TcpFramer
  import opened RtuFramer
  import opened PduCodec
  import opened Caches
  import opened Transactions
  import opened Polling
  import opened OneShots
  import opened PollStack

  class TransactionManager {
    var mode: FramingMode
    var retryCount: int
    var nextTransactionId: u16
    var pending: seq<PendingRequest>
    var receiveBuffer: seq<byte>
    var timeoutArmed: bool
    /** Numbers the requests for the proofs; nothing is decided by it. */
    var sent: nat
    ghost var wire: seq<Transmission>
    ghost var outcomes: map<nat, Outcome>

    ghost function State(): Manager
      reads this
    {
      Manager(mode, retryCount, nextTransactionId, pending, receiveBuffer, timeoutArmed, sent, wire, outcomes)
    }

    constructor (mode: FramingMode, retryCount: int)
      ensures State() == InitialManager(mode, retryCount)
    {
      this.mode, this.retryCount := mode, retryCount;
      nextTransactionId, pending, receiveBuffer, timeoutArmed := 0, [], [], false;
      sent, wire, outcomes := 0, [], map[];
    }

    method RearmTimeoutTimer()
      modifies this`timeoutArmed
      ensures timeoutArmed == (pending != [])
    {
      timeoutArmed := pending != [];
    }

    method EncodeFrame(request: PendingRequest) returns (frame: seq<byte>)
      ensures frame == FrameFor(mode, request)
    {
      if mode == Tcp {
        frame := EncodeMbapFrame(request.transactionId, ToByte(request.unitId), request.requestPdu);
      } else {
        frame := EncodeRtuFrame(ToByte(request.unitId), request.requestPdu);
      }
    }

    method SendRequest(unitId: u8, requestPdu: seq<byte>, correlationId: nat)
      modifies this
      ensures State() == Send(old(State()), unitId, requestPdu, correlationId)
    {
      hide FrameFor;
      nextTransactionId := Truncate16(nextTransactionId + 1);
      sent := sent + 1;
      var request := PendingRequest(sent, nextTransactionId, unitId, requestPdu, correlationId, 0);
      request := request.(attemptsSoFar := request.attemptsSoFar + 1);
      assert request == NewRequest(old(State()), unitId, requestPdu, correlationId);
      pending := pending + [request];
      RearmTimeoutTimer();
      var frame := EncodeFrame(request);
      assert frame == FrameFor(old(mode), request);
      wire := wire + [Transmission(sent, correlationId, frame)];
    }

    method CancelAll()
      modifies this
      ensures State() == Transactions.CancelAll(old(State()))
    {
      outcomes := EndAll(outcomes, pending, Cancelled);
      pending := [];
      receiveBuffer := [];
      timeoutArmed := false;
    }

    /** The search over the pending requests. */
    method IndexOfTransaction(transactionId: u16) returns (matchIndex: int)
      ensures matchIndex == -1 || 0 <= matchIndex < |pending|
      ensures (if matchIndex == -1 then |pending| else matchIndex) == FindTransaction(pending, transactionId)
    {
      matchIndex := -1;
      for i := 0 to |pending|
        invariant matchIndex == -1
        invariant FindTransaction(pending, transactionId) == i + FindTransaction(pending[i..], transactionId)
      {
        if pending[i].transactionId == transactionId {
          matchIndex := i;
          break;
        }
      }
    }

    method HandleDataReceived(data: seq<byte>, engine: PollEngine, controller: OneShotController)
      requires engine.manager == this && engine.Valid() && controller.manager == this
      modifies this, engine, controller
      ensures engine.Valid()
      ensures StackOf(engine, controller) == Receive(old(StackOf(engine, controller)), data)
    {
      if pending == [] {
        return;
      }
      receiveBuffer := receiveBuffer + data;
      if mode == Tcp {
        ConsumeTcpFrames(engine, controller);
      } else {
        ConsumeRtuFrames(engine, controller);
      }
    }

    method ConsumeTcpFrames(engine: PollEngine, controller: OneShotController)
      requires mode == Tcp && engine.manager == this && engine.Valid() && controller.manager == this
      modifies this, engine, controller
      ensures engine.Valid()
      ensures StackOf(engine, controller) == Consume(old(StackOf(engine, controller)))
    {
      while pending != []
        invariant mode == Tcp && engine.Valid()
        invariant Consume(StackOf(engine, controller)) == Consume(old(StackOf(engine, controller)))
        decreases |receiveBuffer|
      {
        var decoded := DecodeMbapFrame(receiveBuffer);
        if decoded == None {
          return;
        }
        TcpFrameTaken(StackOf(engine, controller));
        receiveBuffer := receiveBuffer[decoded.value.frameByteCount..];
        HandleTcpFrame(decoded.value, engine, controller);
      }
    }

    /** A frame that answers no pending request is dropped. */
    method HandleTcpFrame(frame: DecodedMbapFrame, engine: PollEngine, controller: OneShotController)
      requires pending != [] && engine.manager == this && engine.Valid() && controller.manager == this
      modifies this, engine, controller
      ensures engine.Valid() && mode == old(mode) && receiveBuffer == old(receiveBuffer)
      ensures StackOf(engine, controller) == AfterTcpFrame(old(StackOf(engine, controller)), frame)
    {
      var matchIndex := IndexOfTransaction(frame.transactionId);
      if matchIndex >= 0 {
        CompleteRequest(matchIndex, frame.pdu, engine, controller);
      }
    }

    method ConsumeRtuFrames(engine: PollEngine, controller: OneShotController)
      requires mode == Rtu && engine.manager == this && engine.Valid() && controller.manager == this
      modifies this, engine, controller
      ensures engine.Valid()
      ensures StackOf(engine, controller) == Consume(old(StackOf(engine, controller)))
    {
      while pending != []
        invariant mode == Rtu && engine.Valid()
        invariant Consume(StackOf(engine, controller)) == Consume(old(StackOf(engine, controller)))
        decreases |receiveBuffer|
      {
        var expectedLength := ExpectedRtuResponseLength(receiveBuffer);
        if expectedLength == 0 || |receiveBuffer| < expectedLength {
          return;
        }
        RtuFrameTaken(StackOf(engine, controller));
        var frame := receiveBuffer[..expectedLength];
        receiveBuffer := receiveBuffer[expectedLength..];
        HandleRtuFrame(frame, engine, controller);
      }
    }

    /** Whatever arrives answers the oldest request, unless its checksum is wrong. */
    method HandleRtuFrame(frame: seq<byte>, engine: PollEngine, controller: OneShotController)
      requires pending != [] && engine.manager == this && engine.Valid() && controller.manager == this
      modifies this, engine, controller
      ensures engine.Valid() && mode == old(mode) && receiveBuffer == old(receiveBuffer)
      ensures StackOf(engine, controller) == AfterRtuFrame(old(StackOf(engine, controller)), frame)
    {
      var decoded := DecodeRtuFrame(frame);
      if decoded != None {
        CompleteRequest(0, decoded.value.pdu, engine, controller);
      }
    }

    /** The reply goes to the engine first, which was connected first. */
    method CompleteRequest(pendingIndex: nat, responsePdu: seq<byte>, engine: PollEngine, controller: OneShotController)
      requires pendingIndex < |pending| && engine.manager == this && engine.Valid() && controller.manager == this
      modifies this, engine, controller
      ensures engine.Valid() && mode == old(mode) && receiveBuffer == old(receiveBuffer)
      ensures StackOf(engine, controller) == Answer(old(StackOf(engine, controller)), pendingIndex, responsePdu)
    {
      var correlationId := RemoveAnswered(pendingIndex, responsePdu);
      engine.HandleResponse(correlationId, responsePdu);
      controller.HandleResponseReceived(correlationId, responsePdu);
    }

    method RemoveAnswered(pendingIndex: nat, responsePdu: seq<byte>) returns (correlationId: nat)
      requires pendingIndex < |pending|
      modifies this
      ensures correlationId == old(pending)[pendingIndex].correlationId
      ensures State() == Complete(old(State()), pendingIndex, responsePdu)
    {
      correlationId := pending[pendingIndex].correlationId;
      outcomes := outcomes[pending[pendingIndex].serial := AnswerTo(pending[pendingIndex], responsePdu)];
      pending := pending[..pendingIndex] + pending[pendingIndex + 1..];
      RearmTimeoutTimer();
    }

    /** Decide and mutate first, then transmit, then report. */
    method HandleTimeout(expired: set<nat>, engine: PollEngine, controller: OneShotController)
      requires engine.manager == this && engine.Valid() && controller.manager == this
      modifies this, engine, controller
      ensures engine.Valid()
      ensures StackOf(engine, controller) == Expire(old(StackOf(engine, controller)), expired)
    {
      var exhausted := ExpireRequests(expired);
      ReportFailures(exhausted, engine, controller);
    }

    method ExpireRequests(expired: set<nat>) returns (exhausted: seq<PendingRequest>)
      modifies this
      ensures State() == AfterSweep(old(State()), expired)
      ensures exhausted == Sweep(old(pending), expired, retryCount).exhausted
    {
      var framesToRetransmit;
      exhausted, framesToRetransmit := SweepExpired(expired);
      RearmTimeoutTimer();
      Retransmit(framesToRetransmit);
      outcomes := EndAll(outcomes, exhausted, TimedOut);
    }

    method SweepExpired(expired: set<nat>) returns (exhausted: seq<PendingRequest>, frames: seq<Transmission>)
      modifies this`pending
      ensures var swept := Sweep(old(pending), expired, retryCount);
              && pending == swept.kept && exhausted == swept.exhausted
              && frames == Transmissions(mode, swept.resent)
    {
      hide FrameFor;
      exhausted, frames := [], [];
      ghost var original, resent, kept := pending, [], [];
      assert original[..|original|] == original;
      var i := |pending| - 1;
      while i >= 0
        invariant -1 <= i < |original|
        invariant pending == original[..i + 1] + kept
        invariant frames == Transmissions(mode, resent)
        invariant SweptSoFar(original, i + 1, expired, kept, resent, exhausted)
      {
        SweepOneMore(original, i, expired, kept, resent, exhausted);
        EndOfPrefix(original, i, kept, pending[i].(attemptsSoFar := pending[i].attemptsSoFar + 1));
        if pending[i].serial in expired {
          if pending[i].attemptsSoFar <= retryCount {
            var again := MarkAttempt(i);
            var frame := EncodeFrame(again);
            frames := frames + [Transmission(again.serial, again.correlationId, frame)];
            TransmissionsSnoc(mode, resent, again);
            resent, kept := resent + [again], [again] + kept;
          } else {
            exhausted := exhausted + [pending[i]];
            pending := pending[..i] + pending[i + 1..];
          }
        } else {
          kept := [pending[i]] + kept;
        }
        i := i - 1;
      }
    }

    method MarkAttempt(i: nat) returns (again: PendingRequest)
      requires i < |pending|
      modifies this`pending
      ensures again == old(pending)[i].(attemptsSoFar := old(pending)[i].attemptsSoFar + 1)
      ensures pending == old(pending)[i := again]
    {
      again := pending[i].(attemptsSoFar := pending[i].attemptsSoFar + 1);
      pending := pending[i := again];
    }

    lemma EndOfPrefix(original: seq<PendingRequest>, i: nat, kept: seq<PendingRequest>, again: PendingRequest)
      requires i < |original|
      ensures var list := original[..i + 1] + kept;
              && list[i] == original[i]
              && list == original[..i] + ([original[i]] + kept)
              && list[..i] + list[i + 1..] == original[..i] + kept
              && list[i := again] == original[..i] + ([again] + kept)
    {
    }

    /** What the sweep of the first n requests would add to what has been collected. */
    ghost predicate SweptSoFar(original: seq<PendingRequest>, n: nat, expired: set<nat>, kept: seq<PendingRequest>,
                               resent: seq<PendingRequest>, exhausted: seq<PendingRequest>)
      requires n <= |original|
      reads this`retryCount
    {
      var rest := Sweep(original[..n], expired, retryCount);
      Sweep(original, expired, retryCount)
        == Swept(rest.kept + kept, resent + rest.resent, exhausted + rest.exhausted)
    }

    lemma SweepOneMore(original: seq<PendingRequest>, n: nat, expired: set<nat>, kept: seq<PendingRequest>,
                       resent: seq<PendingRequest>, exhausted: seq<PendingRequest>)
      requires n < |original| && SweptSoFar(original, n + 1, expired, kept, resent, exhausted)
      ensures var last := original[n];
              var again := last.(attemptsSoFar := last.attemptsSoFar + 1);
              if last.serial !in expired then SweptSoFar(original, n, expired, [last] + kept, resent, exhausted)
              else if last.attemptsSoFar <= retryCount then
                SweptSoFar(original, n, expired, [again] + kept, resent + [again], exhausted)
              else SweptSoFar(original, n, expired, kept, resent, exhausted + [last])
    {
      assert original[..n + 1][..n] == original[..n];
      var last, rest := original[n], Sweep(original[..n], expired, retryCount);
      var again := last.(attemptsSoFar := last.attemptsSoFar + 1);
      Associative(rest.kept, [last], kept);
      Associative(rest.kept, [again], kept);
      Associative(resent, [again], rest.resent);
      Associative(exhausted, [last], rest.exhausted);
    }

    method Retransmit(frames: seq<Transmission>)
      modifies this`wire
      ensures wire == old(wire) + frames
    {
      for k := 0 to |frames|
        invariant wire == old(wire) + frames[..k]
      {
        wire := wire + [frames[k]];
      }
    }

    method ReportFailures(exhausted: seq<PendingRequest>, engine: PollEngine, controller: OneShotController)
      requires engine.manager == this && engine.Valid() && controller.manager == this
      modifies this, engine, controller
      ensures engine.Valid()
      ensures StackOf(engine, controller) == FailAll(old(StackOf(engine, controller)), exhausted)
    {
      for k := 0 to |exhausted|
        invariant engine.Valid()
        invariant FailAll(StackOf(engine, controller), exhausted[k..])
               == FailAll(old(StackOf(engine, controller)), exhausted)
      {
        engine.HandleFailure(exhausted[k].correlationId);
        controller.HandleRequestFailed(exhausted[k].correlationId);
        assert exhausted[k..][1..] == exhausted[k + 1..];
      }
    }
  }

  /** All writes of the slice stay inside the target's cache. */
  predicate WritesInBounds(caches: seq<TargetCache>, covered: CoveredTarget, values: Values) {
    && covered.targetIndex < |caches| && covered.count >= 0 && covered.offsetInTarget >= 0
    && var cache := caches[covered.targetIndex];
    && covered.offsetInTarget + covered.count
       <= if values.Flags? then |cache.bitValues| else |cache.registerValues|
  }

  lemma SliceInBounds(targets: seq<PollTarget>, options: CoalescingOptions, plan: ReadRequestPlan, caches: seq<TargetCache>,
                      k: nat, values: Values)
    requires CachesFit(targets, caches) && PlanFits(targets, options, plan) && k < |plan.covered|
    requires values.Flags? <==> IsBitType(plan.registerType)
    ensures WritesInBounds(caches, plan.covered[k], values)
  {
    assert SliceFits(targets, plan, plan.covered[k]);
    assert CacheFits(targets[plan.covered[k].targetIndex], caches[plan.covered[k].targetIndex]);
  }

  lemma CleanedFit(targets: seq<PollTarget>, caches: seq<TargetCache>)
    requires CachesFit(targets, caches)
    ensures CachesFit(targets, Cleaned(caches))
  {
  }

  lemma Associative(a: seq<PendingRequest>, b: seq<PendingRequest>, c: seq<PendingRequest>)
    ensures (a + b) + c == a + (b + c)
  {
  }

  lemma TransmissionsSnoc(mode: FramingMode, requests: seq<PendingRequest>, r: PendingRequest)
    ensures Transmissions(mode, requests + [r])
         == Transmissions(mode, requests) + [Transmission(r.serial, r.correlationId, FrameFor(mode, r))]
  {
  }

  /** One round of the TCP loop. */
  lemma TcpFrameTaken(s: Stack)
    requires s.link.m.mode == Tcp && s.link.m.pending != [] && DecodeMbapFrame(s.link.m.receiveBuffer).Some?
    ensures var m, frame := s.link.m, DecodeMbapFrame(s.link.m.receiveBuffer).value;
            Consume(s) == Consume(AfterTcpFrame(WithBuffer(s, m.receiveBuffer[frame.frameByteCount..]), frame))
  {
    hide Answer, ReadBigEndian16;
  }

  function AfterTcpFrame(s: Stack, frame: DecodedMbapFrame): Stack {
    var i := FindTransaction(s.link.m.pending, frame.transactionId);
    if i < |s.link.m.pending| then Answer(s, i, frame.pdu) else s
  }

  /** One round of the RTU loop. */
  lemma RtuFrameTaken(s: Stack)
    requires s.link.m.mode == Rtu && s.link.m.pending != []
    requires 0 < ExpectedRtuResponseLength(s.link.m.receiveBuffer) <= |s.link.m.receiveBuffer|
    ensures var m, length := s.link.m, ExpectedRtuResponseLength(s.link.m.receiveBuffer);
            Consume(s) == Consume(AfterRtuFrame(WithBuffer(s, m.receiveBuffer[length..]), m.receiveBuffer[..length]))
  {
    hide Answer;
  }

  function AfterRtuFrame(s: Stack, frame: seq<byte>): Stack
    requires s.link.m.pending != []
  {
    match DecodeRtuFrame(frame)
    case None => s
    case Some(decoded) => Answer(s, 0, decoded.pdu)
  }

  ghost function StackOf(engine: PollEngine, controller: OneShotController): Stack
    reads engine, engine.manager, controller
  {
    Stack(engine.State(), controller.State())
  }

  class PollEngine {
    const manager: TransactionManager
    var options: CoalescingOptions
    var maxInFlight: int
    var targets: seq<PollTarget>
    var plans: seq<ReadRequestPlan>
    var caches: seq<TargetCache>
    var running: bool
    var generation: u32
    var nextPlan: nat
    var outstanding: nat
    var intervalArmed: bool
    var flushArmed: bool
    var signals: seq<Signal>
    ghost var record: Record

    ghost function Fields(): Engine
      reads this
    {
      Engine(options, maxInFlight, targets, plans, caches, running, generation, nextPlan, outstanding, intervalArmed,
             flushArmed, signals, record)
    }

    ghost function State(): Link
      reads this, manager
    {
      Link(manager.State(), Fields())
    }

    /** Plans and caches are those of the targets; so every slice is in bounds. */
    ghost predicate Valid()
      reads this`options, this`plans, this`targets, this`caches
    {
      options.Usable() && plans == Plans(targets, options) && CachesFit(targets, caches)
    }

    constructor (manager: TransactionManager, options: CoalescingOptions, maxInFlight: int)
      requires options.Usable()
      ensures this.manager == manager && Fields() == InitialEngine(options, maxInFlight) && Valid()
    {
      this.manager, this.options, this.maxInFlight := manager, options, maxInFlight;
      targets, plans, caches, running, generation := [], [], [], false, 0;
      nextPlan, outstanding, intervalArmed, flushArmed, signals := 0, 0, false, false, [];
      record := Record([], 0, [], [], 0, 0);
      new;
      NoTargetsNoPlans(options);
    }

    method SetTargets(newTargets: seq<PollTarget>)
      requires Valid()
      modifies this, manager
      ensures Valid() && State() == Polling.SetTargets(old(State()), newTargets)
    {
      Reconfigure(newTargets);
      FreshCachesFit(targets);
      if running {
        BeginCycle();
      }
    }

    method Reconfigure(newTargets: seq<PollTarget>)
      requires options.Usable()
      modifies this, manager
      ensures manager.State() == Transactions.CancelAll(old(manager.State()))
      ensures Fields() == Configure(old(State()), newTargets).e
    {
      hide Plans, FreshCaches;
      AdoptTargets(newTargets);
      manager.CancelAll();
      Rebuild();
    }

    method Rebuild()
      requires options.Usable()
      modifies this`plans, this`caches
      ensures plans == Plans(targets, options) && caches == FreshCaches(targets)
    {
      RebuildPlans();
      RebuildCaches();
    }

    method AdoptTargets(newTargets: seq<PollTarget>)
      modifies this`record, this`targets, this`generation, this`intervalArmed
      ensures targets == newTargets && generation == Truncate32(old(generation) + 1) && !intervalArmed
      ensures record == old(record).(immediate := [], since := |signals|, retargetedAt := manager.sent)
    {
      record := record.(immediate := [], since := |signals|, retargetedAt := manager.sent);
      targets := newTargets;
      generation := Truncate32(generation + 1);
      intervalArmed := false;
    }

    method RebuildPlans()
      requires options.Usable()
      modifies this`plans
      ensures plans == Plans(targets, options)
    {
      plans := ReadCoalescer.Coalesce(targets, options);
    }

    method RebuildCaches()
      modifies this`caches
      ensures caches == FreshCaches(targets)
    {
      caches := [];
      for i := 0 to |targets|
        invariant caches == FreshCaches(targets)[..i]
      {
        caches := caches + [FreshCache(targets[i])];
      }
    }

    method SetCoalescingOptions(newOptions: CoalescingOptions)
      requires Valid() && newOptions.Usable()
      modifies this`options, this`plans
      ensures Valid() && Fields() == Polling.SetCoalescingOptions(old(Fields()), newOptions)
    {
      hide Plans;
      options := newOptions;
      RebuildPlans();
    }

    method Start()
      requires Valid()
      modifies this, manager
      ensures Valid() && State() == Polling.Start(old(State()))
    {
      if running {
        return;
      }
      running := true;
      BeginCycle();
    }

    method Stop()
      modifies this`running, this`intervalArmed, this`flushArmed, this`outstanding, manager
      ensures State() == Polling.Stop(old(State()))
    {
      running := false;
      intervalArmed := false;
      flushArmed := false;
      manager.CancelAll();
      outstanding := 0;
    }

    method HandleInterval()
      requires Valid()
      modifies this, manager
      ensures Valid() && State() == Polling.IntervalFires(old(State()))
    {
      intervalArmed := false;
      BeginCycle();
    }

    method BeginCycle()
      modifies this`outstanding, this`nextPlan, this`record, manager
      ensures State() == Polling.BeginCycle(old(State()))
    {
      if !running || plans == [] {
        return;
      }
      nextPlan := 0;
      outstanding := 0;
      record := record.(settled := [], mark := PollTransmissions(manager.wire, generation));
      PumpRequests();
    }

    method EffectiveWindowSize() returns (window: int)
      ensures window == Window(State())
    {
      window := if manager.mode == Tcp then maxInFlight else 1;
    }

    method PumpRequests()
      modifies this`nextPlan, this`outstanding, manager
      ensures State() == Pump(old(State())) && manager.mode == old(manager.mode)
    {
      var window := EffectiveWindowSize();
      while running && nextPlan < |plans| && outstanding < window
        invariant window == Window(State()) && manager.mode == old(manager.mode)
        invariant Pump(State()) == Pump(old(State()))
        decreases |plans| - nextPlan
      {
        IssueNextPlan();
      }
    }

    method IssueNextPlan()
      requires nextPlan < |plans|
      modifies this`nextPlan, this`outstanding, manager
      ensures State() == IssueNext(old(State()))
    {
      var plan := plans[nextPlan];
      var pdu := EncodeReadRequest(ReadFunctionCodeFor(plan.registerType), plan.startAddress, plan.quantity);
      outstanding := outstanding + 1;
      manager.SendRequest(plan.unitId, pdu, CorrelationId(generation, nextPlan));
      nextPlan := nextPlan + 1;
    }

    method HandleResponse(correlationId: nat, responsePdu: seq<byte>)
      requires Valid()
      modifies this, manager
      ensures Valid() && State() == Polling.HandleResponse(old(State()), correlationId, responsePdu)
      ensures manager.mode == old(manager.mode)
    {
      hide Plans, Polling.ApplyPlanResponse;
      if !running || !IsGeneration(correlationId, generation) {
        return;
      }
      var planIndex := PlanIndexOf(correlationId);
      UseResponse(planIndex, responsePdu);
      NoteRequestSettled(planIndex);
    }

    method UseResponse(planIndex: int, responsePdu: seq<byte>)
      requires Valid()
      modifies this`caches, this`flushArmed, this`signals, this`record
      ensures Valid()
      ensures Fields() == UseReply(old(Fields()), planIndex, responsePdu)
    {
      if 0 <= planIndex < |plans| {
        ApplyPlanResponse(planIndex, responsePdu);
      }
    }

    method HandleFailure(correlationId: nat)
      requires Valid()
      modifies this, manager
      ensures Valid() && State() == Polling.HandleFailure(old(State()), correlationId)
    {
      if !running || !IsGeneration(correlationId, generation) {
        return;
      }
      var planIndex := PlanIndexOf(correlationId);
      EmitFailure(if 0 <= planIndex < |plans| then plans[planIndex].covered else []);
      NoteRequestSettled(planIndex);
    }

    method EmitFailure(covered: seq<CoveredTarget>)
      modifies this`signals
      ensures Fields() == ReportFailure(old(Fields()), covered)
    {
      signals := signals + [PollFailed];
      for k := 0 to |covered|
        invariant signals == old(signals) + [PollFailed] + FailedTargets(covered[..k])
      {
        signals := signals + [TargetFailed(covered[k].targetIndex)];
      }
      assert covered[..|covered|] == covered;
    }

    /** The index is for the record. */
    method NoteRequestSettled(planIndex: int)
      modifies this`outstanding, this`nextPlan, this`record, this`signals, this`intervalArmed, manager
      ensures State() == Polling.NoteRequestSettled(old(State()), planIndex)
      ensures manager.mode == old(manager.mode)
    {
      SettleOne(planIndex);
      PumpRequests();
      var cycleFinished := nextPlan >= |plans| && outstanding == 0;
      if !cycleFinished {
        return;
      }
      FinishCycle();
    }

    method SettleOne(planIndex: int)
      modifies this`outstanding, this`record
      ensures Fields() == Settle(old(Fields()), planIndex)
    {
      outstanding := Max(0, outstanding - 1);
      record := if planIndex < 0 then record else record.(settled := record.settled + [planIndex]);
    }

    method FinishCycle()
      modifies this`record, this`signals, this`intervalArmed
      ensures State() == Polling.FinishCycle(old(State()))
    {
      record := record.(completed := record.completed
                          + [Cycle(|plans|, record.settled, PollTransmissions(manager.wire, generation) - record.mark)]);
      signals := signals + [CycleCompleted];
      if running {
        intervalArmed := true;
      }
    }

    method ApplyPlanResponse(planIndex: nat, responsePdu: seq<byte>)
      requires Valid() && planIndex < |plans|
      modifies this`caches, this`flushArmed, this`signals, this`record
      ensures Valid() && Fields() == Polling.ApplyPlanResponse(old(Fields()), plans[planIndex], responsePdu)
    {
      var plan := plans[planIndex];
      PlansFit(targets, options);
      assert PlanFits(targets, options, plan);
      if IsBitType(plan.registerType) {
        var result := DecodeReadBitsResponse(responsePdu, ReadFunctionCodeFor(plan.registerType), plan.quantity);
        if !result.Ok? {
          EmitFailure(plan.covered);
          return;
        }
        StoreSlices(plan, Flags(result.value));
      } else {
        var result := DecodeReadRegistersResponse(responsePdu, ReadFunctionCodeFor(plan.registerType));
        if !result.Ok? {
          EmitFailure(plan.covered);
          return;
        }
        StoreSlices(plan, Words(result.value));
      }
    }

    method StoreSlices(plan: ReadRequestPlan, values: Values)
      requires CachesFit(targets, caches) && PlanFits(targets, options, plan)
      requires values.Flags? <==> IsBitType(plan.registerType)
      modifies this`caches, this`flushArmed, this`record
      ensures CachesFit(targets, caches) && Fields() == StoreValues(old(Fields()), plan.covered, values)
    {
      ScatterSlices(plan, values);
      ApplySlicesFit(targets, old(caches), plan.covered, values);
      record := record.(immediate := record.immediate + ImmediateUpdates(targets, caches, plan.covered));
    }

    method ScatterSlices(plan: ReadRequestPlan, values: Values)
      requires CachesFit(targets, caches) && PlanFits(targets, options, plan)
      requires values.Flags? <==> IsBitType(plan.registerType)
      modifies this`caches, this`flushArmed
      ensures caches == ApplySlices(old(caches), plan.covered, values)
      ensures flushArmed == (old(flushArmed) || plan.covered != [])
    {
      for k := 0 to |plan.covered|
        invariant caches == ApplySlices(old(caches), plan.covered[..k], values)
        invariant flushArmed == (old(flushArmed) || k > 0)
      {
        ApplySlicesFit(targets, old(caches), plan.covered[..k], values);
        assert plan.covered[..k + 1][..k] == plan.covered[..k];
        SliceInBounds(targets, options, plan, caches, k, values);
        StoreCovered(plan.covered[k], values);
      }
      assert plan.covered[..|plan.covered|] == plan.covered;
    }

    method StoreCovered(covered: CoveredTarget, values: Values)
      requires WritesInBounds(caches, covered, values)
      modifies this`caches, this`flushArmed
      ensures caches == ApplySlice(old(caches), covered, values) && flushArmed
    {
      StoreSliceInPlace(covered, values);
      MarkDirty(covered.targetIndex);
    }

    /** Value by value; all writes are in bounds. */
    method StoreSliceInPlace(covered: CoveredTarget, values: Values)
      requires WritesInBounds(caches, covered, values)
      modifies this`caches
      ensures caches == old(caches)[covered.targetIndex :=
                StoreSlice(old(caches)[covered.targetIndex], covered, values).(dirty := old(caches)[covered.targetIndex].dirty)]
    {
      var cache := caches[covered.targetIndex];
      match values {
        case Flags(flags) =>
          var destination := cache.bitValues;
          for i := 0 to covered.count
            invariant destination == Overwrite(cache.bitValues, covered.(count := i), flags, false)
          {
            destination := destination[covered.offsetInTarget + i := At(flags, covered.offsetInPlan + i, false)];
          }
          caches := caches[covered.targetIndex := cache.(bitValues := destination)];
        case Words(words) =>
          var destination := cache.registerValues;
          for i := 0 to covered.count
            invariant destination == Overwrite(cache.registerValues, covered.(count := i), words, 0)
          {
            destination := destination[covered.offsetInTarget + i := At(words, covered.offsetInPlan + i, 0)];
          }
          caches := caches[covered.targetIndex := cache.(registerValues := destination)];
      }
    }

    method MarkDirty(targetIndex: nat)
      requires targetIndex < |caches|
      modifies this`caches, this`flushArmed
      ensures caches == old(caches)[targetIndex := old(caches)[targetIndex].(dirty := true)] && flushArmed
    {
      caches := caches[targetIndex := caches[targetIndex].(dirty := true)];
      if !flushArmed {
        flushArmed := true;
      }
    }

    method FlushPendingUpdates()
      requires CachesFit(targets, caches)
      modifies this`flushArmed, this`caches, this`signals
      ensures CachesFit(targets, caches) && Fields() == Flush(old(Fields()))
    {
      flushArmed := false;
      EmitDirty();
      CleanedFit(targets, old(caches));
    }

    method EmitDirty()
      requires |caches| == |targets|
      modifies this`caches, this`signals
      ensures caches == Cleaned(old(caches))
      ensures signals == old(signals) + DirtyUpdates(targets, old(caches), |old(caches)|)
    {
      for i := 0 to |caches|
        invariant |caches| == |old(caches)|
        invariant forall k :: 0 <= k < |caches| ==>
          caches[k] == if k < i then old(caches)[k].(dirty := false) else old(caches)[k]
        invariant signals == old(signals) + DirtyUpdates(targets, old(caches), i)
      {
        if caches[i].dirty {
          FlushTarget(i);
        }
      }
    }

    method FlushTarget(i: nat)
      requires i < |caches| == |targets|
      modifies this`caches, this`signals
      ensures caches == old(caches)[i := old(caches)[i].(dirty := false)]
      ensures signals == old(signals) + [UpdateOf(targets, old(caches), i)]
    {
      caches := caches[i := caches[i].(dirty := false)];
      var target := targets[i];
      if IsBitType(target.registerType) {
        signals := signals + [BitsUpdated(i, target.startAddress, caches[i].bitValues)];
      } else {
        signals := signals + [RegistersUpdated(i, target.startAddress, caches[i].registerValues)];
      }
    }
  }

  class OneShotController {
    const manager: TransactionManager
    var unitId: int
    var operation: Operation
    var startAddress: int
    var quantity: int
    var correlationId: nat
    var results: seq<Result>

    ghost function State(): Controller
      reads this
    {
      Controller(unitId, operation, startAddress, quantity, correlationId, results)
    }

    constructor (manager: TransactionManager, unitId: int)
      ensures this.manager == manager && State() == Controller(unitId, NoOperation, 0, 0, 0, [])
    {
      this.manager, this.unitId := manager, unitId;
      operation, startAddress, quantity, correlationId, results := NoOperation, 0, 0, 0, [];
    }

    method ReadRegisters(registerType: RegisterType, start: int, count: int, engine: PollEngine)
      requires engine.manager == manager
      modifies this, manager
      ensures StackOf(engine, this) == OneShot(old(StackOf(engine, this)), Request.ReadRegisters(registerType, start, count))
    {
      operation := Read(registerType);
      startAddress := start;
      quantity := count;
      hide RequestPdu, Send, UnitByte;
      SendNumbered(RequestPdu(Request.ReadRegisters(registerType, start, count)));
    }

    method SendNumbered(pdu: seq<byte>)
      modifies this`correlationId, manager
      ensures correlationId == old(correlationId) + 1
      ensures manager.State() == Send(old(manager.State()), UnitByte(State()), pdu, correlationId)
    {
      correlationId := correlationId + 1;
      manager.SendRequest(unitId % 0x100, pdu, correlationId);
    }

    method WriteSingleRegister(address: int, value: int, engine: PollEngine)
      requires engine.manager == manager
      modifies this, manager
      ensures StackOf(engine, this) == OneShot(old(StackOf(engine, this)), Request.WriteSingleRegister(address, value))
    {
      operation := WriteRegister;
      startAddress := address;
      hide RequestPdu, Send, UnitByte;
      SendNumbered(RequestPdu(Request.WriteSingleRegister(address, value)));
    }

    method WriteSingleCoil(address: int, on: bool, engine: PollEngine)
      requires engine.manager == manager
      modifies this, manager
      ensures StackOf(engine, this) == OneShot(old(StackOf(engine, this)), Request.WriteSingleCoil(address, on))
    {
      operation := WriteCoil;
      startAddress := address;
      hide RequestPdu, Send, UnitByte;
      SendNumbered(RequestPdu(Request.WriteSingleCoil(address, on)));
    }

    method HandleResponseReceived(id: nat, responsePdu: seq<byte>)
      modifies this
      ensures State() == ControllerResponse(old(State()), id, responsePdu)
    {
      if id != correlationId {
        return;
      }
      var remembered := Controller(unitId, operation, startAddress, quantity, correlationId, results);
      results := results + ResultOf(remembered, responsePdu);
      operation := NoOperation;
    }

    method HandleRequestFailed(id: nat)
      modifies this
      ensures State() == ControllerFailure(old(State()), id)
    {
      if id != correlationId {
        return;
      }
      operation := NoOperation;
      results := results + [OperationFailed];
    }
  }

  /** Whatever event happens, the objects do to the stack what its step function says; so
      every property of runs is one of the objects. */
  method Perform(event: Event, engine: PollEngine, controller: OneShotController)
    requires engine.Valid() && controller.manager == engine.manager
    requires Allowed(StackOf(engine, controller), event)
    modifies engine, engine.manager, controller
    ensures engine.Valid()
    ensures StackOf(engine, controller) == Step(old(StackOf(engine, controller)), event)
  {
    hide Plans, Receive, Expire, SetTargets, Polling.IntervalFires, Polling.Start, Polling.Stop, Flush, OneShot,
      Polling.SetCoalescingOptions;
    match event {
      case DataArrives(data) => engine.manager.HandleDataReceived(data, engine, controller);
      case DeadlinesPass(expired) => engine.manager.HandleTimeout(expired, engine, controller);
      case IntervalTimeout => engine.HandleInterval();
      case FlushTimeout => engine.FlushPendingUpdates();
      case Retarget(targets) => engine.SetTargets(targets);
      case Reconfigure(options) => engine.SetCoalescingOptions(options);
      case StartPolling => engine.Start();
      case StopPolling => engine.Stop();
      case SendOneShot(request) =>
        match request {
          case ReadRegisters(registerType, start, quantity) =>
            controller.ReadRegisters(registerType, start, quantity, engine);
          case WriteSingleRegister(address, value) => controller.WriteSingleRegister(address, value, engine);
          case WriteSingleCoil(address, on) => controller.WriteSingleCoil(address, on, engine);
        }
    }
  }

  /** The objects start in the state that runs start in. */
  method Create(mode: FramingMode, retryCount: int, options: CoalescingOptions, maxInFlight: int, unitId: int)
    returns (engine: PollEngine, controller: OneShotController)
    requires options.Usable()
    ensures engine.Valid() && controller.manager == engine.manager
    ensures StackOf(engine, controller) == InitialStack(mode, retryCount, options, maxInFlight, unitId)
  {
    var manager := new TransactionManager(mode, retryCount);
    engine := new PollEngine(manager, options, maxInFlight);
    controller := new OneShotController(manager, unitId);
  }

  lemma NoTargetsNoPlans(options: CoalescingOptions)
    requires options.Usable()
    ensures Plans([], options) == []
  {
  }
}
