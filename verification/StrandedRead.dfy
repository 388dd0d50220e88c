/** The shortest run that strands a value: one target, one reply, and a stop before the flush. */
module StrandedRead {
  import opened Numbers
  import opened RegisterTypes
  import opened ReadCoalescer
  import opened TcpFramer
  import opened PduCodec
  import opened Caches
  import opened Transactions
  import opened Polling
  import opened OneShots
  import opened PollStack
  import opened StackInvariants
  import opened FlushRefinement
  import Isolation
  import PlannerBridging

  const TARGET: PollTarget := PollTarget(1, HoldingRegister, 0, 2)
  const PLAN: ReadRequestPlan := ReadRequestPlan(1, HoldingRegister, 0, 2, [CoveredTarget(0, 0, 0, 2)])

  /** The device's answer to the plan: two registers, under the first transaction id. */
  function AnswerPdu(): seq<byte> {
    DeviceRegistersResponse(READ_HOLDING_REGISTERS, [7, 9])
  }

  function AnswerFrame(): seq<byte> {
    MbapFrame(1, ToByte(1), AnswerPdu())
  }

  /** The target is set, and nothing has been polled. */
  predicate Targeted(s: Stack) {
    && s.link.m.mode == Tcp && s.link.m.pending == [] && s.link.m.receiveBuffer == [] && s.link.m.nextTransactionId == 0
    && Shaped(s.link.e) && s.link.e.targets == [TARGET] && s.link.e.plans == [PLAN]
    && s.link.e.maxInFlight >= 1 && !s.link.e.running && s.link.e.generation == 1
  }

  /** The plan has been sent, and the answer is awaited. */
  predicate Asked(s: Stack) {
    && s.link.m.mode == Tcp && |s.link.m.pending| == 1 && s.link.m.receiveBuffer == []
    && s.link.m.pending[0].transactionId == 1 && s.link.m.pending[0].correlationId == CorrelationId(1, 0)
    && Shaped(s.link.e) && s.link.e.targets == [TARGET] && s.link.e.plans == [PLAN]
    && s.link.e.running && s.link.e.generation == 1
  }

  lemma RetargetTargets(s: Stack)
    requires s.link.m.mode == Tcp && s.link.m.nextTransactionId == 0
    requires s.link.e.options.Usable() && s.link.e.options.maxRegistersPerRequest >= 2
    requires s.link.e.maxInFlight >= 1 && !s.link.e.running && s.link.e.generation == 0
    ensures Allowed(s, Retarget([TARGET]))
    ensures Targeted(s.(link := SetTargets(s.link, [TARGET])))
  {
    hide Plans;
    PlannerBridging.SingleTargetPlan(TARGET, s.link.e.options);
  }

  lemma StartAsks(s: Stack)
    requires Targeted(s)
    ensures Allowed(s, StartPolling) && Asked(Step(s, StartPolling))
  {
    hide FrameFor, PlanPdu, PollTransmissions, CorrelationId;
    var began := Rewound(s.link.(e := s.link.e.(running := true)));
    assert CanIssue(began);
    var issued := IssueNext(began);
    assert !CanIssue(issued) && Pump(issued) == issued && Pump(began) == issued;
    assert issued.m.pending[0].transactionId == 1;
  }

  lemma AnswerArrives()
    ensures NextArrival(Tcp, AnswerFrame()) == Some(Reply(|AnswerFrame()|, Some(1), AnswerPdu()))
    ensures DecodePlanResponse(PLAN, AnswerPdu()) == Ok(Words([7, 9]))
  {
    hide MbapFrame, DecodeMbapFrame, DecodedRegisters, DeviceRegistersResponse;
    RegistersRoundTrip(READ_HOLDING_REGISTERS, [7, 9]);
    AnswerIsShort();
    DecodeEncodedMbap(1, ToByte(1), AnswerPdu(), []);
    assert AnswerFrame() + [] == AnswerFrame();
  }

  lemma AnswerIsShort()
    ensures |AnswerPdu()| < 0xFFFF && |AnswerFrame()| == 7 + |AnswerPdu()|
  {
  }

  lemma AnswerDirties(s: Stack)
    requires Asked(s)
    ensures SomeDirty(Deliver(s, Reply(|AnswerFrame()|, Some(1), AnswerPdu())).link.e)
  {
    hide DecodePlanResponse, AnswerPdu, AnswerFrame, NoteRequestSettled, SameValues;
    var l := s.link.(m := Complete(s.link.m, 0, AnswerPdu()));
    assert FindTransaction(s.link.m.pending, 1) == 0;
    Isolation.CorrelationRoundTrip(1, 0, 1);
    AnswerArrives();
    ApplyTouches(l.e.caches, PLAN.covered, Words([7, 9]), 0);
    var applied := ApplyPlanResponse(l.e, PLAN, AnswerPdu());
    assert applied.caches[0].dirty;
    SettlingSameValues(l.(e := applied), 0);
    SameValuesSameDirt(applied, NoteRequestSettled(l.(e := applied), 0).e);
  }

  lemma DataDirties(s: Stack)
    requires Asked(s)
    ensures SomeDirty(Receive(s, AnswerFrame()).link.e)
  {
    hide AnswerPdu, AnswerFrame, SomeDirty, Deliver, NextArrival;
    var frame, a := AnswerFrame(), Reply(|AnswerFrame()|, Some(1), AnswerPdu());
    AnswerArrives();
    var buffered := WithBuffer(s, frame);
    assert s.link.m.receiveBuffer + frame == frame;
    var taken := WithBuffer(buffered, frame[|frame|..]);
    assert Consume(buffered) == Consume(Deliver(taken, a));
    assert Asked(WithBuffer(s, []));
    assert taken == WithBuffer(s, []);
    AnswerDirties(taken);
    ConsumeKeepsDirt(Deliver(taken, a));
  }

  lemma FollowedByStep(s: Stack, event: Event)
    requires StackValid(s) && Allowed(s, event)
    ensures Follows(s, event, Step(s, event)) && StackValid(Step(s, event))
  {
    hide Step, Plans;
    StepValid(s, event);
    ValidIsShaped(s);
  }

  lemma ValidIsShaped(s: Stack)
    requires StackValid(s)
    ensures Shaped(s.link.e)
  {
  }

  lemma TargetIsSet(s: Stack) returns (after: Stack)
    requires StackValid(s) && s.link.m.mode == Tcp && s.link.m.nextTransactionId == 0
    requires s.link.e.options.maxRegistersPerRequest >= 2 && !s.link.e.running && s.link.e.generation == 0
    ensures Follows(s, Retarget([TARGET]), after) && StackValid(after) && Targeted(after)
  {
    hide SetTargets, Plans, Targeted, Follows;
    RetargetTargets(s);
    FollowedByStep(s, Retarget([TARGET]));
    after := s.(link := SetTargets(s.link, [TARGET]));
  }

  lemma PollingStarts(s: Stack) returns (after: Stack)
    requires StackValid(s) && Targeted(s)
    ensures Follows(s, StartPolling, after) && StackValid(after) && Asked(after)
  {
    hide Asked, Follows, StackValid;
    StartAsks(s);
    FollowedByStep(s, StartPolling);
    after := Step(s, StartPolling);
  }

  lemma AnswerIsStored(s: Stack) returns (after: Stack)
    requires StackValid(s) && Asked(s)
    ensures Follows(s, DataArrives(AnswerFrame()), after) && StackValid(after) && SomeDirty(after.link.e)
  {
    hide Receive, AnswerFrame, SomeDirty, Follows, StackValid;
    DataDirties(s);
    FollowedByStep(s, DataArrives(AnswerFrame()));
    after := Receive(s, AnswerFrame());
  }

  lemma PollingStops(s: Stack) returns (after: Stack)
    requires StackValid(s) && SomeDirty(s.link.e)
    ensures Follows(s, StopPolling, after) && !NoneStranded(after.link.e)
  {
    hide SomeDirty, Follows, StackValid;
    ValidIsShaped(s);
    FollowedByStep(s, StopPolling);
    after := Step(s, StopPolling);
    StopKeepsDirt(s, StopPolling);
  }

  lemma FourSteps(states: seq<Stack>, events: seq<Event>)
    requires |states| == 5 && |events| == 4 && IsInitial(states[0])
    requires Follows(states[0], events[0], states[1]) && Follows(states[1], events[1], states[2])
    requires Follows(states[2], events[2], states[3]) && Follows(states[3], events[3], states[4])
    ensures IsRun(states, events)
  {
    hide Follows, IsInitial;
  }

  /** The failing case, from a fresh start: a target is set, polling starts, the answer comes,
      and polling stops before it is flushed. */
  lemma StoppedReadIsStranded(retryCount: int, options: CoalescingOptions, maxInFlight: int, unitId: int)
    returns (states: seq<Stack>, events: seq<Event>)
    requires options.Usable() && options.maxRegistersPerRequest >= 2 && maxInFlight >= 1
    ensures IsRun(states, events)
    ensures events == [Retarget([TARGET]), StartPolling, DataArrives(AnswerFrame()), StopPolling]
    ensures !NoneStranded(states[4].link.e)
  {
    hide Targeted, Asked, AnswerFrame, SomeDirty, StackValid, Follows, IsInitial, IsRun, NoneStranded;
    var s0 := InitialStack(Tcp, retryCount, options, maxInFlight, unitId);
    FreshIsInitial(retryCount, options, maxInFlight, unitId);
    var s1 := TargetIsSet(s0);
    var s2 := PollingStarts(s1);
    var s3 := AnswerIsStored(s2);
    var s4 := PollingStops(s3);
    states := [s0, s1, s2, s3, s4];
    events := [Retarget([TARGET]), StartPolling, DataArrives(AnswerFrame()), StopPolling];
    FourSteps(states, events);
  }

  lemma FreshIsInitial(retryCount: int, options: CoalescingOptions, maxInFlight: int, unitId: int)
    requires options.Usable() && maxInFlight >= 1
    ensures IsInitial(InitialStack(Tcp, retryCount, options, maxInFlight, unitId))
    ensures StackValid(InitialStack(Tcp, retryCount, options, maxInFlight, unitId))
  {
    InitialValid(Tcp, retryCount, options, maxInFlight, unitId);
  }
}
