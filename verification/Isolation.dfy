/** Traffic that must not meet: replies of an abandoned configuration and the new one, and
    one-shots and polls. */
module Isolation {
  import opened Numbers
  import opened RegisterTypes
  import opened ReadCoalescer
  import opened PduCodec
  import opened Caches
  import opened Transactions
  import opened Polling
  import opened OneShots
  import opened PollStack
  import opened Accounting
  import opened CycleInvariants
  import opened StackInvariants
  import opened Provenance

  // ----- over TCP, only replies to current requests count -----

  /** The request is one of the last 65536 sent, so its 16-bit id still identifies it. */
  predicate Recent(m: Manager, serial: nat) {
    1 <= serial <= m.sent && m.sent - serial < 0x1_0000
  }

  predicate AllRecent(m: Manager) {
    forall i :: 0 <= i < |m.pending| ==> m.sent - m.pending[i].serial < 0x1_0000
  }

  /** A reply to a request that has already ended - late, duplicated or out of order -
      changes nothing at all, in any state a frame can meet. */
  lemma EndedRequestsAreDeaf(s: Stack, serial: nat, size: nat, pdu: seq<byte>)
    requires Sound(s) && Recent(s.link.m, serial) && AllRecent(s.link.m)
    requires serial in s.link.m.outcomes
    ensures Deliver(s, Reply(size, Some(Truncate16(serial)), pdu)) == s
  {
    assert Consistent(s.link, []);
    ReplyMatchesItsRequest(s.link.m, serial, Truncate16(serial));
  }

  /** In particular, after a retarget no reply to a request sent before it has any effect. */
  lemma OldRepliesChangeNothing(s: Stack, serial: nat, size: nat, pdu: seq<byte>)
    requires Sound(s) && Recent(s.link.m, serial) && AllRecent(s.link.m)
    requires serial <= s.link.e.record.retargetedAt
    ensures Deliver(s, Reply(size, Some(Truncate16(serial)), pdu)) == s
  {
    assert Consistent(s.link, []);
    ReplyMatchesItsRequest(s.link.m, serial, Truncate16(serial));
  }

  /** What the caches take in, they take from a reply to a request that was sent after the
      retarget, carries the read of one of the current plans, and has this reply's id. */
  lemma CachesTakeOnlyFreshReplies(s: Stack, size: nat, transactionId: u16, pdu: seq<byte>)
    requires Sound(s)
    requires Deliver(s, Reply(size, Some(transactionId), pdu)).link.e.caches != s.link.e.caches
    ensures var l, i := s.link, FindTransaction(s.link.m.pending, transactionId);
            && i < |l.m.pending|
            && l.m.pending[i].transactionId == transactionId && l.m.pending[i].serial > l.e.record.retargetedAt
            && var index := l.m.pending[i].correlationId % GENERATION_UNIT;
               && index < |l.e.plans|
               && l.m.pending[i].requestPdu == PlanPdu(l.e.plans[index])
               && DecodePlanResponse(l.e.plans[index], pdu).Ok?
               && Deliver(s, Reply(size, Some(transactionId), pdu)).link.e.caches
                  == ApplySlices(l.e.caches, l.e.plans[index].covered, DecodePlanResponse(l.e.plans[index], pdu).value)
  {
    hide Consistent, Configured, PlanPdu, ApplySlices, DecodePlanResponse, ControllerResponse, HandleResponse;
    var l := s.link;
    var i := FindTransaction(l.m.pending, transactionId);
    assert i < |l.m.pending|;
    assert Genuine(l.m.pending[i], l.e.plans, s.c.correlationId);
    if IsPoll(l.m.pending[i]) {
      AnswerPoll(s, i, pdu);
    } else {
      AnswerOneShot(s, i, pdu);
    }
  }

  lemma AnswerOneShot(s: Stack, i: nat, pdu: seq<byte>)
    requires (s.link.e.running ==> s.link.e.generation > 0) && i < |s.link.m.pending| && !IsPoll(s.link.m.pending[i])
    ensures Answer(s, i, pdu).link == Link(Complete(s.link.m, i, pdu), s.link.e)
    ensures Fail(s, s.link.m.pending[i].correlationId).link == s.link
  {
    ForeignIdsIgnored(s.link, s.link.m.pending[i].correlationId, pdu);
    ForeignIdsIgnored(s.link.(m := Complete(s.link.m, i, pdu)), s.link.m.pending[i].correlationId, pdu);
  }

  lemma ForeignIdsIgnored(l: Link, correlationId: nat, pdu: seq<byte>)
    requires correlationId < GENERATION_UNIT && (l.e.running ==> l.e.generation > 0)
    ensures HandleResponse(l, correlationId, pdu) == l && HandleFailure(l, correlationId) == l
  {
    assert correlationId / GENERATION_UNIT == 0;
    assert l.e.running ==> !IsGeneration(correlationId, l.e.generation);
  }

  /** A pending poll belongs to the configuration in force. */
  lemma PollIsCurrent(l: Link, i: nat)
    requires Consistent(l, []) && i < |l.m.pending| && IsPoll(l.m.pending[i])
    ensures Active(ProgressOf(l.e)) && IsGeneration(l.m.pending[i].correlationId, l.e.generation)
    ensures PlanIndexOf(l.m.pending[i].correlationId) == l.m.pending[i].correlationId % GENERATION_UNIT < |l.e.plans|
  {
  }

  lemma AnswerPoll(s: Stack, i: nat, pdu: seq<byte>)
    requires StackValid(s) && i < |s.link.m.pending| && IsPoll(s.link.m.pending[i])
    ensures var index := s.link.m.pending[i].correlationId % GENERATION_UNIT;
            && index < |s.link.e.plans|
            && Answer(s, i, pdu).link.e.caches == ApplyPlanResponse(s.link.e, s.link.e.plans[index], pdu).caches
  {
    PollIsCurrent(s.link, i);
    var index := s.link.m.pending[i].correlationId % GENERATION_UNIT;
    SettlingKeepsCaches(Link(Complete(s.link.m, i, pdu), ApplyPlanResponse(s.link.e, s.link.e.plans[index], pdu)), index);
  }

  lemma SettlingKeepsCaches(l: Link, index: int)
    ensures NoteRequestSettled(l, index).e.caches == l.e.caches
    ensures NoteRequestSettled(l, index).e.plans == l.e.plans && NoteRequestSettled(l, index).e.targets == l.e.targets
  {
    PumpKeepsConfiguration(l.(e := Settle(l.e, index)));
  }

  // ----- one-shots and polls -----

  /** Packing generation and plan index into one id loses nothing. */
  lemma CorrelationRoundTrip(generation: u32, planIndex: nat, other: u32)
    requires planIndex < 0x8000_0000
    ensures IsGeneration(CorrelationId(generation, planIndex), other) <==> other == generation
    ensures PlanIndexOf(CorrelationId(generation, planIndex)) == planIndex
  {
  }

  /** Neither a reply to a poll nor its timeout touches the controller. */
  lemma PollsLeaveOneShotsAlone(s: Stack, i: nat, pdu: seq<byte>)
    requires Sound(s) && i < |s.link.m.pending| && IsPoll(s.link.m.pending[i])
    ensures Answer(s, i, pdu).c == s.c
    ensures Fail(s, s.link.m.pending[i].correlationId).c == s.c
  {
  }

  /** A reply to a one-shot removes that request and does nothing else to the manager or the
      poll engine; a timeout of a one-shot does nothing to them either. */
  lemma OneShotsLeavePollingAlone(s: Stack, i: nat, pdu: seq<byte>)
    requires Sound(s) && i < |s.link.m.pending| && !IsPoll(s.link.m.pending[i])
    ensures Answer(s, i, pdu).link == Link(Complete(s.link.m, i, pdu), s.link.e)
    ensures Fail(s, s.link.m.pending[i].correlationId).link == s.link
  {
    AnswerOneShot(s, i, pdu);
  }

  /** Among the pending requests at most one is the controller's latest, and only a reply to
      that one is taken for the answer. */
  lemma OnlyTheLatestOneShotAnswers(s: Stack, i: nat, j: nat, pdu: seq<byte>)
    requires Sound(s) && i < |s.link.m.pending| && j < |s.link.m.pending|
    requires s.link.m.pending[i].correlationId == s.c.correlationId && j != i
    ensures s.link.m.pending[j].correlationId != s.c.correlationId
    ensures Answer(s, j, pdu).c == s.c
  {
  }

  /** The latest one-shot's answer is decoded as the operation that asked for it. */
  lemma LatestOneShotIsAnswered(s: Stack, i: nat, pdu: seq<byte>)
    requires i < |s.link.m.pending| && s.link.m.pending[i].correlationId == s.c.correlationId
    ensures Answer(s, i, pdu).c == s.c.(operation := NoOperation, results := s.c.results + ResultOf(s.c, pdu))
  {
  }

  /** Before the first retarget the generation is 0 and there are no plans. */
  predicate UntargetedIsIdle(e: Engine) {
    e.generation == 0 ==> e.plans == [] && e.nextPlan == 0 && e.outstanding == 0
  }

  /** A reply to a one-shot, and likewise its timeout, leaves the engine alone exactly if the
      engine is not running in generation 0, which is to say: not started before its first
      retarget. */
  lemma OneShotsIgnoredIff(l: Link, correlationId: nat, pdu: seq<byte>)
    requires UntargetedIsIdle(l.e) && correlationId < GENERATION_UNIT
    ensures HandleResponse(l, correlationId, pdu) == l <==> !(l.e.running && l.e.generation == 0)
    ensures HandleFailure(l, correlationId) == l <==> !(l.e.running && l.e.generation == 0)
  {
    assert correlationId / GENERATION_UNIT == 0;
    if l.e.running && l.e.generation == 0 {
      var index := PlanIndexOf(correlationId);
      var settled := l.(e := Settle(l.e, index));
      assert Pump(settled) == settled;
      assert |NoteRequestSettled(l, index).e.signals| == |l.e.signals| + 1;
      var failed := l.(e := Settle(ReportFailure(l.e, []), index));
      assert Pump(failed) == failed;
      assert |HandleFailure(l, correlationId).e.signals| == |l.e.signals| + 2;
    }
  }

  /** In generation 0 the engine has no targets and does not run; later generations do not
      come back to it. */
  predicate Untargeted(e: Engine) {
    && UntargetedIsIdle(e)
    && (e.generation == 0 ==> !e.running && e.targets == [])
  }

  lemma ResponseKeepsGeneration(l: Link, correlationId: nat, pdu: seq<byte>)
    ensures HandleResponse(l, correlationId, pdu).e.generation == l.e.generation
    ensures HandleFailure(l, correlationId).e.generation == l.e.generation
    ensures !l.e.running ==> HandleResponse(l, correlationId, pdu) == l && HandleFailure(l, correlationId) == l
  {
    hide NoteRequestSettled, ApplySlices, ImmediateUpdates, DecodePlanResponse, FailedTargets;
    var index := PlanIndexOf(correlationId);
    var covered := if 0 <= index < |l.e.plans| then l.e.plans[index].covered else [];
    SettlingKeepsConfiguration(l.(e := UseReply(l.e, index, pdu)), index);
    SettlingKeepsConfiguration(l.(e := ReportFailure(l.e, covered)), index);
  }

  /** The generation stays, and an engine that does not run is left alone. */
  predicate Unheeded(a: Engine, b: Engine) {
    b.generation == a.generation && (!a.running ==> b == a)
  }

  lemma DeliverUnheeded(s: Stack, a: Arrival)
    ensures Unheeded(s.link.e, Deliver(s, a).link.e)
  {
    hide HandleResponse;
    if a.Reply? && MatchOf(s.link.m.pending, a.transactionId) < |s.link.m.pending| {
      var i := MatchOf(s.link.m.pending, a.transactionId);
      ResponseKeepsGeneration(s.link.(m := Complete(s.link.m, i, a.pdu)), s.link.m.pending[i].correlationId, a.pdu);
    }
  }

  lemma {:induction false} ConsumeUnheeded(s: Stack)
    ensures Unheeded(s.link.e, Consume(s).link.e)
    decreases |s.link.m.receiveBuffer|
  {
    hide Deliver, NextArrival;
    var m := s.link.m;
    var next := NextArrival(m.mode, m.receiveBuffer);
    if m.pending != [] && next.Some? {
      var taken := WithBuffer(s, m.receiveBuffer[next.value.size..]);
      DeliverUnheeded(taken, next.value);
      ConsumeUnheeded(Deliver(taken, next.value));
    }
  }

  lemma {:induction false} FailuresUnheeded(s: Stack, doomed: seq<PendingRequest>)
    ensures Unheeded(s.link.e, FailAll(s, doomed).link.e)
    decreases |doomed|
  {
    hide HandleFailure;
    if doomed != [] {
      ResponseKeepsGeneration(s.link, doomed[0].correlationId, []);
      FailuresUnheeded(Fail(s, doomed[0].correlationId), doomed[1..]);
    }
  }

  lemma BeginCycleKeepsGeneration(l: Link)
    ensures BeginCycle(l).e.generation == l.e.generation
  {
    PumpKeepsConfiguration(Rewound(l));
  }

  lemma NoTargetsNoPlans(options: CoalescingOptions)
    requires options.Usable()
    ensures Plans([], options) == []
  {
    assert DistinctKeys([]) == [];
  }

  lemma StepUntargeted(s: Stack, event: Event)
    requires StackValid(s) && Allowed(s, event) && Untargeted(s.link.e)
    ensures Untargeted(Step(s, event).link.e)
  {
    hide Consume, FailAll, AfterSweep, Sweep, BeginCycle, Plans, CancelAll;
    match event
    case DataArrives(data) =>
      if s.link.m.pending != [] {
        ConsumeUnheeded(WithBuffer(s, s.link.m.receiveBuffer + data));
      }
    case DeadlinesPass(expired) =>
      FailuresUnheeded(s.(link := s.link.(m := AfterSweep(s.link.m, expired))),
                       Sweep(s.link.m.pending, expired, s.link.m.retryCount).exhausted);
    case IntervalTimeout =>
      assert Consistent(s.link, []);
      BeginCycleKeepsGeneration(s.link.(e := s.link.e.(intervalArmed := false)));
    case FlushTimeout =>
    case Retarget(targets) => BeginCycleKeepsGeneration(Configure(s.link, targets));
    case Reconfigure(options) => NoTargetsNoPlans(options);
    case StartPolling => BeginCycleKeepsGeneration(s.link.(e := s.link.e.(running := true)));
    case StopPolling =>
    case SendOneShot(_) =>
  }

  /** In every run, up to the first retarget, the engine is idle; and were it started then, it
      would take every reply to a one-shot for one to a poll, and every timeout. */
  lemma EarlyStartMistakesOneShots(states: seq<Stack>, events: seq<Event>, k: nat, correlationId: nat, pdu: seq<byte>)
    requires IsRun(states, events) && k < |states|
    ensures UntargetedIsIdle(states[k].link.e)
    ensures states[k].link.e.generation == 0 && correlationId < GENERATION_UNIT ==>
              var l := Polling.Start(states[k].link);
              && HandleResponse(l, correlationId, pdu) != l
              && HandleFailure(l, correlationId) != l
  {
    hide Step, Untargeted, UntargetedIsIdle, HandleResponse, HandleFailure;
    RunsAreValid(states, events);
    UntargetedAtFirst(states, events);
    for j := 0 to k
      invariant Untargeted(states[j].link.e)
    {
      assert Follows(states[j], events[j], states[j + 1]);
      StepUntargeted(states[j], events[j]);
    }
    UntargetedStart(states[k].link);
    if states[k].link.e.generation == 0 && correlationId < GENERATION_UNIT {
      OneShotsIgnoredIff(Polling.Start(states[k].link), correlationId, pdu);
    }
  }

  lemma UntargetedAtFirst(states: seq<Stack>, events: seq<Event>)
    requires IsRun(states, events)
    ensures Untargeted(states[0].link.e)
  {
  }

  lemma UntargetedStart(l: Link)
    requires Untargeted(l.e)
    ensures UntargetedIsIdle(l.e)
    ensures l.e.generation == 0 ==>
              && UntargetedIsIdle(Polling.Start(l).e)
              && Polling.Start(l).e.running && Polling.Start(l).e.generation == 0
  {
  }

  /** Why polling must not start before the first retarget: in generation 0 a one-shot's id
      is taken for a poll, and its reply completes a cycle that never was. */
  lemma GenerationZeroMistakesOneShots(pdu: seq<byte>)
    ensures var idle := InitialStack(Tcp, 0, CoalescingOptions(0, 2000, 125), 8, 1);
            var asked := OneShot(idle.(link := Polling.Start(idle.link)), ReadRegisters(Coil, 0, 1));
            |asked.link.m.pending| == 1 && Answer(asked, 0, pdu).link.e.signals == [CycleCompleted]
  {
  }
}
