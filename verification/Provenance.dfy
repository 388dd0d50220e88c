/** Where pending requests come from: all were sent since the last retarget, every poll
    carries the read request of its plan, and one-shots are numbered in the order sent. */
module Provenance {
  import opened Numbers
  import opened ReadCoalescer
  import opened PduCodec
  import opened Caches
  import opened Transactions
  import opened Polling
  import opened OneShots
  import opened PollStack
  import opened Accounting
  import opened StackInvariants

  predicate IsPoll(r: PendingRequest) {
    r.correlationId >= GENERATION_UNIT
  }

  /** A poll asks exactly what its plan wants, a one-shot has one of the numbers given out. */
  predicate Genuine(r: PendingRequest, plans: seq<ReadRequestPlan>, lastOneShot: nat) {
    if IsPoll(r) then
      var index := r.correlationId % GENERATION_UNIT;
      index < |plans| && r.unitId == plans[index].unitId && r.requestPdu == PlanPdu(plans[index])
    else 1 <= r.correlationId <= lastOneShot
  }

  predicate Traced(pending: seq<PendingRequest>, plans: seq<ReadRequestPlan>, lastOneShot: nat, retargetedAt: nat) {
    && (forall i :: 0 <= i < |pending| ==> Genuine(pending[i], plans, lastOneShot) && pending[i].serial > retargetedAt)
    && (forall i, j :: 0 <= i < j < |pending| && !IsPoll(pending[i]) && !IsPoll(pending[j]) ==>
          pending[i].correlationId < pending[j].correlationId)
  }

  predicate LinkTraced(l: Link, lastOneShot: nat) {
    && Traced(l.m.pending, l.e.plans, lastOneShot, l.e.record.retargetedAt)
    && l.e.record.retargetedAt <= l.m.sent
    && (l.e.running ==> l.e.generation > 0) && |l.e.plans| < 0x8000_0000
  }

  /** What holds of every state of every run, and of every state in the middle of a chunk. */
  ghost predicate Sound(s: Stack) {
    StackValid(s) && LinkTraced(s.link, s.c.correlationId)
  }

  lemma {:induction false} PumpTraced(l: Link, lastOneShot: nat)
    requires LinkTraced(l, lastOneShot)
    ensures LinkTraced(Pump(l), lastOneShot)
    decreases |l.e.plans| - l.e.nextPlan
  {
    if CanIssue(l) {
      IssueTraced(l, lastOneShot);
      PumpTraced(IssueNext(l), lastOneShot);
    }
  }

  lemma IssueTraced(l: Link, lastOneShot: nat)
    requires LinkTraced(l, lastOneShot) && CanIssue(l)
    ensures LinkTraced(IssueNext(l), lastOneShot)
  {
    var plan := l.e.plans[l.e.nextPlan];
    var r := NewRequest(l.m, plan.unitId, PlanPdu(plan), CorrelationId(l.e.generation, l.e.nextPlan));
    assert IsPoll(r) && r.correlationId % GENERATION_UNIT == l.e.nextPlan;
  }

  lemma SettlingTraced(l: Link, i: int, lastOneShot: nat)
    requires LinkTraced(l, lastOneShot)
    ensures LinkTraced(NoteRequestSettled(l, i), lastOneShot)
  {
    PumpTraced(l.(e := Settle(l.e, i)), lastOneShot);
  }

  lemma ResponseTraced(l: Link, correlationId: nat, pdu: seq<byte>, lastOneShot: nat)
    requires LinkTraced(l, lastOneShot)
    ensures LinkTraced(HandleResponse(l, correlationId, pdu), lastOneShot)
    ensures LinkTraced(HandleFailure(l, correlationId), lastOneShot)
  {
    hide Traced, NoteRequestSettled, ApplySlices, ImmediateUpdates, DecodePlanResponse, FailedTargets;
    var index := PlanIndexOf(correlationId);
    var applied := UseReply(l.e, index, pdu);
    var covered := if 0 <= index < |l.e.plans| then l.e.plans[index].covered else [];
    SettlingTraced(l.(e := applied), index, lastOneShot);
    SettlingTraced(l.(e := ReportFailure(l.e, covered)), index, lastOneShot);
  }

  lemma CompleteTraced(l: Link, i: nat, pdu: seq<byte>, lastOneShot: nat)
    requires LinkTraced(l, lastOneShot) && i < |l.m.pending|
    ensures LinkTraced(l.(m := Complete(l.m, i, pdu)), lastOneShot)
  {
    WithoutAt(l.m.pending, i);
  }

  lemma DeliverTraced(s: Stack, a: Arrival)
    requires LinkTraced(s.link, s.c.correlationId)
    ensures LinkTraced(Deliver(s, a).link, Deliver(s, a).c.correlationId)
    ensures Deliver(s, a).c.correlationId == s.c.correlationId
  {
    if a.Reply? {
      var i := MatchOf(s.link.m.pending, a.transactionId);
      if i < |s.link.m.pending| {
        CompleteTraced(s.link, i, a.pdu, s.c.correlationId);
        ResponseTraced(s.link.(m := Complete(s.link.m, i, a.pdu)), s.link.m.pending[i].correlationId, a.pdu, s.c.correlationId);
      }
    }
  }

  lemma {:induction false} ConsumeTraced(s: Stack)
    requires LinkTraced(s.link, s.c.correlationId)
    ensures LinkTraced(Consume(s).link, Consume(s).c.correlationId)
    decreases |s.link.m.receiveBuffer|
  {
    var m := s.link.m;
    var next := NextArrival(m.mode, m.receiveBuffer);
    if m.pending != [] && next.Some? {
      var taken := WithBuffer(s, m.receiveBuffer[next.value.size..]);
      DeliverTraced(taken, next.value);
      ConsumeTraced(Deliver(taken, next.value));
    }
  }

  // ----- timeouts -----

  /** All serials and one-shot numbers of the list lie below those of r. */
  predicate Before(pending: seq<PendingRequest>, r: PendingRequest) {
    forall i :: 0 <= i < |pending| && !IsPoll(pending[i]) && !IsPoll(r) ==> pending[i].correlationId < r.correlationId
  }

  lemma {:induction false} SweepBefore(pending: seq<PendingRequest>, expired: set<nat>, retryCount: int, r: PendingRequest)
    requires Before(pending, r)
    ensures Before(Sweep(pending, expired, retryCount).kept, r)
  {
    if pending != [] {
      SweepBefore(pending[..|pending| - 1], expired, retryCount, r);
    }
  }

  lemma {:induction false} SweepTraced(pending: seq<PendingRequest>, expired: set<nat>, retryCount: int,
                                       plans: seq<ReadRequestPlan>, lastOneShot: nat, retargetedAt: nat)
    requires Traced(pending, plans, lastOneShot, retargetedAt)
    ensures Traced(Sweep(pending, expired, retryCount).kept, plans, lastOneShot, retargetedAt)
  {
    if pending != [] {
      var rest, last := pending[..|pending| - 1], pending[|pending| - 1];
      SweepTraced(rest, expired, retryCount, plans, lastOneShot, retargetedAt);
      SweepBefore(rest, expired, retryCount, last);
    }
  }

  lemma {:induction false} FailuresTraced(s: Stack, doomed: seq<PendingRequest>)
    requires LinkTraced(s.link, s.c.correlationId)
    ensures LinkTraced(FailAll(s, doomed).link, FailAll(s, doomed).c.correlationId)
    decreases |doomed|
  {
    if doomed != [] {
      ResponseTraced(s.link, doomed[0].correlationId, [], s.c.correlationId);
      FailuresTraced(Fail(s, doomed[0].correlationId), doomed[1..]);
    }
  }

  // ----- every event, every run -----

  lemma BeginCycleTraced(l: Link, lastOneShot: nat)
    requires LinkTraced(l, lastOneShot)
    ensures LinkTraced(BeginCycle(l), lastOneShot)
  {
    PumpTraced(Rewound(l), lastOneShot);
  }

  /** With no polls pending, the plans may change under the pending one-shots. */
  lemma ReconfigureTraced(l: Link, options: CoalescingOptions, lastOneShot: nat)
    requires LinkTraced(l, lastOneShot) && OnlyOneShots(l.m.pending) && options.Usable()
    requires |Plans(l.e.targets, options)| < 0x8000_0000
    ensures LinkTraced(l.(e := SetCoalescingOptions(l.e, options)), lastOneShot)
  {
  }

  lemma ConfigureTraced(l: Link, targets: seq<PollTarget>, lastOneShot: nat)
    requires l.e.options.Usable() && l.e.generation < 0xFFFF_FFFF && |Plans(targets, l.e.options)| < 0x8000_0000
    ensures LinkTraced(Configure(l, targets), lastOneShot)
  {
  }

  lemma OneShotTraced(s: Stack, request: Request)
    requires LinkTraced(s.link, s.c.correlationId) && s.c.correlationId + 1 < GENERATION_UNIT
    ensures LinkTraced(OneShot(s, request).link, OneShot(s, request).c.correlationId)
  {
    var before, after := s.link.m.pending, OneShot(s, request).link.m.pending;
    forall i | 0 <= i < |before|
      ensures Genuine(after[i], s.link.e.plans, s.c.correlationId + 1)
    {
      assert after[i] == before[i] && Genuine(before[i], s.link.e.plans, s.c.correlationId);
    }
  }

  lemma StepTraced(s: Stack, event: Event)
    requires StackValid(s) && Allowed(s, event) && LinkTraced(s.link, s.c.correlationId)
    ensures LinkTraced(Step(s, event).link, Step(s, event).c.correlationId)
  {
    match event
    case DataArrives(data) =>
      if s.link.m.pending != [] {
        ConsumeTraced(WithBuffer(s, s.link.m.receiveBuffer + data));
      }
    case DeadlinesPass(expired) =>
      SweepTraced(s.link.m.pending, expired, s.link.m.retryCount, s.link.e.plans, s.c.correlationId,
                  s.link.e.record.retargetedAt);
      FailuresTraced(s.(link := s.link.(m := AfterSweep(s.link.m, expired))),
                     Sweep(s.link.m.pending, expired, s.link.m.retryCount).exhausted);
    case IntervalTimeout => BeginCycleTraced(s.link.(e := s.link.e.(intervalArmed := false)), s.c.correlationId);
    case Retarget(targets) =>
      ConfigureTraced(s.link, targets, s.c.correlationId);
      BeginCycleTraced(Configure(s.link, targets), s.c.correlationId);
    case StartPolling =>
      if !s.link.e.running {
        BeginCycleTraced(s.link.(e := s.link.e.(running := true)), s.c.correlationId);
      }
    case Reconfigure(options) =>
      assert Consistent(s.link, []);
      ReconfigureTraced(s.link, options, s.c.correlationId);
    case FlushTimeout =>
    case StopPolling =>
    case SendOneShot(request) => OneShotTraced(s, request);
  }

  lemma RunsAreTraced(states: seq<Stack>, events: seq<Event>, k: nat)
    requires IsRun(states, events) && k < |states|
    ensures Sound(states[k])
  {
    RunsAreValid(states, events);
    for j := 0 to k
      invariant LinkTraced(states[j].link, states[j].c.correlationId)
    {
      assert Follows(states[j], events[j], states[j + 1]);
      StepTraced(states[j], events[j]);
    }
  }

  // ----- the states inside a chunk -----

  /** The state after the first n frames of the buffer have been delivered. */
  function AfterFrames(s: Stack, n: nat): Stack
    decreases n
  {
    var m := s.link.m;
    if n == 0 || m.pending == [] then s
    else
      match NextArrival(m.mode, m.receiveBuffer)
      case None => s
      case Some(a) => AfterFrames(Deliver(WithBuffer(s, m.receiveBuffer[a.size..]), a), n - 1)
  }

  lemma BufferSound(s: Stack, buffer: seq<byte>)
    requires Sound(s)
    ensures Sound(WithBuffer(s, buffer))
  {
    WithBufferValid(s, buffer);
  }

  lemma DeliverSound(s: Stack, a: Arrival)
    requires Sound(s)
    ensures Sound(Deliver(s, a))
  {
    DeliverValid(s, a);
    DeliverTraced(s, a);
  }

  lemma {:induction false} AfterFramesSound(s: Stack, n: nat)
    requires Sound(s)
    ensures Sound(AfterFrames(s, n)) && Consume(AfterFrames(s, n)) == Consume(s)
    decreases n
  {
    hide Sound, Deliver, NextArrival;
    var m := s.link.m;
    var next := NextArrival(m.mode, m.receiveBuffer);
    if n > 0 && m.pending != [] && next.Some? {
      var taken := WithBuffer(s, m.receiveBuffer[next.value.size..]);
      BufferSound(s, m.receiveBuffer[next.value.size..]);
      DeliverSound(taken, next.value);
      AfterFramesSound(Deliver(taken, next.value), n - 1);
    }
  }

  /** In every run, whatever chunk arrives, the state each of its frames meets is sound, and
      what is left of the chunk leads from there to where the whole chunk leads. */
  lemma FramesMeetSoundStates(states: seq<Stack>, events: seq<Event>, k: nat, data: seq<byte>, n: nat)
    requires IsRun(states, events) && k < |states| && states[k].link.m.pending != []
    ensures var s := states[k];
            var met := AfterFrames(WithBuffer(s, s.link.m.receiveBuffer + data), n);
            Sound(met) && Consume(met) == Receive(s, data)
  {
    hide Sound, Consume, AfterFrames;
    var s := states[k];
    RunsAreTraced(states, events, k);
    BufferSound(s, s.link.m.receiveBuffer + data);
    AfterFramesSound(WithBuffer(s, s.link.m.receiveBuffer + data), n);
  }
}
