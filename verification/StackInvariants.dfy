/** Every state that a run of allowed events can reach is consistent. The main results about
    cycles and windows are read off at the end. */
module StackInvariants {
  import opened Numbers
  import opened RegisterTypes
  import opened ReadCoalescer
  import opened PduCodec
  import PlannerCoverage
  import opened Caches
  import opened Transactions
  import opened Polling
  import opened OneShots
  import opened PollStack
  import opened Accounting
  import opened CycleInvariants

  /** Plans and caches are those of the targets. */
  predicate Configured(e: Engine) {
    && e.options.Usable()
    && e.plans == Plans(e.targets, e.options)
    && CachesFit(e.targets, e.caches)
  }

  ghost predicate StackValid(s: Stack) {
    Consistent(s.link, []) && Configured(s.link.e) && s.c.correlationId < GENERATION_UNIT
  }

  // ----- what a reply does to the engine is confined to its caches and logs -----

  /** The two engines are at the same point of the same cycle of the same configuration. */
  predicate SameCycle(a: Engine, b: Engine) {
    && ProgressOf(a) == ProgressOf(b)
    && a.plans == b.plans && a.targets == b.targets && a.options == b.options
  }

  lemma ApplyKeepsCycle(e: Engine, plan: ReadRequestPlan, pdu: seq<byte>)
    requires CachesFit(e.targets, e.caches)
    ensures SameCycle(e, ApplyPlanResponse(e, plan, pdu))
    ensures CachesFit(e.targets, ApplyPlanResponse(e, plan, pdu).caches)
  {
    match DecodePlanResponse(plan, pdu)
    case Ok(values) => ApplySlicesFit(e.targets, e.caches, plan.covered, values);
    case _ => ReportKeepsCycle(e, plan.covered);
  }

  lemma ReportKeepsCycle(e: Engine, covered: seq<CoveredTarget>)
    ensures SameCycle(e, ReportFailure(e, covered))
  {
    var more := [PollFailed] + FailedTargets(covered);
    assert ReportFailure(e, covered).signals == e.signals + more;
    CompletionsAppend(e.signals, more);
    NoneCompleted(more);
  }

  lemma {:induction false} PumpKeepsConfiguration(l: Link)
    ensures Pump(l).e == l.e.(nextPlan := Pump(l).e.nextPlan, outstanding := Pump(l).e.outstanding)
    decreases |l.e.plans| - l.e.nextPlan
  {
    if CanIssue(l) {
      PumpKeepsConfiguration(IssueNext(l));
    }
  }

  lemma SettlingKeepsConfiguration(l: Link, i: int)
    ensures Configured(l.e) ==> Configured(NoteRequestSettled(l, i).e)
    ensures NoteRequestSettled(l, i).e.generation == l.e.generation
  {
    PumpKeepsConfiguration(l.(e := Settle(l.e, i)));
  }

  // ----- replies -----

  lemma AnswerValid(s: Stack, i: nat, pdu: seq<byte>)
    requires StackValid(s) && i < |s.link.m.pending|
    ensures StackValid(Answer(s, i, pdu))
  {
    var l, r := s.link, s.link.m.pending[i];
    var after := Complete(l.m, i, pdu);
    CompleteRemoves(l.m, i, pdu);
    RequestEnds(l, [], after, l.e, [], r);
    if l.e.running && IsGeneration(r.correlationId, l.e.generation) {
      var index := PlanIndexOf(r.correlationId);
      var applied := ApplyPlanResponse(l.e, l.e.plans[index], pdu);
      ApplyKeepsCycle(l.e, l.e.plans[index], pdu);
      RequestEnds(l, [], after, applied, [], r);
      SettlingKeepsConfiguration(Link(after, applied), index);
    }
  }

  lemma BufferBalanced(m: Manager, p: Progress, buffer: seq<byte>)
    requires Balanced(m, p, [])
    ensures Balanced(m.(receiveBuffer := buffer), p, [])
  {
    assert Accounted(m.(receiveBuffer := buffer)) by {
      assert forall serial: nat :: serial in m.(receiveBuffer := buffer).outcomes <==> serial in m.outcomes;
    }
  }

  lemma WithBufferValid(s: Stack, buffer: seq<byte>)
    requires StackValid(s)
    ensures StackValid(WithBuffer(s, buffer))
  {
    BufferBalanced(s.link.m, ProgressOf(s.link.e), buffer);
  }

  lemma DeliverValid(s: Stack, a: Arrival)
    requires StackValid(s)
    ensures StackValid(Deliver(s, a))
  {
    if a.Reply? && MatchOf(s.link.m.pending, a.transactionId) < |s.link.m.pending| {
      AnswerValid(s, MatchOf(s.link.m.pending, a.transactionId), a.pdu);
    }
  }

  lemma {:induction false} ConsumeValid(s: Stack)
    requires StackValid(s)
    ensures StackValid(Consume(s))
    decreases |s.link.m.receiveBuffer|
  {
    var m := s.link.m;
    var next := NextArrival(m.mode, m.receiveBuffer);
    if m.pending != [] && next.Some? {
      var taken := WithBuffer(s, m.receiveBuffer[next.value.size..]);
      WithBufferValid(s, m.receiveBuffer[next.value.size..]);
      DeliverValid(taken, next.value);
      ConsumeValid(Deliver(taken, next.value));
    }
  }

  // ----- timeouts -----

  lemma {:induction false} SweepAttributed(pending: seq<PendingRequest>, expired: set<nat>, retryCount: int,
                                           generation: u32, nextPlan: nat)
    ensures var swept := Sweep(pending, expired, retryCount);
            Attributed(pending, generation, nextPlan) ==>
              Attributed(swept.kept, generation, nextPlan) && Attributed(swept.exhausted, generation, nextPlan)
  {
    if pending != [] {
      SweepAttributed(pending[..|pending| - 1], expired, retryCount, generation, nextPlan);
    }
  }

  lemma {:induction false} SweepOneShots(pending: seq<PendingRequest>, expired: set<nat>, retryCount: int)
    ensures var swept := Sweep(pending, expired, retryCount);
            OnlyOneShots(pending) ==> OnlyOneShots(swept.kept) && OnlyOneShots(swept.exhausted)
  {
    if pending != [] {
      SweepOneShots(pending[..|pending| - 1], expired, retryCount);
    }
  }

  lemma SweepKeepsPlans(m: Manager, p: Progress, expired: set<nat>)
    requires PlansAccounted(m.pending, [], p)
    ensures PlansAccounted(AfterSweep(m, expired).pending, Sweep(m.pending, expired, m.retryCount).exhausted, p)
  {
    var swept := Sweep(m.pending, expired, m.retryCount);
    forall i: nat
      ensures PlanAccounted(swept.kept, swept.exhausted, p, i)
    {
      assert PlanAccounted(m.pending, [], p, i);
      SweepSums(m.pending, expired, m.retryCount, PollsOf(p.generation, i));
    }
  }

  lemma SweepKeepsBudget(m: Manager, p: Progress, expired: set<nat>)
    requires Budgeted(m, p) && AttemptsBounded(m.pending, m.retryCount)
    ensures Budgeted(AfterSweep(m, expired), p)
  {
    var swept := Sweep(m.pending, expired, m.retryCount);
    SweepSlack(m.pending, expired, m.retryCount, p.generation);
    PollTransmissionsAppend(m.wire, Transmissions(m.mode, swept.resent), p.generation);
    TransmissionsOfPolls(m.mode, swept.resent, p.generation);
  }

  lemma SweepConsistent(l: Link, expired: set<nat>)
    requires Consistent(l, [])
    ensures Consistent(Link(AfterSweep(l.m, expired), l.e), Sweep(l.m.pending, expired, l.m.retryCount).exhausted)
  {
    var m, p := l.m, ProgressOf(l.e);
    AfterSweepValid(m, expired);
    if Active(p) {
      SweepAttributed(m.pending, expired, m.retryCount, p.generation, p.nextPlan);
      SweepSums(m.pending, expired, m.retryCount, Polls(p.generation));
      SweepKeepsPlans(m, p, expired);
      SweepKeepsBudget(m, p, expired);
    } else {
      SweepOneShots(m.pending, expired, m.retryCount);
    }
  }

  /** Valid but for requests that have been given up and not yet reported. */
  ghost predicate FailingValid(s: Stack, doomed: seq<PendingRequest>) {
    Consistent(s.link, doomed) && Configured(s.link.e) && s.c.correlationId < GENERATION_UNIT
  }

  lemma FailValid(s: Stack, doomed: seq<PendingRequest>)
    requires FailingValid(s, doomed) && doomed != []
    ensures FailingValid(Fail(s, doomed[0].correlationId), doomed[1..])
  {
    var l, r := s.link, doomed[0];
    ReportRemoves(l.m, doomed);
    RequestEnds(l, doomed, l.m, l.e, doomed[1..], r);
    if l.e.running && IsGeneration(r.correlationId, l.e.generation) {
      var index := PlanIndexOf(r.correlationId);
      var reported := ReportFailure(l.e, l.e.plans[index].covered);
      ReportKeepsCycle(l.e, l.e.plans[index].covered);
      RequestEnds(l, doomed, l.m, reported, doomed[1..], r);
      SettlingKeepsConfiguration(Link(l.m, reported), index);
    }
  }

  lemma {:induction false} FailAllValid(s: Stack, doomed: seq<PendingRequest>)
    requires FailingValid(s, doomed)
    ensures StackValid(FailAll(s, doomed))
    decreases |doomed|
  {
    if doomed != [] {
      FailValid(s, doomed);
      FailAllValid(Fail(s, doomed[0].correlationId), doomed[1..]);
    }
  }

  lemma ExpireValid(s: Stack, expired: set<nat>)
    requires StackValid(s)
    ensures StackValid(Expire(s, expired))
  {
    SweepConsistent(s.link, expired);
    FailAllValid(s.(link := s.link.(m := AfterSweep(s.link.m, expired))),
                 Sweep(s.link.m.pending, expired, s.link.m.retryCount).exhausted);
  }

  // ----- timers and user calls -----

  lemma {:induction false} NoPollsLeft(requests: seq<PendingRequest>, generation: u32, nextPlan: nat)
    requires Attributed(requests, generation, nextPlan) && Sum(requests, Polls(generation)) == 0
    ensures OnlyOneShots(requests)
  {
    if requests != [] {
      var rest := requests[..|requests| - 1];
      SumsOfPolls(rest, generation, 0);
      NoPollsLeft(rest, generation, nextPlan);
      forall k | 0 <= k < |requests|
        ensures requests[k].correlationId < GENERATION_UNIT
      {
        if k < |rest| {
          assert rest[k] == requests[k];
        }
      }
    }
  }

  lemma BeginCycleConfigured(l: Link)
    requires Configured(l.e)
    ensures Configured(BeginCycle(l).e)
  {
    if l.e.running && l.e.plans != [] {
      PumpKeepsConfiguration(Rewound(l));
    }
  }

  lemma IntervalValid(s: Stack)
    requires StackValid(s) && s.link.e.intervalArmed
    ensures StackValid(s.(link := Polling.IntervalFires(s.link)))
  {
    var l := s.link.(e := s.link.e.(intervalArmed := false));
    NoPollsLeft(s.link.m.pending, l.e.generation, l.e.nextPlan);
    BeginCycleConsistent(l);
    BeginCycleConfigured(l);
  }

  lemma RetargetValid(s: Stack, targets: seq<PollTarget>)
    requires StackValid(s) && s.link.e.generation < 0xFFFF_FFFF
    requires |Plans(targets, s.link.e.options)| < 0x8000_0000
    ensures StackValid(s.(link := SetTargets(s.link, targets)))
  {
    var l := Configure(s.link, targets);
    ConfigureConfigures(s.link, targets);
    ConfigureClean(s.link, targets);
    if l.e.running {
      BeginCycleConsistent(l);
      BeginCycleConfigured(l);
    }
  }

  lemma ConfigureConfigures(l: Link, targets: seq<PollTarget>)
    requires l.e.options.Usable()
    ensures Configured(Configure(l, targets).e)
  {
    FreshCachesFit(targets);
  }

  lemma ConfigureClean(l: Link, targets: seq<PollTarget>)
    requires Consistent(l, []) && l.e.options.Usable() && l.e.generation < 0xFFFF_FFFF
    requires |Plans(targets, l.e.options)| < 0x8000_0000
    ensures var c := Configure(l, targets);
            && ManagerValid(c.m) && c.m.pending == [] && !c.e.intervalArmed
            && c.e.maxInFlight >= 1 && |c.e.plans| < 0x8000_0000 && c.e.generation > 0
            && AllExact(c.e.record.completed, MaxAttempts(c.m.retryCount))
            && CompletionsIn(c.e.signals) == |c.e.record.completed|
  {
    hide ManagerValid, Attributed, PlansAccounted, Budgeted, AllExact, EndAll, FreshCaches, Plans, CompletionsIn;
    CancelAllValid(l.m);
  }

  lemma ReconfigureValid(s: Stack, options: CoalescingOptions)
    requires StackValid(s) && Allowed(s, Reconfigure(options))
    ensures StackValid(s.(link := s.link.(e := SetCoalescingOptions(s.link.e, options))))
  {
  }

  lemma StartValid(s: Stack)
    requires StackValid(s) && s.link.e.generation > 0
    ensures StackValid(s.(link := Polling.Start(s.link)))
  {
    if !s.link.e.running {
      var l := s.link.(e := s.link.e.(running := true));
      BeginCycleConsistent(l);
      BeginCycleConfigured(l);
    }
  }

  lemma StopValid(s: Stack)
    requires StackValid(s)
    ensures StackValid(s.(link := Polling.Stop(s.link)))
  {
    CancelAllValid(s.link.m);
  }

  lemma {:induction false} UpdatesCompleteNothing(targets: seq<PollTarget>, caches: seq<TargetCache>, n: nat)
    requires n <= |caches| <= |targets|
    ensures CompletionsIn(DirtyUpdates(targets, caches, n)) == 0
  {
    if n > 0 {
      var before, update := DirtyUpdates(targets, caches, n - 1), UpdateOf(targets, caches, n - 1);
      UpdatesCompleteNothing(targets, caches, n - 1);
      if caches[n - 1].dirty {
        CompletionsAppend(before, [update]);
        NoneCompleted([update]);
      } else {
        assert DirtyUpdates(targets, caches, n) == before;
      }
    }
  }

  lemma FlushValid(s: Stack)
    requires StackValid(s)
    ensures StackValid(s.(link := s.link.(e := Flush(s.link.e))))
  {
    var e := s.link.e;
    UpdatesCompleteNothing(e.targets, e.caches, |e.caches|);
    CompletionsAppend(e.signals, DirtyUpdates(e.targets, e.caches, |e.caches|));
    assert SameCycle(e, Flush(e));
  }

  lemma OneShotPlans(pending: seq<PendingRequest>, p: Progress, r: PendingRequest)
    requires PlansAccounted(pending, [], p) && p.generation > 0 && r.correlationId < GENERATION_UNIT
    ensures PlansAccounted(pending + [r], [], p)
  {
    forall i: nat
      ensures PlanAccounted(pending + [r], [], p, i)
    {
      assert PlanAccounted(pending, [], p, i);
      SumSnoc(pending, r, PollsOf(p.generation, i));
    }
  }

  lemma OneShotAttributed(pending: seq<PendingRequest>, r: PendingRequest, generation: u32, nextPlan: nat)
    requires r.correlationId < GENERATION_UNIT
    ensures Attributed(pending, generation, nextPlan) ==> Attributed(pending + [r], generation, nextPlan)
    ensures OnlyOneShots(pending) ==> OnlyOneShots(pending + [r])
  {
  }

  lemma OneShotWeighs(generation: u32, r: PendingRequest)
    requires generation > 0 && r.correlationId < GENERATION_UNIT
    ensures Weight(Polls(generation), r) == 0
  {
  }

  lemma OneShotBalanced(m: Manager, p: Progress, unitId: u8, pdu: seq<byte>, id: nat)
    requires Balanced(m, p, []) && id < GENERATION_UNIT
    ensures Balanced(Send(m, unitId, pdu, id), p, [])
  {
    hide FrameFor, ManagerValid, PlansAccounted, Budgeted, AllExact, Attributed, OnlyOneShots, Sum, Weight;
    var r := NewRequest(m, unitId, pdu, id);
    SendValid(m, unitId, pdu, id);
    OneShotAttributed(m.pending, r, p.generation, p.nextPlan);
    if Active(p) {
      OneShotWeighs(p.generation, r);
      SumSnoc(m.pending, r, Polls(p.generation));
      OneShotPlans(m.pending, p, r);
      OneShotBudget(m, p, unitId, pdu, id);
    }
  }

  lemma OneShotConsistent(l: Link, unitId: u8, pdu: seq<byte>, id: nat)
    requires Consistent(l, []) && id < GENERATION_UNIT
    ensures Consistent(l.(m := Send(l.m, unitId, pdu, id)), [])
  {
    OneShotBalanced(l.m, ProgressOf(l.e), unitId, pdu, id);
  }

  lemma OneShotValid(s: Stack, request: Request)
    requires StackValid(s) && s.c.correlationId + 1 < GENERATION_UNIT
    ensures StackValid(OneShot(s, request))
  {
    hide Consistent, RequestPdu, Send, Plans;
    OneShotConsistent(s.link, UnitByte(s.c), RequestPdu(request), s.c.correlationId + 1);
  }

  lemma OneShotBudget(m: Manager, p: Progress, unitId: u8, pdu: seq<byte>, id: nat)
    requires Budgeted(m, p) && p.generation > 0 && id < GENERATION_UNIT
    ensures Budgeted(Send(m, unitId, pdu, id), p)
  {
    var r := NewRequest(m, unitId, pdu, id);
    var t := Transmission(r.serial, id, FrameFor(m.mode, r));
    SumSnoc(m.pending, r, Slack(p.generation, MaxAttempts(m.retryCount)));
    PollTransmissionsSnoc(m.wire, t, p.generation);
    assert id / GENERATION_UNIT == 0;
  }

  // ----- every event, every run -----

  lemma StepValid(s: Stack, event: Event)
    requires StackValid(s) && Allowed(s, event)
    ensures StackValid(Step(s, event))
  {
    match event
    case DataArrives(data) =>
      if s.link.m.pending != [] {
        WithBufferValid(s, s.link.m.receiveBuffer + data);
        ConsumeValid(WithBuffer(s, s.link.m.receiveBuffer + data));
      }
    case DeadlinesPass(expired) => ExpireValid(s, expired);
    case IntervalTimeout => IntervalValid(s);
    case FlushTimeout => FlushValid(s);
    case Retarget(targets) => RetargetValid(s, targets);
    case Reconfigure(options) => ReconfigureValid(s, options);
    case StartPolling => StartValid(s);
    case StopPolling => StopValid(s);
    case SendOneShot(request) => OneShotValid(s, request);
  }

  /** `states` is a run: it starts fresh and each state follows from the one before it by
      an allowed event. */
  ghost predicate IsRun(states: seq<Stack>, events: seq<Event>) {
    && |states| == |events| + 1
    && IsInitial(states[0])
    && forall k :: 0 <= k < |events| ==> Follows(states[k], events[k], states[k + 1])
  }

  ghost predicate IsInitial(s: Stack) {
    exists mode: FramingMode, retryCount: int, options: CoalescingOptions, maxInFlight: int, unitId: int ::
      options.Usable() && maxInFlight >= 1 && s == InitialStack(mode, retryCount, options, maxInFlight, unitId)
  }

  predicate Follows(s: Stack, event: Event, after: Stack) {
    Shaped(s.link.e) && Allowed(s, event) && after == Step(s, event)
  }

  lemma InitialValid(mode: FramingMode, retryCount: int, options: CoalescingOptions, maxInFlight: int, unitId: int)
    requires options.Usable() && maxInFlight >= 1
    ensures StackValid(InitialStack(mode, retryCount, options, maxInFlight, unitId))
  {
  }

  lemma {:induction false} RunsAreValid(states: seq<Stack>, events: seq<Event>)
    requires IsRun(states, events)
    ensures forall k :: 0 <= k < |states| ==> StackValid(states[k])
  {
    var mode: FramingMode, retryCount: int, options: CoalescingOptions, maxInFlight: int, unitId: int :|
      options.Usable() && maxInFlight >= 1 && states[0] == InitialStack(mode, retryCount, options, maxInFlight, unitId);
    InitialValid(mode, retryCount, options, maxInFlight, unitId);
    for k := 0 to |events|
      invariant forall j :: 0 <= j <= k ==> StackValid(states[j])
    {
      assert Follows(states[k], events[k], states[k + 1]);
      StepValid(states[k], events[k]);
    }
  }
}
