/** Timers and buffer over whole runs: the timeout is armed exactly while something is pending,
    the flush timer only while something is unsent, and the receive buffer holds nothing but
    unused bytes that came since requests were last dropped. */
module Housekeeping {
  import opened Numbers
  import opened ReadCoalescer
  import opened PlannerCoverage
  import opened Caches
  import opened CoalescedPolling
  import opened Transactions
  import opened Polling
  import opened OneShots
  import opened PollStack
  import opened Accounting
  import opened StackInvariants
  import opened Provenance
  import opened Isolation
  import opened FlushRefinement
  import opened Configuration

  // ----- the timeout -----

  /** The timeout runs if and only if there is something to wait for. */
  predicate TimeoutRight(m: Manager) {
    m.timeoutArmed <==> m.pending != []
  }

  lemma {:induction false} PumpTimeout(l: Link)
    requires TimeoutRight(l.m)
    ensures TimeoutRight(Pump(l).m)
    decreases |l.e.plans| - l.e.nextPlan
  {
    hide PlanPdu, FrameFor, CorrelationId;
    if CanIssue(l) {
      PumpTimeout(IssueNext(l));
    }
  }

  lemma ResponseTimeout(l: Link, correlationId: nat, pdu: seq<byte>)
    requires TimeoutRight(l.m)
    ensures TimeoutRight(HandleResponse(l, correlationId, pdu).m)
    ensures TimeoutRight(HandleFailure(l, correlationId).m)
  {
    hide Pump, ApplyPlanResponse, FailedTargets;
    var index := PlanIndexOf(correlationId);
    var covered := if 0 <= index < |l.e.plans| then l.e.plans[index].covered else [];
    PumpTimeout(l.(e := Settle(UseReply(l.e, index, pdu), index)));
    PumpTimeout(l.(e := Settle(ReportFailure(l.e, covered), index)));
  }

  lemma DeliverTimeout(s: Stack, a: Arrival)
    requires TimeoutRight(s.link.m)
    ensures TimeoutRight(Deliver(s, a).link.m)
  {
    hide HandleResponse;
    if a.Reply? && MatchOf(s.link.m.pending, a.transactionId) < |s.link.m.pending| {
      var i := MatchOf(s.link.m.pending, a.transactionId);
      ResponseTimeout(s.link.(m := Complete(s.link.m, i, a.pdu)), s.link.m.pending[i].correlationId, a.pdu);
    }
  }

  lemma {:induction false} ConsumeTimeout(s: Stack)
    requires TimeoutRight(s.link.m)
    ensures TimeoutRight(Consume(s).link.m)
    decreases |s.link.m.receiveBuffer|
  {
    hide Deliver, NextArrival;
    var m := s.link.m;
    var next := NextArrival(m.mode, m.receiveBuffer);
    if m.pending != [] && next.Some? {
      var taken := WithBuffer(s, m.receiveBuffer[next.value.size..]);
      DeliverTimeout(taken, next.value);
      ConsumeTimeout(Deliver(taken, next.value));
    }
  }

  lemma {:induction false} FailuresTimeout(s: Stack, doomed: seq<PendingRequest>)
    requires TimeoutRight(s.link.m)
    ensures TimeoutRight(FailAll(s, doomed).link.m)
    decreases |doomed|
  {
    hide HandleFailure;
    if doomed != [] {
      ResponseTimeout(s.link, doomed[0].correlationId, []);
      FailuresTimeout(Fail(s, doomed[0].correlationId), doomed[1..]);
    }
  }

  lemma BeginCycleTimeout(l: Link)
    requires TimeoutRight(l.m)
    ensures TimeoutRight(BeginCycle(l).m)
  {
    hide Pump;
    PumpTimeout(Rewound(l));
  }

  lemma StepTimeout(s: Stack, event: Event)
    requires Shaped(s.link.e) && Allowed(s, event) && TimeoutRight(s.link.m)
    ensures TimeoutRight(Step(s, event).link.m)
  {
    hide Consume, FailAll, Sweep, BeginCycle, Plans, FreshCaches, EndAll, Transmissions, RequestPdu, FrameFor;
    match event
    case DataArrives(data) =>
      if s.link.m.pending != [] {
        ConsumeTimeout(WithBuffer(s, s.link.m.receiveBuffer + data));
      }
    case DeadlinesPass(expired) =>
      FailuresTimeout(s.(link := s.link.(m := AfterSweep(s.link.m, expired))),
                      Sweep(s.link.m.pending, expired, s.link.m.retryCount).exhausted);
    case IntervalTimeout => BeginCycleTimeout(s.link.(e := s.link.e.(intervalArmed := false)));
    case Retarget(targets) => BeginCycleTimeout(Configure(s.link, targets));
    case StartPolling => BeginCycleTimeout(s.link.(e := s.link.e.(running := true)));
    case _ =>
  }

  /** In every run the timeout is armed exactly while a request, poll or one-shot, is pending. */
  lemma TimeoutArmedIffPending(states: seq<Stack>, events: seq<Event>, k: nat)
    requires IsRun(states, events) && k < |states|
    ensures states[k].link.m.timeoutArmed <==> states[k].link.m.pending != []
  {
    hide Step;
    InitialTimeout(states, events);
    for j := 0 to k
      invariant TimeoutRight(states[j].link.m)
    {
      assert Follows(states[j], events[j], states[j + 1]);
      StepTimeout(states[j], events[j]);
    }
  }

  lemma InitialTimeout(states: seq<Stack>, events: seq<Event>)
    requires IsRun(states, events)
    ensures TimeoutRight(states[0].link.m) && states[0].link.m.receiveBuffer == [] && !states[0].link.e.flushArmed
  {
  }

  // ----- the receive buffer -----

  /** `tail` is the end of `all`. */
  predicate IsEndOf<T(==)>(tail: seq<T>, all: seq<T>) {
    |tail| <= |all| && all[|all| - |tail|..] == tail
  }

  lemma EndsChain<T>(a: seq<T>, b: seq<T>, c: seq<T>)
    requires IsEndOf(a, b) && IsEndOf(b, c)
    ensures IsEndOf(a, c)
  {
    assert c[|c| - |a|..] == c[|c| - |b|..][|b| - |a|..];
  }

  lemma EndsAppend<T>(a: seq<T>, b: seq<T>, more: seq<T>)
    requires IsEndOf(a, b)
    ensures IsEndOf(a + more, b + more)
  {
    assert (b + more)[|b| - |a|..] == b[|b| - |a|..] + more;
  }

  /** Consuming takes bytes off the front and nothing else. */
  lemma {:induction false} ConsumeTakesFromFront(s: Stack)
    ensures IsEndOf(Consume(s).link.m.receiveBuffer, s.link.m.receiveBuffer)
    decreases |s.link.m.receiveBuffer|
  {
    hide Deliver, NextArrival;
    var m := s.link.m;
    var next := NextArrival(m.mode, m.receiveBuffer);
    if m.pending != [] && next.Some? {
      var taken := WithBuffer(s, m.receiveBuffer[next.value.size..]);
      ConsumeTakesFromFront(Deliver(taken, next.value));
      EndsChain(Consume(s).link.m.receiveBuffer, taken.link.m.receiveBuffer, m.receiveBuffer);
    }
  }

  lemma {:induction false} FailuresKeepBuffer(s: Stack, doomed: seq<PendingRequest>)
    ensures FailAll(s, doomed).link.m.receiveBuffer == s.link.m.receiveBuffer
    decreases |doomed|
  {
    hide Pump, FailedTargets;
    if doomed != [] {
      FailuresKeepBuffer(Fail(s, doomed[0].correlationId), doomed[1..]);
    }
  }

  /** The bytes that arrived while something was pending, since requests were last dropped. */
  function BytesHeard(states: seq<Stack>, events: seq<Event>, k: nat): seq<byte>
    requires k <= |events| < |states|
  {
    if k == 0 then []
    else
      match events[k - 1]
      case Retarget(_) => []
      case StopPolling => []
      case DataArrives(data) =>
        BytesHeard(states, events, k - 1) + if states[k - 1].link.m.pending != [] then data else []
      case _ => BytesHeard(states, events, k - 1)
  }

  lemma StepBuffer(s: Stack, event: Event, heard: seq<byte>)
    requires Shaped(s.link.e) && Allowed(s, event) && IsEndOf(s.link.m.receiveBuffer, heard)
    ensures var now := match event
                       case Retarget(_) => []
                       case StopPolling => []
                       case DataArrives(data) => heard + if s.link.m.pending != [] then data else []
                       case _ => heard;
            IsEndOf(Step(s, event).link.m.receiveBuffer, now)
  {
    hide Consume, FailAll, Sweep, Pump, Plans, FreshCaches, EndAll, Transmissions, RequestPdu, FrameFor, IsEndOf;
    match event
    case DataArrives(data) =>
      if s.link.m.pending != [] {
        ConsumeTakesFromFront(WithBuffer(s, s.link.m.receiveBuffer + data));
        EndsAppend(s.link.m.receiveBuffer, heard, data);
        EndsChain(Step(s, event).link.m.receiveBuffer, s.link.m.receiveBuffer + data, heard + data);
      } else {
        assert heard + [] == heard;
      }
    case DeadlinesPass(expired) =>
      FailuresKeepBuffer(s.(link := s.link.(m := AfterSweep(s.link.m, expired))),
                         Sweep(s.link.m.pending, expired, s.link.m.retryCount).exhausted);
    case Retarget(targets) => NothingIsEnd<byte>();
    case StopPolling => NothingIsEnd<byte>();
    case _ =>
  }

  lemma NothingIsEnd<T>()
    ensures IsEndOf<T>([], [])
  {
  }

  /** In every run the buffer is the unused end of what was heard since the last retarget or
      stop: no byte from before it, none that came with nothing pending, and none used already. */
  lemma BufferHoldsUnusedBytes(states: seq<Stack>, events: seq<Event>, k: nat)
    requires IsRun(states, events) && k < |states|
    ensures IsEndOf(states[k].link.m.receiveBuffer, BytesHeard(states, events, k))
  {
    hide Step, IsEndOf;
    InitialTimeout(states, events);
    NothingIsEnd<byte>();
    for j := 0 to k
      invariant IsEndOf(states[j].link.m.receiveBuffer, BytesHeard(states, events, j))
    {
      assert Follows(states[j], events[j], states[j + 1]);
      StepBuffer(states[j], events[j], BytesHeard(states, events, j));
    }
  }

  /** Bytes that come with nothing pending change nothing at all. */
  lemma UnaskedBytesChangeNothing(s: Stack, data: seq<byte>)
    requires Shaped(s.link.e) && s.link.m.pending == []
    ensures Step(s, DataArrives(data)) == s
  {
  }

  // ----- a stopped engine -----

  /** Nothing waited for, and no timer. */
  predicate IdleIfStopped(e: Engine) {
    !e.running ==> e.outstanding == 0 && !e.intervalArmed && !e.flushArmed
  }

  lemma StepIdle(s: Stack, event: Event)
    requires Shaped(s.link.e) && Allowed(s, event) && IdleIfStopped(s.link.e)
    ensures IdleIfStopped(Step(s, event).link.e)
  {
    hide Consume, FailAll, AfterSweep, Sweep, Pump, Plans, CancelAll, FreshCaches;
    match event
    case DataArrives(data) =>
      if s.link.m.pending != [] {
        ConsumeUnheeded(WithBuffer(s, s.link.m.receiveBuffer + data));
        ConsumeKeepsSetup(WithBuffer(s, s.link.m.receiveBuffer + data));
      }
    case DeadlinesPass(expired) =>
      var swept := s.(link := s.link.(m := AfterSweep(s.link.m, expired)));
      FailuresUnheeded(swept, Sweep(s.link.m.pending, expired, s.link.m.retryCount).exhausted);
      FailuresKeepSetup(swept, Sweep(s.link.m.pending, expired, s.link.m.retryCount).exhausted);
    case IntervalTimeout => BeginCycleKeepsSetup(s.link.(e := s.link.e.(intervalArmed := false)));
    case Retarget(targets) => BeginCycleKeepsSetup(Configure(s.link, targets));
    case StartPolling => BeginCycleKeepsSetup(s.link.(e := s.link.e.(running := true)));
    case _ =>
  }

  /** In every run a stopped engine waits for nothing: no polls are pending or counted, and
      neither of its timers is armed. */
  lemma StoppedIsIdle(states: seq<Stack>, events: seq<Event>, k: nat)
    requires IsRun(states, events) && k < |states| && !Started(events[..k])
    ensures var l := states[k].link;
            OnlyOneShots(l.m.pending) && l.e.outstanding == 0 && !l.e.intervalArmed && !l.e.flushArmed
  {
    hide Step, IdleIfStopped;
    InitialIdle(states, events);
    for j := 0 to k
      invariant IdleIfStopped(states[j].link.e)
    {
      assert Follows(states[j], events[j], states[j + 1]);
      StepIdle(states[j], events[j]);
    }
    RunsAreValid(states, events);
    SetupFollowsCalls(states, events, k);
    StoppedParts(states[k].link);
  }

  lemma InitialIdle(states: seq<Stack>, events: seq<Event>)
    requires IsRun(states, events)
    ensures IdleIfStopped(states[0].link.e)
  {
  }

  lemma StoppedParts(l: Link)
    requires Consistent(l, []) && IdleIfStopped(l.e) && !l.e.running
    ensures OnlyOneShots(l.m.pending) && l.e.outstanding == 0 && !l.e.intervalArmed && !l.e.flushArmed
  {
  }

  // ----- the flush timer -----

  /** The flush timer runs only for values not sent yet. */
  predicate NewsIfArmed(e: Engine) {
    e.flushArmed ==> SomeDirty(e)
  }

  lemma SameValuesSameNews(a: Engine, b: Engine)
    requires SameValues(a, b)
    ensures NewsIfArmed(a) <==> NewsIfArmed(b)
  {
  }

  lemma StoringIsNews(e: Engine, plan: ReadRequestPlan, pdu: seq<byte>)
    requires NewsIfArmed(e) && |e.caches| == |e.targets|
    requires forall k :: 0 <= k < |plan.covered| ==> plan.covered[k].targetIndex < |e.targets|
    ensures NewsIfArmed(ApplyPlanResponse(e, plan, pdu))
  {
    hide ApplySlices, ImmediateUpdates, DecodePlanResponse, SomeDirty;
    var after := ApplyPlanResponse(e, plan, pdu);
    if SomeDirty(e) {
      ApplyKeepsDirt(e, plan, pdu);
    } else if plan.covered != [] {
      match DecodePlanResponse(plan, pdu)
      case Ok(values) =>
        ApplyTouches(e.caches, plan.covered, values, plan.covered[|plan.covered| - 1].targetIndex);
        DirtyAt(after, plan.covered[|plan.covered| - 1].targetIndex);
      case _ =>
    }
  }

  lemma DirtyAt(e: Engine, i: nat)
    requires i < |e.caches| && e.caches[i].dirty
    ensures SomeDirty(e)
  {
  }

  lemma PlansNameTargets(e: Engine, p: nat)
    requires Configured(e) && p < |e.plans|
    ensures |e.caches| == |e.targets|
    ensures forall k :: 0 <= k < |e.plans[p].covered| ==> e.plans[p].covered[k].targetIndex < |e.targets|
  {
    hide Plans;
    PlansFit(e.targets, e.options);
    assert PlanFits(e.targets, e.options, e.plans[p]);
    forall k | 0 <= k < |e.plans[p].covered|
      ensures e.plans[p].covered[k].targetIndex < |e.targets|
    {
      assert SliceFits(e.targets, e.plans[p], e.plans[p].covered[k]);
    }
  }

  lemma ResponseNews(l: Link, correlationId: nat, pdu: seq<byte>)
    requires Configured(l.e) && NewsIfArmed(l.e)
    ensures NewsIfArmed(HandleResponse(l, correlationId, pdu).e)
  {
    hide Configured, NewsIfArmed, NoteRequestSettled, ApplyPlanResponse, SameValues;
    var index := PlanIndexOf(correlationId);
    if 0 <= index < |l.e.plans| {
      PlansNameTargets(l.e, index);
      StoringIsNews(l.e, l.e.plans[index], pdu);
    }
    SettlingSameValues(l.(e := UseReply(l.e, index, pdu)), index);
    SameValuesSameNews(UseReply(l.e, index, pdu), NoteRequestSettled(l.(e := UseReply(l.e, index, pdu)), index).e);
  }

  lemma DeliverNews(s: Stack, a: Arrival)
    requires Sound(s) && NewsIfArmed(s.link.e)
    ensures NewsIfArmed(Deliver(s, a).link.e)
  {
    hide HandleResponse, Consistent, Configured, NewsIfArmed;
    if a.Reply? && MatchOf(s.link.m.pending, a.transactionId) < |s.link.m.pending| {
      var i := MatchOf(s.link.m.pending, a.transactionId);
      ResponseNews(s.link.(m := Complete(s.link.m, i, a.pdu)), s.link.m.pending[i].correlationId, a.pdu);
    }
  }

  lemma {:induction false} ConsumeNews(s: Stack)
    requires Sound(s) && NewsIfArmed(s.link.e)
    ensures NewsIfArmed(Consume(s).link.e)
    decreases |s.link.m.receiveBuffer|
  {
    hide Sound, Deliver, NextArrival, SomeDirty;
    var m := s.link.m;
    var next := NextArrival(m.mode, m.receiveBuffer);
    if m.pending != [] && next.Some? {
      var taken := WithBuffer(s, m.receiveBuffer[next.value.size..]);
      BufferSound(s, m.receiveBuffer[next.value.size..]);
      DeliverNews(taken, next.value);
      DeliverSound(taken, next.value);
      ConsumeNews(Deliver(taken, next.value));
    }
  }

  lemma StepNews(s: Stack, event: Event)
    requires Sound(s) && Shaped(s.link.e) && Allowed(s, event) && !event.Retarget?
    requires NewsIfArmed(s.link.e) || event.FlushTimeout? || event.StopPolling?
    ensures NewsIfArmed(Step(s, event).link.e)
  {
    hide Sound, Consume, FailAll, AfterSweep, Sweep, BeginCycle, Plans, SameValues, SomeDirty;
    match event
    case DataArrives(data) =>
      if s.link.m.pending != [] {
        BufferSound(s, s.link.m.receiveBuffer + data);
        ConsumeNews(WithBuffer(s, s.link.m.receiveBuffer + data));
      }
    case DeadlinesPass(expired) =>
      FailuresSameValues(s.(link := s.link.(m := AfterSweep(s.link.m, expired))),
                         Sweep(s.link.m.pending, expired, s.link.m.retryCount).exhausted);
      SameValuesSameNews(s.link.e, Step(s, event).link.e);
    case IntervalTimeout =>
      var ready := s.link.(e := s.link.e.(intervalArmed := false));
      BeginCycleSameValues(ready);
      SameValuesSameNews(ready.e, BeginCycle(ready).e);
      SameCachesSameNews(s.link.e, ready.e);
    case StartPolling =>
      var ready := s.link.(e := s.link.e.(running := true));
      BeginCycleSameValues(ready);
      SameValuesSameNews(ready.e, BeginCycle(ready).e);
      SameCachesSameNews(s.link.e, ready.e);
    case Reconfigure(options) => SameCachesSameNews(s.link.e, Step(s, event).link.e);
    case _ =>
  }

  lemma SameCachesSameNews(a: Engine, b: Engine)
    requires a.caches == b.caches && a.flushArmed == b.flushArmed
    ensures NewsIfArmed(a) <==> NewsIfArmed(b)
  {
  }

  /** Since the last retarget, if there was one, the flush timer has run out or was stopped. */
  predicate Calm(events: seq<Event>) {
    if events == [] then true
    else
      match events[|events| - 1]
      case Retarget(_) => false
      case FlushTimeout => true
      case StopPolling => true
      case _ => Calm(events[..|events| - 1])
  }

  /** In every run, once it has run out or was stopped since the last retarget, the flush timer
      is armed only for a value that has not been sent; and if nothing was stopped at all since
      then, exactly for such a value. */
  lemma FlushArmedForNews(states: seq<Stack>, events: seq<Event>, k: nat)
    requires IsRun(states, events) && k < |states| && Calm(events[..k])
    ensures states[k].link.e.flushArmed ==> SomeDirty(states[k].link.e)
    ensures PromptAfterAll(events[..k]) ==> (states[k].link.e.flushArmed <==> SomeDirty(states[k].link.e))
  {
    hide Step, SomeDirty, NewsIfArmed, Sound;
    InitialTimeout(states, events);
    InitialNews(states[0].link.e);
    for j := 0 to k
      invariant Calm(events[..j]) ==> NewsIfArmed(states[j].link.e)
    {
      assert Follows(states[j], events[j], states[j + 1]);
      RunsAreTraced(states, events, j);
      assert events[..j + 1][..j] == events[..j];
      if Calm(events[..j + 1]) {
        StepNews(states[j], events[j]);
      }
    }
    NewsGivesDirt(states[k].link.e);
    if PromptAfterAll(events[..k]) {
      UnsentValuesHaveAFlushComing(states, events, k);
    }
  }

  lemma InitialNews(e: Engine)
    requires !e.flushArmed
    ensures NewsIfArmed(e)
  {
  }

  lemma NewsGivesDirt(e: Engine)
    ensures NewsIfArmed(e) ==> (e.flushArmed ==> SomeDirty(e))
  {
  }
}
