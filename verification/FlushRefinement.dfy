/** Batching loses nothing: after each flush, the last values a consumer has for every target
    are those an engine would have sent that emits on every response. */
module FlushRefinement {
  import opened Numbers
  import opened RegisterTypes
  import opened ReadCoalescer
  import opened PduCodec
  import opened Caches
  import opened Transactions
  import opened Polling
  import opened OneShots
  import opened PollStack
  import opened Accounting
  import opened StackInvariants

  predicate IsUpdateOf(signal: Signal, i: nat) {
    (signal.RegistersUpdated? || signal.BitsUpdated?) && signal.targetIndex == i
  }

  /** The latest update for target i among the signals from position `since` on. */
  function LastUpdate(signals: seq<Signal>, since: nat, i: nat): Option<Signal>
    decreases |signals|
  {
    if |signals| <= since then None
    else
      var last := signals[|signals| - 1];
      if IsUpdateOf(last, i) then Some(last) else LastUpdate(signals[..|signals| - 1], since, i)
  }

  lemma LastUpdateSnoc(signals: seq<Signal>, signal: Signal, since: nat, i: nat)
    requires since <= |signals|
    ensures LastUpdate(signals + [signal], since, i)
         == if IsUpdateOf(signal, i) then Some(signal) else LastUpdate(signals, since, i)
  {
    assert (signals + [signal])[..|signals|] == signals;
  }

  /** Signals that are not about values of target i. */
  predicate NoUpdateOf(signals: seq<Signal>, i: nat) {
    forall k :: 0 <= k < |signals| ==> !IsUpdateOf(signals[k], i)
  }

  lemma {:induction false} LastUpdateSkips(signals: seq<Signal>, more: seq<Signal>, since: nat, i: nat)
    requires since <= |signals| && NoUpdateOf(more, i)
    ensures LastUpdate(signals + more, since, i) == LastUpdate(signals, since, i)
  {
    if more == [] {
      assert signals + more == signals;
    } else {
      var last := |more| - 1;
      LastUpdateSkips(signals, more[..last], since, i);
      LastUpdateSnoc(signals + more[..last], more[last], since, i);
      assert signals + more == (signals + more[..last]) + [more[last]];
    }
  }

  // ----- the invariant -----

  predicate InStep(e: Engine, i: nat)
    requires i < |e.targets| && i < |e.caches|
  {
    var immediate := LastUpdate(e.record.immediate, 0, i);
    var current := Some(UpdateOf(e.targets, e.caches, i));
    if e.caches[i].dirty then immediate == current
    else LastUpdate(e.signals, e.record.since, i) == immediate && (immediate.Some? ==> immediate == current)
  }

  /** A value that has not been sent yet has a flush coming. */
  predicate NoneStranded(e: Engine) {
    SomeDirty(e) ==> e.flushArmed
  }

  predicate SomeDirty(e: Engine) {
    exists i :: 0 <= i < |e.caches| && e.caches[i].dirty
  }

  /** `prompt`: whether stranded values are ruled out as well; stopping strands them. */
  predicate AllInStep(e: Engine, prompt: bool) {
    && |e.caches| == |e.targets| && e.record.since <= |e.signals|
    && (prompt ==> NoneStranded(e))
    && forall i :: 0 <= i < |e.targets| ==> InStep(e, i)
  }

  /** Nothing that the invariant looks at differs, except for signals that carry no values. */
  predicate SameValues(a: Engine, b: Engine) {
    && b.caches == a.caches && b.targets == a.targets && b.flushArmed == a.flushArmed
    && b.record.immediate == a.record.immediate && b.record.since == a.record.since
    && b.record.retargetedAt == a.record.retargetedAt
    && |b.signals| >= |a.signals| && b.signals[..|a.signals|] == a.signals
    && forall k :: |a.signals| <= k < |b.signals| ==> !b.signals[k].RegistersUpdated? && !b.signals[k].BitsUpdated?
  }

  lemma SameValuesInStep(a: Engine, b: Engine, prompt: bool)
    requires AllInStep(a, prompt) && SameValues(a, b)
    ensures AllInStep(b, prompt)
  {
    var more := b.signals[|a.signals|..];
    assert b.signals == a.signals + more;
    forall i | 0 <= i < |b.targets|
      ensures InStep(b, i)
    {
      assert InStep(a, i);
      LastUpdateSkips(a.signals, more, a.record.since, i);
    }
  }

  lemma SameValuesTransitive(a: Engine, b: Engine, c: Engine)
    requires SameValues(a, b) && SameValues(b, c)
    ensures SameValues(a, c)
  {
    assert c.signals[..|a.signals|] == c.signals[..|b.signals|][..|a.signals|];
    forall k | |a.signals| <= k < |c.signals|
      ensures !c.signals[k].RegistersUpdated? && !c.signals[k].BitsUpdated?
    {
      if k < |b.signals| {
        assert c.signals[k] == c.signals[..|b.signals|][k];
      }
    }
  }

  // ----- storing a reply -----

  function StoresInto(covered: seq<CoveredTarget>, i: nat): bool {
    covered != [] && (covered[|covered| - 1].targetIndex == i || StoresInto(covered[..|covered| - 1], i))
  }

  lemma {:induction false} ApplyTouches(caches: seq<TargetCache>, covered: seq<CoveredTarget>, values: Values, i: nat)
    requires i < |caches|
    ensures var after := ApplySlices(caches, covered, values);
            if StoresInto(covered, i) then after[i].dirty else after[i] == caches[i]
  {
    if covered != [] {
      ApplyTouches(caches, covered[..|covered| - 1], values, i);
    }
  }

  lemma {:induction false} ImmediateLast(signals: seq<Signal>, targets: seq<PollTarget>, caches: seq<TargetCache>,
                                         covered: seq<CoveredTarget>, i: nat)
    requires i < |targets| == |caches|
    ensures LastUpdate(signals + ImmediateUpdates(targets, caches, covered), 0, i)
         == if StoresInto(covered, i) then Some(UpdateOf(targets, caches, i)) else LastUpdate(signals, 0, i)
  {
    if covered == [] {
      assert signals + [] == signals;
    } else {
      var rest, last := covered[..|covered| - 1], covered[|covered| - 1].targetIndex;
      var before := signals + ImmediateUpdates(targets, caches, rest);
      ImmediateLast(signals, targets, caches, rest, i);
      if last < |targets| {
        LastUpdateSnoc(before, UpdateOf(targets, caches, last), 0, i);
        assert signals + ImmediateUpdates(targets, caches, covered) == before + [UpdateOf(targets, caches, last)];
      } else {
        assert ImmediateUpdates(targets, caches, covered) == ImmediateUpdates(targets, caches, rest);
      }
    }
  }

  lemma StoreInStep(e: Engine, covered: seq<CoveredTarget>, values: Values, prompt: bool)
    requires AllInStep(e, prompt)
    ensures AllInStep(StoreValues(e, covered, values), prompt)
  {
    var after := StoreValues(e, covered, values);
    forall i | 0 <= i < |after.targets|
      ensures InStep(after, i)
    {
      assert InStep(e, i);
      ApplyTouches(e.caches, covered, values, i);
      ImmediateLast(e.record.immediate, e.targets, after.caches, covered, i);
    }
  }

  // ----- every other step -----

  lemma ReportSameValues(e: Engine, covered: seq<CoveredTarget>)
    ensures SameValues(e, ReportFailure(e, covered))
  {
    assert ReportFailure(e, covered).signals == e.signals + ([PollFailed] + FailedTargets(covered));
  }

  lemma SettlingSameValues(l: Link, i: int)
    ensures SameValues(l.e, NoteRequestSettled(l, i).e)
  {
    PumpKeepsConfiguration(l.(e := Settle(l.e, i)));
  }

  lemma BeginCycleSameValues(l: Link)
    ensures SameValues(l.e, BeginCycle(l).e)
  {
    PumpKeepsConfiguration(Rewound(l));
  }

  lemma ApplyInStep(e: Engine, plan: ReadRequestPlan, pdu: seq<byte>, prompt: bool)
    requires AllInStep(e, prompt)
    ensures AllInStep(ApplyPlanResponse(e, plan, pdu), prompt)
  {
    match DecodePlanResponse(plan, pdu)
    case Ok(values) => StoreInStep(e, plan.covered, values, prompt);
    case _ =>
      ReportSameValues(e, plan.covered);
      SameValuesInStep(e, ReportFailure(e, plan.covered), prompt);
  }

  lemma ResponseInStep(l: Link, correlationId: nat, pdu: seq<byte>, prompt: bool)
    requires AllInStep(l.e, prompt)
    ensures AllInStep(HandleResponse(l, correlationId, pdu).e, prompt)
  {
    if l.e.running && IsGeneration(correlationId, l.e.generation) {
      var index := PlanIndexOf(correlationId);
      var applied := UseReply(l.e, index, pdu);
      if 0 <= index < |l.e.plans| {
        ApplyInStep(l.e, l.e.plans[index], pdu, prompt);
      }
      SettlingSameValues(l.(e := applied), index);
      SameValuesInStep(applied, NoteRequestSettled(l.(e := applied), index).e, prompt);
    }
  }

  lemma FailureSameValues(l: Link, correlationId: nat)
    ensures SameValues(l.e, HandleFailure(l, correlationId).e)
  {
    if l.e.running && IsGeneration(correlationId, l.e.generation) {
      var index := PlanIndexOf(correlationId);
      var covered := if 0 <= index < |l.e.plans| then l.e.plans[index].covered else [];
      ReportSameValues(l.e, covered);
      SettlingSameValues(l.(e := ReportFailure(l.e, covered)), index);
      SameValuesTransitive(l.e, ReportFailure(l.e, covered), HandleFailure(l, correlationId).e);
    }
  }

  lemma {:induction false} FailuresSameValues(s: Stack, doomed: seq<PendingRequest>)
    ensures SameValues(s.link.e, FailAll(s, doomed).link.e)
    decreases |doomed|
  {
    if doomed != [] {
      var after := Fail(s, doomed[0].correlationId);
      FailureSameValues(s.link, doomed[0].correlationId);
      FailuresSameValues(after, doomed[1..]);
      SameValuesTransitive(s.link.e, after.link.e, FailAll(s, doomed).link.e);
    }
  }

  lemma {:induction false} ConsumeInStep(s: Stack, prompt: bool)
    requires AllInStep(s.link.e, prompt)
    ensures AllInStep(Consume(s).link.e, prompt)
    decreases |s.link.m.receiveBuffer|
  {
    var m := s.link.m;
    var next := NextArrival(m.mode, m.receiveBuffer);
    if m.pending != [] && next.Some? {
      var taken := WithBuffer(s, m.receiveBuffer[next.value.size..]);
      DeliverInStep(taken, next.value, prompt);
      ConsumeInStep(Deliver(taken, next.value), prompt);
    }
  }

  lemma DeliverInStep(s: Stack, a: Arrival, prompt: bool)
    requires AllInStep(s.link.e, prompt)
    ensures AllInStep(Deliver(s, a).link.e, prompt)
  {
    if a.Reply? {
      var i := MatchOf(s.link.m.pending, a.transactionId);
      if i < |s.link.m.pending| {
        ResponseInStep(s.link.(m := Complete(s.link.m, i, a.pdu)), s.link.m.pending[i].correlationId, a.pdu, prompt);
      }
    }
  }

  // ----- the flush -----

  lemma UpdatesItsTarget(targets: seq<PollTarget>, caches: seq<TargetCache>, k: nat)
    requires k < |caches| == |targets|
    ensures forall i: nat :: IsUpdateOf(UpdateOf(targets, caches, k), i) <==> i == k
  {
  }

  /** A flush sends one update for each dirty target and none for the others. */
  lemma {:induction false} FlushLast(signals: seq<Signal>, since: nat, targets: seq<PollTarget>, caches: seq<TargetCache>,
                                     n: nat, i: nat)
    requires n <= |caches| == |targets| && since <= |signals|
    ensures LastUpdate(signals + DirtyUpdates(targets, caches, n), since, i)
         == if i < n && caches[i].dirty then Some(UpdateOf(targets, caches, i)) else LastUpdate(signals, since, i)
  {
    hide LastUpdate;
    if n == 0 {
      assert signals + [] == signals;
    } else {
      var before := signals + DirtyUpdates(targets, caches, n - 1);
      FlushLast(signals, since, targets, caches, n - 1, i);
      if caches[n - 1].dirty {
        LastUpdateSnoc(before, UpdateOf(targets, caches, n - 1), since, i);
        UpdatesItsTarget(targets, caches, n - 1);
        assert signals + DirtyUpdates(targets, caches, n) == before + [UpdateOf(targets, caches, n - 1)];
      } else {
        assert DirtyUpdates(targets, caches, n) == DirtyUpdates(targets, caches, n - 1);
      }
    }
  }

  function UpdatesOf(signals: seq<Signal>, i: nat): nat {
    if signals == [] then 0
    else UpdatesOf(signals[..|signals| - 1], i) + if IsUpdateOf(signals[|signals| - 1], i) then 1 else 0
  }

  lemma {:induction false} OneUpdatePerDirtyTarget(targets: seq<PollTarget>, caches: seq<TargetCache>, n: nat, i: nat)
    requires n <= |caches| == |targets|
    ensures UpdatesOf(DirtyUpdates(targets, caches, n), i) == if i < n && caches[i].dirty then 1 else 0
  {
    if n > 0 {
      var before := DirtyUpdates(targets, caches, n - 1);
      OneUpdatePerDirtyTarget(targets, caches, n - 1, i);
      if caches[n - 1].dirty {
        assert (before + [UpdateOf(targets, caches, n - 1)])[..|before|] == before;
      } else {
        assert DirtyUpdates(targets, caches, n) == before;
      }
    }
  }

  /** A flush sends each target at most one update: one if it has news, none if not. */
  lemma OneUpdatePerFlush(e: Engine, i: nat)
    requires |e.caches| == |e.targets|
    ensures Flush(e).signals[..|e.signals|] == e.signals
    ensures UpdatesOf(Flush(e).signals[|e.signals|..], i) == if i < |e.caches| && e.caches[i].dirty then 1 else 0
  {
    assert Flush(e).signals[|e.signals|..] == DirtyUpdates(e.targets, e.caches, |e.caches|);
    OneUpdatePerDirtyTarget(e.targets, e.caches, |e.caches|, i);
  }

  lemma FlushInStep(e: Engine, prompt: bool)
    requires AllInStep(e, prompt)
    ensures AllInStep(Flush(e), prompt)
  {
    var after := Flush(e);
    forall i | 0 <= i < |e.targets|
      ensures InStep(after, i)
    {
      assert InStep(e, i);
      FlushLast(e.signals, e.record.since, e.targets, e.caches, |e.caches|, i);
      assert UpdateOf(after.targets, after.caches, i) == UpdateOf(e.targets, e.caches, i);
    }
  }

  lemma ConfigureInStep(l: Link, targets: seq<PollTarget>)
    requires l.e.options.Usable()
    ensures AllInStep(Configure(l, targets).e, true)
  {
    hide Plans, CancelAll;
  }

  // ----- every run -----

  lemma CycleInStep(e: Engine, l: Link, prompt: bool)
    requires AllInStep(e, prompt) && SameValues(e, l.e)
    ensures AllInStep(BeginCycle(l).e, prompt)
  {
    BeginCycleSameValues(l);
    SameValuesTransitive(e, l.e, BeginCycle(l).e);
    SameValuesInStep(e, BeginCycle(l).e, prompt);
  }

  lemma StopInStep(l: Link)
    requires AllInStep(l.e, false)
    ensures AllInStep(Polling.Stop(l).e, false)
  {
    forall i | 0 <= i < |l.e.targets|
      ensures InStep(Polling.Stop(l).e, i)
    {
      assert InStep(l.e, i);
    }
  }

  /** A retarget starts clean, a stop may strand values, and every other event keeps things
      as they were. */
  function PromptAfter(event: Event, prompt: bool): bool {
    event.Retarget? || (prompt && !event.StopPolling?)
  }

  lemma StepInStep(s: Stack, event: Event, prompt: bool)
    requires Shaped(s.link.e) && Allowed(s, event) && AllInStep(s.link.e, prompt)
    ensures AllInStep(Step(s, event).link.e, PromptAfter(event, prompt))
  {
    match event
    case DataArrives(data) =>
      if s.link.m.pending != [] {
        ConsumeInStep(WithBuffer(s, s.link.m.receiveBuffer + data), prompt);
      }
    case DeadlinesPass(expired) =>
      var swept := s.(link := s.link.(m := AfterSweep(s.link.m, expired)));
      FailuresSameValues(swept, Sweep(s.link.m.pending, expired, s.link.m.retryCount).exhausted);
      SameValuesInStep(s.link.e, Expire(s, expired).link.e, prompt);
    case IntervalTimeout => CycleInStep(s.link.e, s.link.(e := s.link.e.(intervalArmed := false)), prompt);
    case Retarget(targets) =>
      ConfigureInStep(s.link, targets);
      if s.link.e.running {
        CycleInStep(Configure(s.link, targets).e, Configure(s.link, targets), true);
      }
    case StartPolling =>
      if !s.link.e.running {
        CycleInStep(s.link.e, s.link.(e := s.link.e.(running := true)), prompt);
      }
    case FlushTimeout => FlushInStep(s.link.e, prompt);
    case Reconfigure(_) => SameValuesInStep(s.link.e, Step(s, event).link.e, prompt);
    case StopPolling => StopInStep(s.link);
    case SendOneShot(_) =>
  }

  /** Whether no value can be stranded after these events: nothing has been stopped since the
      beginning or the last retarget. */
  function PromptAfterAll(events: seq<Event>): bool {
    events == [] || PromptAfter(events[|events| - 1], PromptAfterAll(events[..|events| - 1]))
  }

  lemma RunsInStep(states: seq<Stack>, events: seq<Event>, k: nat)
    requires IsRun(states, events) && k < |states|
    ensures AllInStep(states[k].link.e, PromptAfterAll(events[..k]))
  {
    for j := 0 to k
      invariant AllInStep(states[j].link.e, PromptAfterAll(events[..j]))
    {
      assert Follows(states[j], events[j], states[j + 1]);
      StepInStep(states[j], events[j], PromptAfterAll(events[..j]));
      assert events[..j + 1][..j] == events[..j];
    }
  }

  /** The theorem: in every run, right after a flush, the last values the consumer has been
      sent for each of the current targets are those an engine without batching has sent
      last, and they are the values in the cache. */
  lemma FlushRefinesImmediateEmission(states: seq<Stack>, events: seq<Event>, k: nat, i: nat)
    requires IsRun(states, events) && k < |events| && events[k] == FlushTimeout && i < |states[k + 1].link.e.targets|
    ensures var e := states[k + 1].link.e;
            var immediate := LastUpdate(e.record.immediate, 0, i);
            && LastUpdate(e.signals, e.record.since, i) == immediate
            && (immediate.Some? ==> i < |e.caches| && immediate.value == UpdateOf(e.targets, e.caches, i))
  {
    RunsInStep(states, events, k + 1);
    assert Follows(states[k], events[k], states[k + 1]);
    assert InStep(states[k + 1].link.e, i);
  }

  /** No value waits for ever: unless polling was stopped since the last retarget, whatever
      has not been sent yet has a flush coming. */
  lemma UnsentValuesHaveAFlushComing(states: seq<Stack>, events: seq<Event>, k: nat)
    requires IsRun(states, events) && k < |states| && PromptAfterAll(events[..k])
    ensures NoneStranded(states[k].link.e)
  {
    RunsInStep(states, events, k);
  }

  // ----- stopping is the exception -----

  lemma SameValuesSameDirt(a: Engine, b: Engine)
    requires SameValues(a, b)
    ensures SomeDirty(a) <==> SomeDirty(b)
  {
  }

  lemma ApplyKeepsDirt(e: Engine, plan: ReadRequestPlan, pdu: seq<byte>)
    requires SomeDirty(e)
    ensures SomeDirty(ApplyPlanResponse(e, plan, pdu))
  {
    var i :| 0 <= i < |e.caches| && e.caches[i].dirty;
    match DecodePlanResponse(plan, pdu)
    case Ok(values) =>
      ApplyTouches(e.caches, plan.covered, values, i);
      assert ApplyPlanResponse(e, plan, pdu).caches[i].dirty;
    case _ => assert ApplyPlanResponse(e, plan, pdu).caches[i].dirty;
  }

  lemma ResponseKeepsDirt(l: Link, correlationId: nat, pdu: seq<byte>)
    requires SomeDirty(l.e)
    ensures SomeDirty(HandleResponse(l, correlationId, pdu).e)
  {
    hide SomeDirty, SameValues, ApplyPlanResponse, NoteRequestSettled;
    if l.e.running && IsGeneration(correlationId, l.e.generation) {
      var index := PlanIndexOf(correlationId);
      var applied := UseReply(l.e, index, pdu);
      if 0 <= index < |l.e.plans| {
        ApplyKeepsDirt(l.e, l.e.plans[index], pdu);
      }
      SettlingSameValues(l.(e := applied), index);
      SameValuesSameDirt(applied, NoteRequestSettled(l.(e := applied), index).e);
    }
  }

  lemma {:induction false} ConsumeKeepsDirt(s: Stack)
    requires SomeDirty(s.link.e)
    ensures SomeDirty(Consume(s).link.e)
    decreases |s.link.m.receiveBuffer|
  {
    hide SomeDirty, Deliver, NextArrival;
    var m := s.link.m;
    var next := NextArrival(m.mode, m.receiveBuffer);
    if m.pending != [] && next.Some? {
      var taken := WithBuffer(s, m.receiveBuffer[next.value.size..]);
      DeliverKeepsDirt(taken, next.value);
      ConsumeKeepsDirt(Deliver(taken, next.value));
    }
  }

  lemma DeliverKeepsDirt(s: Stack, a: Arrival)
    requires SomeDirty(s.link.e)
    ensures SomeDirty(Deliver(s, a).link.e)
  {
    hide SomeDirty, HandleResponse;
    if a.Reply? {
      var i := MatchOf(s.link.m.pending, a.transactionId);
      if i < |s.link.m.pending| {
        ResponseKeepsDirt(s.link.(m := Complete(s.link.m, i, a.pdu)), s.link.m.pending[i].correlationId, a.pdu);
      }
    }
  }

  /** Only a flush or a retarget cleans caches. */
  lemma StepKeepsDirt(s: Stack, event: Event)
    requires Shaped(s.link.e) && Allowed(s, event) && SomeDirty(s.link.e) && !event.Retarget? && !event.FlushTimeout?
    ensures SomeDirty(Step(s, event).link.e)
  {
    hide Consume, FailAll, AfterSweep, BeginCycle, Plans;
    match event
    case DataArrives(data) =>
      if s.link.m.pending != [] {
        ConsumeKeepsDirt(WithBuffer(s, s.link.m.receiveBuffer + data));
      }
    case DeadlinesPass(expired) =>
      FailuresSameValues(s.(link := s.link.(m := AfterSweep(s.link.m, expired))),
                         Sweep(s.link.m.pending, expired, s.link.m.retryCount).exhausted);
      SameValuesSameDirt(s.link.e, Expire(s, expired).link.e);
    case IntervalTimeout => BeginCycleSameValues(s.link.(e := s.link.e.(intervalArmed := false)));
    case StartPolling =>
      if !s.link.e.running {
        BeginCycleSameValues(s.link.(e := s.link.e.(running := true)));
      }
    case Reconfigure(_) =>
    case StopPolling =>
    case SendOneShot(_) =>
  }

  /** Polling was stopped by event j with a value unsent, and up to state k there was neither
      a retarget nor an armed flush. */
  predicate StrandedSince(states: seq<Stack>, events: seq<Event>, j: nat, k: nat)
    requires j < k < |states| == |events| + 1
  {
    && events[j].StopPolling? && SomeDirty(states[j].link.e)
    && forall m :: j < m < k ==> !events[m].Retarget? && !states[m + 1].link.e.flushArmed
  }

  lemma StrandedOneMore(states: seq<Stack>, events: seq<Event>, j: nat, k: nat, next: nat)
    requires j < k < next == k + 1 < |states| == |events| + 1 && StrandedSince(states, events, j, k)
    requires !events[k].Retarget? && !states[next].link.e.flushArmed
    ensures StrandedSince(states, events, j, next)
  {
    hide SomeDirty;
  }

  lemma PromptIfNoneStranded(e: Engine, prompt: bool)
    requires AllInStep(e, prompt)
    ensures AllInStep(e, NoneStranded(e))
  {
    hide InStep;
  }

  lemma StrandedNext(states: seq<Stack>, events: seq<Event>, k: nat, next: nat)
    requires IsRun(states, events) && k < |events| && next == k + 1 && !NoneStranded(states[next].link.e)
    requires !NoneStranded(states[k].link.e) ==> exists j: nat :: j < k && StrandedSince(states, events, j, k)
    ensures exists j: nat :: j < next && StrandedSince(states, events, j, next)
  {
    hide Step;
    assert Follows(states[k], events[k], states[k + 1]);
    RunsInStep(states, events, k);
    var prompt := NoneStranded(states[k].link.e);
    PromptIfNoneStranded(states[k].link.e, PromptAfterAll(events[..k]));
    StepInStep(states[k], events[k], prompt);
    if prompt {
      StopKeepsDirt(states[k], events[k]);
      assert StrandedSince(states, events, k, next);
    } else {
      var j: nat :| j < k && StrandedSince(states, events, j, k);
      assert !events[k].Retarget?;
      StrandedOneMore(states, events, j, k, next);
    }
  }

  lemma StopKeepsDirt(s: Stack, event: Event)
    requires Shaped(s.link.e) && event.StopPolling?
    ensures SomeDirty(Step(s, event).link.e) <==> SomeDirty(s.link.e)
    ensures !Step(s, event).link.e.flushArmed
  {
    assert Step(s, event).link.e.caches == s.link.e.caches;
  }

  /** Once stranded, values stay so until a retarget drops them or new values arm the flush. */
  lemma StaysStranded(states: seq<Stack>, events: seq<Event>, j: nat, k: nat)
    requires IsRun(states, events) && j < k < |states| && StrandedSince(states, events, j, k)
    ensures !NoneStranded(states[k].link.e)
  {
    hide Step, SomeDirty;
    assert Follows(states[j], events[j], states[j + 1]);
    StopKeepsDirt(states[j], events[j]);
    for m := j + 1 to k
      invariant SomeDirty(states[m].link.e) && !states[m].link.e.flushArmed
    {
      assert Follows(states[m], events[m], states[m + 1]);
      StepKeepsDirt(states[m], events[m]);
    }
  }

  /** When values are stranded, in every run: exactly if polling was stopped with a value
      unsent, and since then there was neither a retarget nor an armed flush. */
  lemma StopStrandsUnsentValues(states: seq<Stack>, events: seq<Event>, k: nat)
    requires IsRun(states, events) && k < |states|
    ensures !NoneStranded(states[k].link.e)
       <==> exists j: nat :: j < k && StrandedSince(states, events, j, k)
  {
    hide NoneStranded, StrandedSince;
    NothingStrandedAtFirst(states, events);
    for m := 0 to k
      invariant !NoneStranded(states[m].link.e) ==> exists j: nat :: j < m && StrandedSince(states, events, j, m)
    {
      if !NoneStranded(states[m + 1].link.e) {
        StrandedNext(states, events, m, m + 1);
      }
    }
    if j: nat :| j < k && StrandedSince(states, events, j, k) {
      StaysStranded(states, events, j, k);
    }
  }

  lemma NothingStrandedAtFirst(states: seq<Stack>, events: seq<Event>)
    requires IsRun(states, events)
    ensures NoneStranded(states[0].link.e)
  {
  }
}
