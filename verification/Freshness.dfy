/** Where the values come from that a consumer is sent: after a retarget, every value in every
    update is an initial zero or was read by a request sent since, at the value's own address. */
module Freshness {
  import opened Numbers
  import opened RegisterTypes
  import opened ReadCoalescer
  import opened PlannerCoverage
  import opened PduCodec
  import opened Caches
  import opened Transactions
  import opened Polling
  import opened OneShots
  import opened PollStack
  import opened Accounting
  import opened StackInvariants
  import opened CycleResults
  import opened Provenance
  import opened Isolation
  import opened FlushRefinement

  /** What updates are measured against: the targets, when they were set, and how all
      requests have ended so far. */
  datatype Ground = Ground(targets: seq<PollTarget>, retargetedAt: nat, outcomes: map<nat, Outcome>)

  function GroundOf(l: Link): Ground {
    Ground(l.e.targets, l.e.record.retargetedAt, l.m.outcomes)
  }

  /** The request was sent after the retarget, asked for the plan's range, and its answer
      decodes to these values. */
  predicate Delivers(g: Ground, serial: nat, plan: ReadRequestPlan, values: Values) {
    && serial > g.retargetedAt
    && serial in g.outcomes
    && g.outcomes[serial].Answered?
    && g.outcomes[serial].unitId == plan.unitId
    && g.outcomes[serial].requestPdu == PlanPdu(plan)
    && DecodePlanResponse(plan, g.outcomes[serial].responsePdu) == Ok(values)
  }

  function Bit(on: bool): int {
    if on then 1 else 0
  }

  predicate Holds(values: Values, position: nat, cell: int) {
    match values
    case Words(words) => position < |words| && words[position] == cell
    case Flags(flags) => position < |flags| && Bit(flags[position]) == cell
  }

  /** A value's origin: an answered request, and the place in its answer. */
  datatype Source = Source(serial: nat, plan: ReadRequestPlan, values: Values, position: nat)

  /** Value p of target i is at this place of this answer, which is for the target's unit and
      register type and, with placed targets, for the value's own address. */
  predicate Supplies(g: Ground, i: nat, p: nat, cell: int, source: Source)
    requires i < |g.targets|
  {
    && Delivers(g, source.serial, source.plan, source.values)
    && Holds(source.values, source.position, cell)
    && g.targets[i].Key() == GroupKey(source.plan.unitId, source.plan.registerType)
    && (Placed(g.targets) ==> source.plan.startAddress + source.position == g.targets[i].startAddress + p)
  }

  ghost predicate Sourced(g: Ground, i: nat, p: nat, cell: int)
    requires i < |g.targets|
  {
    cell == 0 || exists source: Source :: Supplies(g, i, p, cell, source)
  }

  ghost predicate WordsSourced(g: Ground, i: nat, words: seq<u16>)
    requires i < |g.targets|
  {
    forall p :: 0 <= p < |words| ==> Sourced(g, i, p, words[p])
  }

  ghost predicate BitsSourced(g: Ground, i: nat, bits: seq<bool>)
    requires i < |g.targets|
  {
    forall p :: 0 <= p < |bits| ==> Sourced(g, i, p, Bit(bits[p]))
  }

  ghost predicate CacheSourced(g: Ground, i: nat, cache: TargetCache)
    requires i < |g.targets|
  {
    if IsBitType(g.targets[i].registerType) then BitsSourced(g, i, cache.bitValues)
    else WordsSourced(g, i, cache.registerValues)
  }

  /** An update is about one of the targets, has its address, length and kind, and all its
      values are accounted for. */
  ghost predicate SignalSourced(g: Ground, signal: Signal) {
    match signal
    case RegistersUpdated(i, startAddress, registers) =>
      && i < |g.targets| && !IsBitType(g.targets[i].registerType)
      && startAddress == g.targets[i].startAddress && |registers| == g.targets[i].quantity
      && WordsSourced(g, i, registers)
    case BitsUpdated(i, startAddress, bits) =>
      && i < |g.targets| && IsBitType(g.targets[i].registerType)
      && startAddress == g.targets[i].startAddress && |bits| == g.targets[i].quantity
      && BitsSourced(g, i, bits)
    case _ => true
  }

  ghost predicate CachesSourced(g: Ground, caches: seq<TargetCache>) {
    && CachesFit(g.targets, caches)
    && forall i :: 0 <= i < |caches| ==> CacheSourced(g, i, caches[i])
  }

  ghost predicate UpdatesSourced(g: Ground, signals: seq<Signal>, since: nat) {
    forall n :: since <= n < |signals| ==> SignalSourced(g, signals[n])
  }

  ghost predicate AllSourced(g: Ground, e: Engine) {
    CachesSourced(g, e.caches) && e.record.since <= |e.signals| && UpdatesSourced(g, e.signals, e.record.since)
  }

  // ----- what has a source keeps it -----

  ghost predicate Grown(a: Ground, b: Ground) {
    && b.targets == a.targets && b.retargetedAt == a.retargetedAt
    && forall serial: nat :: serial in a.outcomes ==> serial in b.outcomes && b.outcomes[serial] == a.outcomes[serial]
  }

  lemma SourcedGrows(a: Ground, b: Ground, i: nat, p: nat, cell: int)
    requires Grown(a, b) && i < |a.targets| && Sourced(a, i, p, cell)
    ensures Sourced(b, i, p, cell)
  {
    hide Holds, PlanPdu, DecodePlanResponse;
    if cell != 0 {
      var source: Source :| Supplies(a, i, p, cell, source);
      assert Supplies(b, i, p, cell, source);
    }
  }

  lemma WordsGrow(a: Ground, b: Ground, i: nat, words: seq<u16>)
    requires Grown(a, b) && i < |a.targets| && WordsSourced(a, i, words)
    ensures WordsSourced(b, i, words)
  {
    hide Sourced;
    forall p | 0 <= p < |words|
      ensures Sourced(b, i, p, words[p])
    {
      SourcedGrows(a, b, i, p, words[p]);
    }
  }

  lemma BitsGrow(a: Ground, b: Ground, i: nat, bits: seq<bool>)
    requires Grown(a, b) && i < |a.targets| && BitsSourced(a, i, bits)
    ensures BitsSourced(b, i, bits)
  {
    hide Sourced;
    forall p | 0 <= p < |bits|
      ensures Sourced(b, i, p, Bit(bits[p]))
    {
      SourcedGrows(a, b, i, p, Bit(bits[p]));
    }
  }

  lemma SignalGrows(a: Ground, b: Ground, signal: Signal)
    requires Grown(a, b) && SignalSourced(a, signal)
    ensures SignalSourced(b, signal)
  {
    hide WordsSourced, BitsSourced;
    match signal
    case RegistersUpdated(i, _, registers) => WordsGrow(a, b, i, registers);
    case BitsUpdated(i, _, bits) => BitsGrow(a, b, i, bits);
    case _ =>
  }

  lemma CachesGrow(a: Ground, b: Ground, caches: seq<TargetCache>)
    requires Grown(a, b) && CachesSourced(a, caches)
    ensures CachesSourced(b, caches)
  {
    hide WordsSourced, BitsSourced;
    forall i | 0 <= i < |caches|
      ensures CacheSourced(b, i, caches[i])
    {
      assert CacheSourced(a, i, caches[i]);
      if IsBitType(a.targets[i].registerType) {
        BitsGrow(a, b, i, caches[i].bitValues);
      } else {
        WordsGrow(a, b, i, caches[i].registerValues);
      }
    }
  }

  /** A step that stores nothing and sends no update leaves everything accounted for. */
  lemma KeepsSources(l: Link, after: Link)
    requires AllSourced(GroundOf(l), l.e) && SameValues(l.e, after.e) && OutcomesKept(l.m, after.m)
    ensures AllSourced(GroundOf(after), after.e)
  {
    hide CachesSourced, SignalSourced;
    CachesGrow(GroundOf(l), GroundOf(after), l.e.caches);
    forall n | after.e.record.since <= n < |after.e.signals|
      ensures SignalSourced(GroundOf(after), after.e.signals[n])
    {
      if n < |l.e.signals| {
        assert after.e.signals[n] == after.e.signals[..|l.e.signals|][n];
        SignalGrows(GroundOf(l), GroundOf(after), l.e.signals[n]);
      } else {
        NoValuesNeedNoSource(GroundOf(after), after.e.signals[n]);
      }
    }
  }

  lemma NoValuesNeedNoSource(g: Ground, signal: Signal)
    requires !signal.RegistersUpdated? && !signal.BitsUpdated?
    ensures SignalSourced(g, signal)
  {
  }

  // ----- storing a reply -----

  lemma CellSourced(g: Ground, c: CoveredTarget, serial: nat, plan: ReadRequestPlan, values: Values, p: nat, cell: int)
    requires SliceFits(g.targets, plan, c) && (Placed(g.targets) ==> SliceAligned(g.targets, plan, c))
    requires Delivers(g, serial, plan, values) && CarriesOffset(c, c.targetIndex, p)
    requires Holds(values, c.offsetInPlan + (p - c.offsetInTarget), cell)
    ensures Sourced(g, c.targetIndex, p, cell)
  {
    hide Delivers, Holds;
    assert Supplies(g, c.targetIndex, p, cell, Source(serial, plan, values, c.offsetInPlan + (p - c.offsetInTarget)));
  }

  lemma SliceSourced(g: Ground, cache: TargetCache, c: CoveredTarget, serial: nat, plan: ReadRequestPlan, values: Values)
    requires SliceFits(g.targets, plan, c) && (Placed(g.targets) ==> SliceAligned(g.targets, plan, c))
    requires Delivers(g, serial, plan, values) && CacheSourced(g, c.targetIndex, cache)
    ensures CacheSourced(g, c.targetIndex, StoreSlice(cache, c, values))
  {
    hide PlanPdu, Delivers, Placed;
    KindOfValues(g, serial, plan, values);
    var i, after := c.targetIndex, StoreSlice(cache, c, values);
    if values.Words? {
      forall p | 0 <= p < |after.registerValues|
        ensures Sourced(g, i, p, after.registerValues[p])
      {
        if CarriesOffset(c, i, p) && after.registerValues[p] != 0 {
          assert after.registerValues[p] == At(values.words, c.offsetInPlan + (p - c.offsetInTarget), 0);
          CellSourced(g, c, serial, plan, values, p, after.registerValues[p]);
        }
      }
    } else {
      forall p | 0 <= p < |after.bitValues|
        ensures Sourced(g, i, p, Bit(after.bitValues[p]))
      {
        if CarriesOffset(c, i, p) && after.bitValues[p] {
          assert after.bitValues[p] == At(values.flags, c.offsetInPlan + (p - c.offsetInTarget), false);
          CellSourced(g, c, serial, plan, values, p, Bit(after.bitValues[p]));
        }
      }
    }
  }

  lemma KindOfValues(g: Ground, serial: nat, plan: ReadRequestPlan, values: Values)
    requires Delivers(g, serial, plan, values)
    ensures values.Flags? <==> IsBitType(plan.registerType)
  {
  }

  predicate SlicesFitAll(g: Ground, plan: ReadRequestPlan, covered: seq<CoveredTarget>) {
    forall k :: 0 <= k < |covered| ==>
      SliceFits(g.targets, plan, covered[k]) && (Placed(g.targets) ==> SliceAligned(g.targets, plan, covered[k]))
  }

  lemma {:induction false} SlicesSourced(g: Ground, caches: seq<TargetCache>, covered: seq<CoveredTarget>, serial: nat,
                                         plan: ReadRequestPlan, values: Values)
    requires SlicesFitAll(g, plan, covered) && Delivers(g, serial, plan, values) && CachesSourced(g, caches)
    ensures CachesSourced(g, ApplySlices(caches, covered, values))
  {
    hide SliceAligned, Delivers, CacheSourced, StoreSlice;
    if covered != [] {
      var rest, last := covered[..|covered| - 1], covered[|covered| - 1];
      SlicesSourced(g, caches, rest, serial, plan, values);
      var before := ApplySlices(caches, rest, values);
      assert SliceFits(g.targets, plan, last);
      SliceSourced(g, before[last.targetIndex], last, serial, plan, values);
      OverwriteFits(g.targets[last.targetIndex], before[last.targetIndex], last, values);
    }
  }

  lemma PlanSlicesFit(e: Engine, g: Ground, index: nat)
    requires Configured(e) && index < |e.plans| && g.targets == e.targets
    ensures SlicesFitAll(g, e.plans[index], e.plans[index].covered)
  {
    hide Plans;
    PlansFit(e.targets, e.options);
    assert PlanFits(e.targets, e.options, e.plans[index]);
    assert Placed(e.targets) ==> PlanAligned(e.targets, e.plans[index]);
  }

  /** The engine uses the answer to a request sent for the plan. */
  lemma UseSourced(l: Link, index: nat, serial: nat, pdu: seq<byte>)
    requires AllSourced(GroundOf(l), l.e) && Configured(l.e) && index < |l.e.plans|
    requires serial > l.e.record.retargetedAt && serial in l.m.outcomes
    requires l.m.outcomes[serial] == Answered(l.e.plans[index].unitId, PlanPdu(l.e.plans[index]), pdu)
    ensures var applied := ApplyPlanResponse(l.e, l.e.plans[index], pdu);
            AllSourced(GroundOf(l.(e := applied)), applied)
  {
    hide CachesSourced, UpdatesSourced, SlicesFitAll, PlanPdu, Configured, DecodePlanResponse;
    var plan, applied := l.e.plans[index], ApplyPlanResponse(l.e, l.e.plans[index], pdu);
    match DecodePlanResponse(plan, pdu)
    case Ok(values) =>
      PlanSlicesFit(l.e, GroundOf(l), index);
      SlicesSourced(GroundOf(l), l.e.caches, plan.covered, serial, plan, values);
      assert GroundOf(l.(e := applied)) == GroundOf(l);
    case _ =>
      ReportSameValues(l.e, plan.covered);
      KeepsSources(l, l.(e := applied));
  }

  lemma ResponseSourced(l: Link, correlationId: nat, index: nat, pdu: seq<byte>)
    requires l.e.running && IsGeneration(correlationId, l.e.generation) && PlanIndexOf(correlationId) == index < |l.e.plans|
    requires var applied := ApplyPlanResponse(l.e, l.e.plans[index], pdu); AllSourced(GroundOf(l.(e := applied)), applied)
    ensures AllSourced(GroundOf(HandleResponse(l, correlationId, pdu)), HandleResponse(l, correlationId, pdu).e)
  {
    hide AllSourced, ApplyPlanResponse, SameValues, NoteRequestSettled;
    var applied := ApplyPlanResponse(l.e, l.e.plans[index], pdu);
    ReportsEndNothing(l, correlationId, pdu);
    SettlingSameValues(l.(e := applied), index);
    KeepsSources(l.(e := applied), NoteRequestSettled(l.(e := applied), index));
  }

  lemma AnswerSourced(s: Stack, i: nat, pdu: seq<byte>)
    requires Sound(s) && i < |s.link.m.pending| && AllSourced(GroundOf(s.link), s.link.e)
    ensures AllSourced(GroundOf(Answer(s, i, pdu).link), Answer(s, i, pdu).link.e)
  {
    hide AllSourced, SameValues, ApplyPlanResponse, PlanPdu, HandleResponse, ControllerResponse, Plans, Balanced, Settled;
    var l, r := s.link, s.link.m.pending[i];
    var after := l.(m := Complete(l.m, i, pdu));
    assert Consistent(l, []);
    OutcomesFinal(l, i, pdu);
    EngineUnchanged(l.e);
    KeepsSources(l, after);
    assert Genuine(r, l.e.plans, s.c.correlationId) && r.serial > l.e.record.retargetedAt;
    if IsPoll(r) {
      PollIsCurrent(l, i);
      UseSourced(after, PlanIndexOf(r.correlationId), r.serial, pdu);
      ResponseSourced(after, r.correlationId, PlanIndexOf(r.correlationId), pdu);
    } else {
      AnswerOneShot(s, i, pdu);
    }
  }

  lemma OutcomesFinal(l: Link, i: nat, pdu: seq<byte>)
    requires Consistent(l, []) && i < |l.m.pending|
    ensures OutcomesKept(l.m, Complete(l.m, i, pdu))
  {
    OutcomesAreFinal(l.m, i, pdu, {});
  }

  lemma EngineUnchanged(e: Engine)
    ensures SameValues(e, e)
  {
  }

  lemma DeliverSourced(s: Stack, a: Arrival)
    requires Sound(s) && AllSourced(GroundOf(s.link), s.link.e)
    ensures AllSourced(GroundOf(Deliver(s, a).link), Deliver(s, a).link.e)
  {
    hide AllSourced, Sound, Answer;
    if a.Reply? && MatchOf(s.link.m.pending, a.transactionId) < |s.link.m.pending| {
      AnswerSourced(s, MatchOf(s.link.m.pending, a.transactionId), a.pdu);
    }
  }

  lemma {:induction false} ConsumeSourced(s: Stack)
    requires Sound(s) && AllSourced(GroundOf(s.link), s.link.e)
    ensures AllSourced(GroundOf(Consume(s).link), Consume(s).link.e)
    decreases |s.link.m.receiveBuffer|
  {
    hide AllSourced, Sound, Deliver, NextArrival;
    var m := s.link.m;
    var next := NextArrival(m.mode, m.receiveBuffer);
    if m.pending != [] && next.Some? {
      var taken := WithBuffer(s, m.receiveBuffer[next.value.size..]);
      BufferSound(s, m.receiveBuffer[next.value.size..]);
      DeliverSourced(taken, next.value);
      DeliverSound(taken, next.value);
      ConsumeSourced(Deliver(taken, next.value));
    }
  }

  // ----- the flush -----

  lemma UpdateSourced(g: Ground, caches: seq<TargetCache>, i: nat)
    requires CachesSourced(g, caches) && i < |caches|
    ensures SignalSourced(g, UpdateOf(g.targets, caches, i))
  {
    hide WordsSourced, BitsSourced;
    assert CacheSourced(g, i, caches[i]);
  }

  lemma {:induction false} DirtySourced(g: Ground, signals: seq<Signal>, since: nat, caches: seq<TargetCache>, n: nat)
    requires CachesSourced(g, caches) && n <= |caches| && UpdatesSourced(g, signals, since)
    ensures UpdatesSourced(g, signals + DirtyUpdates(g.targets, caches, n), since)
  {
    hide SignalSourced, CacheSourced;
    if n == 0 {
      assert signals + [] == signals;
    } else {
      var before := signals + DirtyUpdates(g.targets, caches, n - 1);
      DirtySourced(g, signals, since, caches, n - 1);
      if caches[n - 1].dirty {
        UpdateSourced(g, caches, n - 1);
        assert signals + DirtyUpdates(g.targets, caches, n) == before + [UpdateOf(g.targets, caches, n - 1)];
      } else {
        assert DirtyUpdates(g.targets, caches, n) == DirtyUpdates(g.targets, caches, n - 1);
      }
    }
  }

  lemma CleanedSourced(g: Ground, caches: seq<TargetCache>)
    requires CachesSourced(g, caches)
    ensures CachesSourced(g, Cleaned(caches))
  {
    hide WordsSourced, BitsSourced;
    forall i | 0 <= i < |caches|
      ensures CacheSourced(g, i, Cleaned(caches)[i])
    {
      assert CacheSourced(g, i, caches[i]);
    }
  }

  lemma FlushSourced(l: Link)
    requires AllSourced(GroundOf(l), l.e)
    ensures AllSourced(GroundOf(l.(e := Flush(l.e))), Flush(l.e))
  {
    hide CacheSourced, UpdatesSourced, SignalSourced;
    CleanedSourced(GroundOf(l), l.e.caches);
    DirtySourced(GroundOf(l), l.e.signals, l.e.record.since, l.e.caches, |l.e.caches|);
  }

  // ----- every other event -----

  lemma ConfigureSourced(l: Link, targets: seq<PollTarget>)
    requires l.e.options.Usable()
    ensures AllSourced(GroundOf(Configure(l, targets)), Configure(l, targets).e)
  {
    hide Plans;
    FreshCachesFit(targets);
  }

  lemma CycleSourced(l: Link, ready: Link)
    requires AllSourced(GroundOf(l), l.e) && SameValues(l.e, ready.e) && ready.m == l.m
    ensures AllSourced(GroundOf(BeginCycle(ready)), BeginCycle(ready).e)
  {
    hide AllSourced, SameValues, BeginCycle;
    BeginCycleEndsNothing(ready);
    BeginCycleSameValues(ready);
    SameValuesTransitive(l.e, ready.e, BeginCycle(ready).e);
    KeepsSources(l, BeginCycle(ready));
  }

  lemma ExpireSourced(s: Stack, expired: set<nat>)
    requires Sound(s) && AllSourced(GroundOf(s.link), s.link.e)
    ensures AllSourced(GroundOf(Expire(s, expired).link), Expire(s, expired).link.e)
  {
    hide AllSourced, SameValues, Sweep, AfterSweep, FailAll;
    var swept := s.(link := s.link.(m := AfterSweep(s.link.m, expired)));
    var exhausted := Sweep(s.link.m.pending, expired, s.link.m.retryCount).exhausted;
    OutcomesAreFinal(s.link.m, |s.link.m.pending|, [], expired);
    FailuresSameValues(swept, exhausted);
    FailuresEndNothing(swept, exhausted);
    KeepsSources(s.link, FailAll(swept, exhausted).link);
  }

  lemma StopSourced(l: Link)
    requires ManagerValid(l.m) && AllSourced(GroundOf(l), l.e)
    ensures AllSourced(GroundOf(Polling.Stop(l)), Polling.Stop(l).e)
  {
    hide ManagerValid, CachesSourced, UpdatesSourced;
    OutcomesAreFinal(l.m, |l.m.pending|, [], {});
    var stopped := Polling.Stop(l);
    KeepsSources(l, stopped.(e := stopped.e.(flushArmed := l.e.flushArmed)));
  }

  lemma StepSourced(s: Stack, event: Event)
    requires Sound(s) && Allowed(s, event) && AllSourced(GroundOf(s.link), s.link.e)
    ensures AllSourced(GroundOf(Step(s, event).link), Step(s, event).link.e)
  {
    hide AllSourced, Consume, Expire, BeginCycle, Configure, Flush, Plans, Balanced, Settled, LinkTraced;
    var l := s.link;
    match event
    case DataArrives(data) =>
      if l.m.pending != [] {
        BufferSound(s, l.m.receiveBuffer + data);
        ConsumeSourced(WithBuffer(s, l.m.receiveBuffer + data));
      }
    case DeadlinesPass(expired) => ExpireSourced(s, expired);
    case IntervalTimeout => CycleSourced(l, l.(e := l.e.(intervalArmed := false)));
    case Retarget(targets) =>
      ConfigureSourced(l, targets);
      EngineUnchanged(Configure(l, targets).e);
      CycleSourced(Configure(l, targets), Configure(l, targets));
    case StartPolling =>
      if !l.e.running {
        CycleSourced(l, l.(e := l.e.(running := true)));
      }
    case FlushTimeout => FlushSourced(l);
    case Reconfigure(options) => KeepsSources(l, l.(e := SetCoalescingOptions(l.e, options)));
    case StopPolling =>
      ManagerIsValid(l);
      StopSourced(l);
    case SendOneShot(request) =>
      EngineUnchanged(l.e);
      KeepsSources(l, OneShot(s, request).link);
  }

  lemma ManagerIsValid(l: Link)
    requires Consistent(l, [])
    ensures ManagerValid(l.m)
  {
  }

  /** The theorem: in every run, of every update emitted since the last retarget, each value
      is 0 or false or stands, at the place of its own device address, in the decoded answer
      to a request that was sent after the retarget and asked for that range. */
  lemma UpdatesAreFresh(states: seq<Stack>, events: seq<Event>, k: nat, n: nat)
    requires IsRun(states, events) && k < |states|
    requires states[k].link.e.record.since <= n < |states[k].link.e.signals|
    ensures SignalSourced(GroundOf(states[k].link), states[k].link.e.signals[n])
  {
    hide Sound, Step, SignalSourced, CachesSourced;
    InitiallySourced(states, events);
    for j := 0 to k
      invariant AllSourced(GroundOf(states[j].link), states[j].link.e)
    {
      assert Follows(states[j], events[j], states[j + 1]);
      RunsAreTraced(states, events, j);
      StepSourced(states[j], events[j]);
    }
  }

  lemma InitiallySourced(states: seq<Stack>, events: seq<Event>)
    requires IsRun(states, events)
    ensures AllSourced(GroundOf(states[0].link), states[0].link.e)
  {
  }
}
