/** From the wire to whoever listens: once a cycle against devices has completed, the last
    update sent for each target that is not waiting for a flush holds the devices' memory. */
module Announcements {
  import opened Numbers
  import opened RegisterTypes
  import opened ReadCoalescer
  import opened PlannerCoverage
  import opened Caches
  import opened CoalescedPolling
  import opened Transactions
  import opened Polling
  import opened OneShots
  import opened PollStack
  import opened Accounting
  import opened StackInvariants
  import opened Provenance
  import opened Isolation
  import opened FlushRefinement
  import opened EndToEnd
  import opened Devices

  // ----- what a plan leaves once it has been answered -----

  /** Since the last retarget something has been read for target i. */
  predicate Announced(e: Engine, i: nat) {
    LastUpdate(e.record.immediate, 0, i).Some?
  }

  ghost predicate PlanAnnounced(e: Engine, plan: ReadRequestPlan) {
    forall i: nat :: i < |e.targets| && StoresInto(plan.covered, i) ==> Announced(e, i)
  }

  /** The plan's values are in the caches, and its targets have been read. */
  ghost predicate PlanDone(memory: Memory, e: Engine, plan: ReadRequestPlan)
    requires CachesFit(e.targets, e.caches)
  {
    PlanHolds(memory, e, plan) && PlanAnnounced(e, plan)
  }

  /** The settled plans of this cycle are done, or all plans are. */
  ghost predicate DoneSoFar(memory: Memory, e: Engine, all: bool)
    requires CachesFit(e.targets, e.caches)
  {
    forall p: nat :: p < |e.plans| && (all || p in e.record.settled) ==> PlanDone(memory, e, e.plans[p])
  }

  lemma {:induction false} CarriersStore(covered: seq<CoveredTarget>, i: nat, offset: nat)
    ensures CarriersInPlan(covered, i, offset) > 0 ==> StoresInto(covered, i)
  {
    if covered != [] {
      CarriersStore(covered[..|covered| - 1], i, offset);
    }
  }

  // ----- two ways an engine goes on -----

  /** Targets, plans, values and what has been read stay; caches may have been cleaned. */
  predicate ValuesStay(a: Engine, b: Engine) {
    && b.targets == a.targets && b.plans == a.plans && b.options == a.options
    && b.record.immediate == a.record.immediate
    && |b.caches| == |a.caches|
    && forall i :: 0 <= i < |a.caches| ==>
         b.caches[i].registerValues == a.caches[i].registerValues && b.caches[i].bitValues == a.caches[i].bitValues
  }

  /** The plan's memory has been stored. */
  predicate Stored(memory: Memory, a: Engine, b: Engine, plan: ReadRequestPlan) {
    && b.targets == a.targets && b.plans == a.plans && b.options == a.options
    && b.caches == StoreValues(a, plan.covered, MemoryValues(memory, plan)).caches
    && b.record.immediate == StoreValues(a, plan.covered, MemoryValues(memory, plan)).record.immediate
  }

  lemma ValuesStayFit(a: Engine, b: Engine)
    requires CachesFit(a.targets, a.caches) && ValuesStay(a, b)
    ensures CachesFit(b.targets, b.caches)
  {
    forall i | 0 <= i < |b.targets|
      ensures CacheFits(b.targets[i], b.caches[i])
    {
      assert CacheFits(a.targets[i], a.caches[i]);
    }
  }

  lemma DoneStays(memory: Memory, a: Engine, b: Engine, plan: ReadRequestPlan)
    requires CachesFit(a.targets, a.caches) && PlanDone(memory, a, plan) && ValuesStay(a, b)
    ensures CachesFit(b.targets, b.caches) && PlanDone(memory, b, plan)
  {
    hide LastUpdate, StoresInto, CarriersInPlan;
    ValuesStayFit(a, b);
    forall index: nat, offset: nat |
      index < |b.targets| && offset < b.targets[index].quantity && CarriersInPlan(plan.covered, index, offset) > 0
      ensures CellHolds(memory, b, index, offset)
    {
      assert CellHolds(memory, a, index, offset);
    }
    forall i: nat | i < |b.targets| && StoresInto(plan.covered, i)
      ensures Announced(b, i)
    {
      assert Announced(a, i);
    }
  }

  lemma DoneAfterStore(memory: Memory, a: Engine, b: Engine, plan: ReadRequestPlan, other: ReadRequestPlan)
    requires Readable(a) && GoodSlices(a.targets, plan, plan.covered) && Stored(memory, a, b, plan)
    requires other == plan || PlanDone(memory, a, other)
    ensures CachesFit(b.targets, b.caches) && PlanDone(memory, b, other)
  {
    hide LastUpdate, StoresInto, CarriersInPlan, ApplySlices, ImmediateUpdates, Plans, PlanHolds, WithinProtocol, Placed;
    var stored := StoreValues(a, plan.covered, MemoryValues(memory, plan));
    HoldsAfterStore(memory, a, plan, other);
    SamePlanHolds(memory, stored, b, other);
    forall i: nat | i < |b.targets| && StoresInto(other.covered, i)
      ensures Announced(b, i)
    {
      ImmediateLast(a.record.immediate, a.targets, stored.caches, plan.covered, i);
      assert other != plan ==> Announced(a, i);
    }
  }

  // ----- one frame -----

  /** An honest frame stores the memory of the one plan it settles, or leaves all values. */
  lemma HonestEffect(memory: Memory, s: Stack, a: Arrival) returns (p: Option<nat>)
    requires Sound(s) && Readable(s.link.e) && HonestArrival(memory, s, a)
    ensures var e, after := s.link.e, Deliver(s, a).link.e;
            match p
            case None => ValuesStay(e, after) && after.record.settled == e.record.settled
            case Some(index) =>
              && index < |e.plans| && GoodSlices(e.targets, e.plans[index], e.plans[index].covered)
              && Stored(memory, e, after, e.plans[index]) && after.record.settled == e.record.settled + [index]
  {
    hide Answer, Readable, Sound, DeviceAnswers, Stored, GoodSlices;
    p := None;
    if a.Reply? && MatchOf(s.link.m.pending, a.transactionId) < |s.link.m.pending| {
      var i := MatchOf(s.link.m.pending, a.transactionId);
      if IsPoll(s.link.m.pending[i]) {
        var index := HonestPollEffect(memory, s, i, a.pdu);
        p := Some(index);
      } else {
        SoundRuns(s);
        AnswerOneShot(s, i, a.pdu);
      }
    }
  }

  lemma SoundRuns(s: Stack)
    requires Sound(s)
    ensures s.link.e.running ==> s.link.e.generation > 0
  {
  }

  lemma HonestPollEffect(memory: Memory, s: Stack, i: nat, pdu: seq<byte>) returns (p: nat)
    requires Sound(s) && Readable(s.link.e) && i < |s.link.m.pending| && IsPoll(s.link.m.pending[i])
    requires DeviceAnswers(memory, s.link.m.pending[i], pdu)
    ensures var e, after := s.link.e, Answer(s, i, pdu).link.e;
            && p < |e.plans| && GoodSlices(e.targets, e.plans[p], e.plans[p].covered)
            && Stored(memory, e, after, e.plans[p]) && after.record.settled == e.record.settled + [p]
  {
    hide Plans, WithinProtocol, Placed, DecodePlanResponse, ApplySlices, ImmediateUpdates, MemoryValues, NoteRequestSettled;
    hide ControllerResponse, Serviceable, DeviceAnswer, PlanPdu, Balanced, Settled;
    var l, r := s.link, s.link.m.pending[i];
    PollIsCurrent(l, i);
    p := r.correlationId % GENERATION_UNIT;
    var plan := l.e.plans[p];
    assert Genuine(r, l.e.plans, s.c.correlationId);
    PlansAreGood(l.e.targets, l.e.options);
    PlanAnswered(memory, plan);
    var stored := Link(Complete(l.m, i, pdu), StoreValues(l.e, plan.covered, MemoryValues(memory, plan)));
    assert ApplyPlanResponse(l.e, plan, pdu) == stored.e;
    SettlingKeepsRecord(stored, p);
    SettlingSameValues(stored, p);
  }

  lemma DeliverKeepsDone(memory: Memory, s: Stack, a: Arrival, all: bool)
    requires Sound(s) && Readable(s.link.e) && HonestArrival(memory, s, a) && DoneSoFar(memory, s.link.e, all)
    ensures Readable(Deliver(s, a).link.e) && DoneSoFar(memory, Deliver(s, a).link.e, all)
    ensures Deliver(s, a).link.e.targets == s.link.e.targets && Deliver(s, a).link.e.options == s.link.e.options
  {
    hide Sound, Deliver, HonestArrival, PlanDone, Plans, WithinProtocol, Placed, GoodSlices;
    DeliverKeepsReadable(s, a);
    var e, after := s.link.e, Deliver(s, a).link.e;
    var settled := HonestEffect(memory, s, a);
    forall p: nat | p < |after.plans| && (all || p in after.record.settled)
      ensures PlanDone(memory, after, after.plans[p])
    {
      if settled.None? {
        DoneStays(memory, e, after, e.plans[p]);
      } else {
        assert p != settled.value ==> PlanDone(memory, e, e.plans[p]);
        DoneAfterStore(memory, e, after, e.plans[settled.value], e.plans[p]);
      }
    }
  }

  lemma {:induction false} ConsumeKeepsDone(memory: Memory, s: Stack, all: bool)
    requires Sound(s) && Readable(s.link.e) && HonestBuffer(memory, s) && DoneSoFar(memory, s.link.e, all)
    ensures Readable(Consume(s).link.e) && DoneSoFar(memory, Consume(s).link.e, all)
    ensures Consume(s).link.e.targets == s.link.e.targets && Consume(s).link.e.options == s.link.e.options
    decreases |s.link.m.receiveBuffer|
  {
    hide Sound, Deliver, HonestArrival, PlanDone, Plans, WithinProtocol, Placed, NextArrival;
    var m := s.link.m;
    var next := NextArrival(m.mode, m.receiveBuffer);
    if m.pending != [] && next.Some? {
      var taken := WithBuffer(s, m.receiveBuffer[next.value.size..]);
      BufferSound(s, m.receiveBuffer[next.value.size..]);
      DeliverKeepsDone(memory, taken, next.value, all);
      DeliverSound(taken, next.value);
      ConsumeKeepsDone(memory, Deliver(taken, next.value), all);
    }
  }

  // ----- every event -----

  lemma AllDoneStays(memory: Memory, a: Engine, b: Engine, all: bool)
    requires Readable(a) && DoneSoFar(memory, a, all) && ValuesStay(a, b)
    requires all || b.record.settled == a.record.settled
    ensures Readable(b) && DoneSoFar(memory, b, all)
  {
    hide PlanDone, Plans, WithinProtocol, Placed;
    ValuesStayFit(a, b);
    forall p: nat | p < |b.plans| && (all || p in b.record.settled)
      ensures PlanDone(memory, b, b.plans[p])
    {
      DoneStays(memory, a, b, a.plans[p]);
    }
  }

  lemma FlushValuesStay(e: Engine)
    requires Readable(e)
    ensures ValuesStay(e, Flush(e)) && Flush(e).record.settled == e.record.settled
  {
  }

  lemma FlushKeepsDone(memory: Memory, e: Engine, all: bool)
    requires Readable(e) && DoneSoFar(memory, e, all)
    ensures Readable(Flush(e)) && DoneSoFar(memory, Flush(e), all)
    ensures Flush(e).targets == e.targets && Flush(e).options == e.options
  {
    hide DoneSoFar, ValuesStay, Plans, Placed, WithinProtocol;
    FlushValuesStay(e);
    AllDoneStays(memory, e, Flush(e), all);
  }

  lemma BeginCycleValuesStay(l: Link)
    ensures ValuesStay(l.e, BeginCycle(l).e)
  {
    PumpKeepsConfiguration(Rewound(l));
  }

  /** Devices' data, or, between cycles, the interval. */
  predicate GoesOn(memory: Memory, s: Stack, event: Event, all: bool) {
    Undisturbed(memory, s, event) || (all && event.IntervalTimeout?)
  }

  lemma EventKeepsDone(memory: Memory, s: Stack, event: Event, all: bool)
    requires Sound(s) && Allowed(s, event) && Readable(s.link.e) && DoneSoFar(memory, s.link.e, all)
    requires GoesOn(memory, s, event, all)
    ensures Readable(Step(s, event).link.e) && DoneSoFar(memory, Step(s, event).link.e, all)
    ensures Step(s, event).link.e.targets == s.link.e.targets && Step(s, event).link.e.options == s.link.e.options
  {
    hide Readable, Sound, HonestBuffer, Consume, DoneSoFar, BeginCycle, ValuesStay, FailAll, Sweep, AfterSweep, Flush;
    match event
    case DataArrives(data) =>
      if s.link.m.pending != [] {
        BufferSound(s, s.link.m.receiveBuffer + data);
        ConsumeKeepsDone(memory, WithBuffer(s, s.link.m.receiveBuffer + data), all);
      }
    case DeadlinesPass(expired) =>
      SoundRuns(s);
      OneShotFailuresLeavePolling(s.(link := s.link.(m := AfterSweep(s.link.m, expired))),
                                  Sweep(s.link.m.pending, expired, s.link.m.retryCount).exhausted);
    case FlushTimeout =>
      FlushKeepsDone(memory, s.link.e, all);
    case IntervalTimeout =>
      var ready := s.link.(e := s.link.e.(intervalArmed := false));
      BeginCycleValuesStay(ready);
      TimerOffStays(s.link.e, BeginCycle(ready).e);
      AllDoneStays(memory, s.link.e, BeginCycle(ready).e, all);
      StaysGivesTargets(s.link.e, BeginCycle(ready).e);
    case SendOneShot(_) =>
  }

  lemma StaysGivesTargets(a: Engine, b: Engine)
    requires ValuesStay(a, b)
    ensures b.targets == a.targets && b.options == a.options
  {
  }

  lemma TimerOffStays(e: Engine, after: Engine)
    requires ValuesStay(e.(intervalArmed := false), after)
    ensures ValuesStay(e, after)
  {
  }

  // ----- the cycle, and those after it -----

  lemma NothingDoneYet(memory: Memory, e: Engine)
    requires CachesFit(e.targets, e.caches) && e.record.settled == []
    ensures DoneSoFar(memory, e, false)
  {
  }

  lemma CompletedIsAllDone(memory: Memory, l: Link)
    requires Consistent(l, []) && l.e.intervalArmed && CachesFit(l.e.targets, l.e.caches) && DoneSoFar(memory, l.e, false)
    ensures DoneSoFar(memory, l.e, true)
  {
    hide PlanDone, Balanced, Settled;
    forall p: nat | p < |l.e.plans|
      ensures PlanDone(memory, l.e, l.e.plans[p])
    {
      CompletedCycleSettledAll(l, p);
    }
  }

  lemma SoundParts(s: Stack)
    requires Sound(s)
    ensures Consistent(s.link, []) && Configured(s.link.e)
  {
  }

  /** All plans done: every target holds its memory, and all that have values have been read. */
  lemma AllDoneIsRead(memory: Memory, e: Engine, index: nat)
    requires Readable(e) && DoneSoFar(memory, e, true) && index < |e.targets|
    ensures HoldsMemory(memory, e.targets[index], e.caches[index])
    ensures e.targets[index].quantity >= 1 ==> Announced(e, index)
  {
    hide HoldsMemory, Announced, StoresInto, CarriersInPlan, Carriers, CellOf, MemoryCell, Plans, Placed, WithinProtocol;
    forall offset: nat | offset < e.targets[index].quantity
      ensures CellOf(e.targets[index], e.caches[index], offset) == MemoryCell(memory, e.targets[index], offset)
    {
      var p := CarryingPlan(memory, e, index, offset);
      assert CellHolds(memory, e, index, offset);
    }
    CellsAreMemory(memory, e.targets[index], e.caches[index]);
    if e.targets[index].quantity >= 1 {
      var p := CarryingPlan(memory, e, index, 0);
      CarriersStore(e.plans[p].covered, index, 0);
    }
  }

  lemma CarryingPlan(memory: Memory, e: Engine, index: nat, offset: nat) returns (p: nat)
    requires Readable(e) && DoneSoFar(memory, e, true) && index < |e.targets| && offset < e.targets[index].quantity
    ensures p < |e.plans| && CarriersInPlan(e.plans[p].covered, index, offset) > 0 && PlanDone(memory, e, e.plans[p])
  {
    hide PlanDone, Plans, CarriersInPlan, Carriers, Placed, WithinProtocol;
    ExactCoverage(e.targets, e.options, index, offset);
    p := SomePlanCarries(e.plans, index, offset);
  }

  /** The update that holds a target's memory. */
  function MemoryUpdate(memory: Memory, targets: seq<PollTarget>, i: nat): Signal
    requires i < |targets|
  {
    var t := targets[i];
    if IsBitType(t.registerType) then
      BitsUpdated(i, t.startAddress, FlagsIn(memory, t.unitId, t.registerType, t.startAddress, t.quantity))
    else RegistersUpdated(i, t.startAddress, WordsIn(memory, t.unitId, t.registerType, t.startAddress, t.quantity))
  }

  /** A clean value has been sent as it is. */
  lemma CleanIsSent(memory: Memory, e: Engine, i: nat, prompt: bool)
    requires AllInStep(e, prompt) && i < |e.targets| && i < |e.caches| && !e.caches[i].dirty
    requires Announced(e, i) && HoldsMemory(memory, e.targets[i], e.caches[i])
    ensures LastUpdate(e.signals, e.record.since, i) == Some(MemoryUpdate(memory, e.targets, i))
  {
    hide LastUpdate;
    assert InStep(e, i);
  }

  /** Along a stretch of events, in the cycle or after it. */
  lemma StretchKeepsDone(states: seq<Stack>, events: seq<Event>, j: nat, k: nat, memory: Memory, all: bool)
    requires IsRun(states, events) && j <= k < |states|
    requires Readable(states[j].link.e) && DoneSoFar(memory, states[j].link.e, all)
    requires forall i :: j <= i < k ==> Serviced(memory, states[i], events[i]) || (all && events[i].IntervalTimeout?)
    ensures Readable(states[k].link.e) && DoneSoFar(memory, states[k].link.e, all)
    ensures states[k].link.e.targets == states[j].link.e.targets
  {
    hide Readable, DoneSoFar, Sound, Serviced, Step;
    for i := j to k
      invariant ReadableDone(memory, states[i].link.e, all)
      invariant states[i].link.e.targets == states[j].link.e.targets
    {
      assert Follows(states[i], events[i], states[i + 1]);
      RunsAreTraced(states, events, i);
      if Serviced(memory, states[i], events[i]) {
        ServicedIsUndisturbed(memory, states[i], events[i]);
      }
      EventKeepsDone(memory, states[i], events[i], all);
    }
  }

  ghost predicate ReadableDone(memory: Memory, e: Engine, all: bool) {
    Readable(e) && DoneSoFar(memory, e, all)
  }

  /** Once the cycle has completed, all plans are done, and stay so. */
  lemma CompletedAndOn(states: seq<Stack>, events: seq<Event>, j: nat, k: nat, n: nat, memory: Memory)
    requires IsRun(states, events) && j <= k <= n < |states|
    requires states[j].link.e.record.settled == []
    requires Placed(states[j].link.e.targets) && WithinProtocol(states[j].link.e.options)
    requires forall i :: j <= i < k ==> Serviced(memory, states[i], events[i])
    requires states[k].link.e.intervalArmed
    requires forall i :: k <= i < n ==> Serviced(memory, states[i], events[i]) || events[i].IntervalTimeout?
    ensures states[n].link.e.targets == states[j].link.e.targets
    ensures Readable(states[n].link.e) && DoneSoFar(memory, states[n].link.e, true)
  {
    hide Readable, DoneSoFar, Sound, Serviced, Consistent;
    RunsAreTraced(states, events, j);
    SoundParts(states[j]);
    ReadableParts(states[j].link.e);
    NothingDoneYet(memory, states[j].link.e);
    StretchKeepsDone(states, events, j, k, memory, false);
    RunsAreTraced(states, events, k);
    SoundParts(states[k]);
    CompletedIsAllDone(memory, states[k].link);
    StretchKeepsDone(states, events, k, n, memory, true);
  }

  /** The theorem from wire to consumer: take any stretch of any run that begins with a new
      cycle, in which what arrives are answers of devices to transmitted frames and no poll is
      given up. Once that cycle has completed, and however many cycles follow it in the same
      way, the last update sent since the retarget for every target with a value, unless one is
      waiting for the flush, holds the devices' memory over the target's range. */
  lemma ServicedCycleIsSent(states: seq<Stack>, events: seq<Event>, j: nat, k: nat, n: nat, memory: Memory, index: nat)
    requires IsRun(states, events) && j <= k <= n < |states|
    requires states[j].link.e.record.settled == []
    requires Placed(states[j].link.e.targets) && WithinProtocol(states[j].link.e.options)
    requires forall i :: j <= i < k ==> Serviced(memory, states[i], events[i])
    requires states[k].link.e.intervalArmed
    requires forall i :: k <= i < n ==> Serviced(memory, states[i], events[i]) || events[i].IntervalTimeout?
    requires index < |states[n].link.e.targets| && states[n].link.e.targets[index].quantity >= 1
    requires index < |states[n].link.e.caches| && !states[n].link.e.caches[index].dirty
    ensures states[n].link.e.targets == states[j].link.e.targets
    ensures var e := states[n].link.e;
            LastUpdate(e.signals, e.record.since, index) == Some(MemoryUpdate(memory, e.targets, index))
  {
    hide Readable, DoneSoFar, Serviced, Announced, HoldsMemory, AllInStep;
    CompletedAndOn(states, events, j, k, n, memory);
    AllDoneIsRead(memory, states[n].link.e, index);
    RunsInStep(states, events, n);
    CleanIsSent(memory, states[n].link.e, index, PromptAfterAll(events[..n]));
  }

  lemma ReadableParts(e: Engine)
    requires Configured(e) && Placed(e.targets) && WithinProtocol(e.options)
    ensures Readable(e) && CachesFit(e.targets, e.caches)
  {
  }

  /** In particular right after the next flush, for every such target. */
  lemma ServicedCycleIsFlushed(states: seq<Stack>, events: seq<Event>, j: nat, k: nat, n: nat, memory: Memory, index: nat)
    requires IsRun(states, events) && j <= k <= n < |events|
    requires states[j].link.e.record.settled == []
    requires Placed(states[j].link.e.targets) && WithinProtocol(states[j].link.e.options)
    requires forall i :: j <= i < k ==> Serviced(memory, states[i], events[i])
    requires states[k].link.e.intervalArmed
    requires forall i :: k <= i < n ==> Serviced(memory, states[i], events[i]) || events[i].IntervalTimeout?
    requires events[n] == FlushTimeout
    requires index < |states[j].link.e.targets| && states[j].link.e.targets[index].quantity >= 1
    ensures var e := states[n + 1].link.e;
            && e.targets == states[j].link.e.targets
            && LastUpdate(e.signals, e.record.since, index) == Some(MemoryUpdate(memory, e.targets, index))
  {
    hide LastUpdate, MemoryUpdate, FromDevices, Serviced, Readable, DoneSoFar;
    assert Follows(states[n], events[n], states[n + 1]);
    FlushIsServiced(memory, states[n], events[n]);
    CompletedAndOn(states, events, j, k, n, memory);
    FlushedIsClean(states[n].link.e);
    ServicedCycleIsSent(states, events, j, k, n + 1, memory, index);
  }

  lemma FlushIsServiced(memory: Memory, s: Stack, event: Event)
    requires event == FlushTimeout
    ensures Serviced(memory, s, event)
  {
  }

  lemma FlushedIsClean(e: Engine)
    requires |e.caches| == |e.targets|
    ensures |Flush(e).caches| == |Flush(e).targets| && Flush(e).targets == e.targets
    ensures forall i :: 0 <= i < |Flush(e).caches| ==> !Flush(e).caches[i].dirty
  {
  }
}
