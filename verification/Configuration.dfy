/** What the engine is set to at any moment of a run, told from the calls made so far: the
    targets, the options and whether it runs are those last asked for, and nothing else ever
    changes them. What a cycle reports is therefore about the targets of the latest call. */
module Configuration {
  import opened Numbers
  import opened RegisterTypes
  import opened ReadCoalescer
  import opened PlannerCoverage
  import opened Caches
  import opened CoalescedPolling
  import opened Transactions
  import opened Polling
  import opened OneShots
  import opened PollStack
  import opened StackInvariants
  import opened Provenance
  import opened FlushRefinement
  import opened EndToEnd
  import opened Devices
  import opened Announcements

  // ----- the calls so far -----

  function LatestTargets(events: seq<Event>): seq<PollTarget> {
    if events == [] then []
    else
      match events[|events| - 1]
      case Retarget(targets) => targets
      case _ => LatestTargets(events[..|events| - 1])
  }

  function LatestOptions(events: seq<Event>, initial: CoalescingOptions): CoalescingOptions {
    if events == [] then initial
    else
      match events[|events| - 1]
      case Reconfigure(options) => options
      case _ => LatestOptions(events[..|events| - 1], initial)
  }

  /** Whether polling was started and not stopped since. */
  predicate Started(events: seq<Event>) {
    if events == [] then false
    else
      match events[|events| - 1]
      case StartPolling => true
      case StopPolling => false
      case _ => Started(events[..|events| - 1])
  }

  function Retargets(events: seq<Event>): nat {
    if events == [] then 0
    else Retargets(events[..|events| - 1]) + if events[|events| - 1].Retarget? then 1 else 0
  }

  // ----- nothing else changes them -----

  /** What is set from outside, and what was counted and noted when it was. */
  predicate SameSetup(a: Engine, b: Engine) {
    && b.targets == a.targets && b.options == a.options && b.running == a.running
    && b.generation == a.generation && b.maxInFlight == a.maxInFlight && b.record.since == a.record.since
  }

  lemma SettlingKeepsSetup(l: Link, i: int)
    ensures SameSetup(l.e, NoteRequestSettled(l, i).e)
  {
    PumpKeepsConfiguration(l.(e := Settle(l.e, i)));
  }

  lemma ResponseKeepsSetup(l: Link, correlationId: nat, pdu: seq<byte>)
    ensures SameSetup(l.e, HandleResponse(l, correlationId, pdu).e)
    ensures SameSetup(l.e, HandleFailure(l, correlationId).e)
  {
    hide NoteRequestSettled, ApplySlices, ImmediateUpdates, DecodePlanResponse, FailedTargets;
    var index := PlanIndexOf(correlationId);
    var covered := if 0 <= index < |l.e.plans| then l.e.plans[index].covered else [];
    SettlingKeepsSetup(l.(e := UseReply(l.e, index, pdu)), index);
    SettlingKeepsSetup(l.(e := ReportFailure(l.e, covered)), index);
  }

  lemma DeliverKeepsSetup(s: Stack, a: Arrival)
    ensures SameSetup(s.link.e, Deliver(s, a).link.e)
  {
    hide HandleResponse;
    if a.Reply? && MatchOf(s.link.m.pending, a.transactionId) < |s.link.m.pending| {
      var i := MatchOf(s.link.m.pending, a.transactionId);
      ResponseKeepsSetup(s.link.(m := Complete(s.link.m, i, a.pdu)), s.link.m.pending[i].correlationId, a.pdu);
    }
  }

  lemma {:induction false} ConsumeKeepsSetup(s: Stack)
    ensures SameSetup(s.link.e, Consume(s).link.e)
    decreases |s.link.m.receiveBuffer|
  {
    hide Deliver, NextArrival;
    var m := s.link.m;
    var next := NextArrival(m.mode, m.receiveBuffer);
    if m.pending != [] && next.Some? {
      var taken := WithBuffer(s, m.receiveBuffer[next.value.size..]);
      DeliverKeepsSetup(taken, next.value);
      ConsumeKeepsSetup(Deliver(taken, next.value));
    }
  }

  lemma {:induction false} FailuresKeepSetup(s: Stack, doomed: seq<PendingRequest>)
    ensures SameSetup(s.link.e, FailAll(s, doomed).link.e)
    decreases |doomed|
  {
    hide HandleFailure;
    if doomed != [] {
      ResponseKeepsSetup(s.link, doomed[0].correlationId, []);
      FailuresKeepSetup(Fail(s, doomed[0].correlationId), doomed[1..]);
    }
  }

  lemma BeginCycleKeepsSetup(l: Link)
    ensures SameSetup(l.e, BeginCycle(l).e)
  {
    PumpKeepsConfiguration(Rewound(l));
  }

  /** What one event sets. */
  lemma StepSets(s: Stack, event: Event)
    requires Shaped(s.link.e) && Allowed(s, event)
    ensures var e, after := s.link.e, Step(s, event).link.e;
            && after.targets == (if event.Retarget? then event.targets else e.targets)
            && after.options == (if event.Reconfigure? then event.options else e.options)
            && after.running == (event.StartPolling? || (e.running && !event.StopPolling?))
            && after.generation == e.generation + (if event.Retarget? then 1 else 0)
            && after.maxInFlight == e.maxInFlight
            && after.record.since == if event.Retarget? then |e.signals| else e.record.since
  {
    hide Consume, FailAll, AfterSweep, Sweep, BeginCycle, Plans, CancelAll, FreshCaches;
    match event
    case DataArrives(data) =>
      if s.link.m.pending != [] {
        ConsumeKeepsSetup(WithBuffer(s, s.link.m.receiveBuffer + data));
      }
    case DeadlinesPass(expired) =>
      FailuresKeepSetup(s.(link := s.link.(m := AfterSweep(s.link.m, expired))),
                        Sweep(s.link.m.pending, expired, s.link.m.retryCount).exhausted);
    case IntervalTimeout => BeginCycleKeepsSetup(s.link.(e := s.link.e.(intervalArmed := false)));
    case Retarget(targets) => BeginCycleKeepsSetup(Configure(s.link, targets));
    case StartPolling => BeginCycleKeepsSetup(s.link.(e := s.link.e.(running := true)));
    case _ =>
  }

  /** Engine e is set to what the calls asked for, beginning with engine `initial`. */
  predicate SetAsCalled(initial: Engine, events: seq<Event>, e: Engine) {
    && e.targets == LatestTargets(events)
    && e.options == LatestOptions(events, initial.options)
    && (e.running <==> Started(events))
    && e.generation == Retargets(events)
    && e.maxInFlight == initial.maxInFlight
  }

  lemma StepSetsAsCalled(initial: Engine, events: seq<Event>, s: Stack, event: Event)
    requires Shaped(s.link.e) && Allowed(s, event) && SetAsCalled(initial, events, s.link.e)
    ensures SetAsCalled(initial, events + [event], Step(s, event).link.e)
  {
    hide Step, Allowed;
    StepSets(s, event);
    assert (events + [event])[..|events|] == events;
  }

  /** The theorem: in every state of every run the targets are the argument of the latest
      `setTargets` (none before the first), the options those of the latest
      `setCoalescingOptions`, the engine runs exactly if it was started and not stopped since,
      and the generation counts the retargets. */
  lemma SetupFollowsCalls(states: seq<Stack>, events: seq<Event>, k: nat)
    requires IsRun(states, events) && k < |states|
    ensures states[k].link.e.targets == LatestTargets(events[..k])
    ensures states[k].link.e.options == LatestOptions(events[..k], states[0].link.e.options)
    ensures states[k].link.e.running <==> Started(events[..k])
    ensures states[k].link.e.generation == Retargets(events[..k])
    ensures states[k].link.e.maxInFlight == states[0].link.e.maxInFlight
  {
    RunSetAsCalled(states, events, k);
  }

  lemma RunSetAsCalled(states: seq<Stack>, events: seq<Event>, k: nat)
    requires IsRun(states, events) && k < |states|
    ensures SetAsCalled(states[0].link.e, events[..k], states[k].link.e)
  {
    hide Step, SetAsCalled, Shaped, Allowed;
    SetupAtFirst(states, events);
    for j := 0 to k
      invariant SetAsCalled(states[0].link.e, events[..j], states[j].link.e)
    {
      assert Follows(states[j], events[j], states[j + 1]);
      StepSetsAsCalled(states[0].link.e, events[..j], states[j], events[j]);
      assert events[..j + 1] == events[..j] + [events[j]];
    }
  }

  lemma SetupAtFirst(states: seq<Stack>, events: seq<Event>)
    requires IsRun(states, events)
    ensures SetAsCalled(states[0].link.e, [], states[0].link.e)
  {
  }

  // ----- the cycle that a call begins -----

  /** The calls that begin a cycle: a retarget while polling, and the start of polling. */
  predicate BeginsCycle(events: seq<Event>, j: nat)
    requires j < |events|
  {
    if Started(events[..j]) then events[j].Retarget? else events[j].StartPolling?
  }

  lemma RewoundIsUnsettled(l: Link)
    requires l.e.running && l.e.plans != []
    ensures BeginCycle(l).e.record.settled == []
  {
    PumpKeepsConfiguration(Rewound(l));
  }

  lemma BegunUnsettled(s: Stack, event: Event)
    requires Shaped(s.link.e) && Allowed(s, event)
    requires if s.link.e.running then event.Retarget? else event.StartPolling?
    requires Configured(Step(s, event).link.e) && Step(s, event).link.e.plans != []
    requires Configured(s.link.e)
    ensures Step(s, event).link.e.record.settled == []
  {
    hide Plans, BeginCycle, CancelAll, FreshCaches;
    if event.Retarget? {
      BeginCycleKeepsSetup(Configure(s.link, event.targets));
      RewoundIsUnsettled(Configure(s.link, event.targets));
    } else {
      var started := s.link.(e := s.link.e.(running := true));
      BeginCycleKeepsSetup(started);
      RewoundIsUnsettled(started);
    }
  }

  /** Targets with values have plans. */
  lemma WantedIsPlanned(targets: seq<PollTarget>, options: CoalescingOptions, index: nat)
    requires options.Usable() && index < |targets| && targets[index].quantity >= 1
    ensures Plans(targets, options) != []
  {
    hide Plans;
    ExactCoverage(targets, options, index, 0);
  }

  /** What happens between the call and the flush after its cycle: devices answer, up to the
      end of the cycle at k and in any number of cycles after it. */
  ghost predicate ServicedUpTo(memory: Memory, states: seq<Stack>, events: seq<Event>, j: nat, k: nat, n: nat)
    requires j < k <= n < |events| < |states|
  {
    && (forall i :: j < i < k ==> Serviced(memory, states[i], events[i]))
    && states[k].link.e.intervalArmed
    && (forall i :: k <= i < n ==> Serviced(memory, states[i], events[i]) || events[i].IntervalTimeout?)
  }

  lemma ServicedIsNoRetarget(memory: Memory, s: Stack, event: Event)
    requires Serviced(memory, s, event)
    ensures !event.Retarget?
  {
  }

  /** Without a retarget the place in the signals from which updates count stays. */
  lemma SinceKept(states: seq<Stack>, events: seq<Event>, j: nat, k: nat)
    requires IsRun(states, events) && j <= k < |states|
    requires forall i :: j <= i < k ==> !events[i].Retarget?
    ensures states[k].link.e.record.since == states[j].link.e.record.since
  {
    hide Step;
    for i := j to k
      invariant states[i].link.e.record.since == states[j].link.e.record.since
    {
      assert Follows(states[i], events[i], states[i + 1]);
      StepSets(states[i], events[i]);
    }
  }

  /** Updates count from the latest retarget on. */
  lemma SinceTheRetarget(states: seq<Stack>, events: seq<Event>, r: nat, j: nat)
    requires IsRun(states, events) && r < j < |states|
    requires events[r].Retarget? && (forall i :: r < i < j ==> !events[i].Retarget?)
    ensures states[j].link.e.record.since == |states[r].link.e.signals|
  {
    hide Step;
    assert Follows(states[r], events[r], states[r + 1]);
    StepSets(states[r], events[r]);
    SinceKept(states, events, r + 1, j);
  }

  lemma ServicedKeepsSince(memory: Memory, states: seq<Stack>, events: seq<Event>, j: nat, k: nat, n: nat)
    requires IsRun(states, events) && j < k <= n < |events| && ServicedUpTo(memory, states, events, j, k, n)
    requires events[n] == FlushTimeout
    ensures states[n + 1].link.e.record.since == states[j + 1].link.e.record.since
  {
    hide Serviced, Step;
    forall i | j < i < n
      ensures !events[i].Retarget?
    {
      if i < k || !events[i].IntervalTimeout? {
        ServicedIsNoRetarget(memory, states[i], events[i]);
      }
    }
    SinceKept(states, events, j + 1, n + 1);
  }

  /** The cycle of the call begins with nothing settled. */
  lemma CalledCycleBegins(states: seq<Stack>, events: seq<Event>, j: nat, index: nat)
    requires IsRun(states, events) && j < |events| && BeginsCycle(events, j)
    requires index < |LatestTargets(events[..j + 1])| && LatestTargets(events[..j + 1])[index].quantity >= 1
    ensures states[j + 1].link.e.record.settled == []
  {
    hide Step, Configured, Plans, Sound;
    SetupFollowsCalls(states, events, j);
    SetupFollowsCalls(states, events, j + 1);
    SoundAlways(states, events, j);
    SoundAlways(states, events, j + 1);
    ConfiguredHasPlans(states[j + 1].link.e, index);
    assert Follows(states[j], events[j], states[j + 1]);
    BegunUnsettled(states[j], events[j]);
  }

  lemma SoundAlways(states: seq<Stack>, events: seq<Event>, k: nat)
    requires IsRun(states, events) && k < |states|
    ensures Configured(states[k].link.e)
  {
    hide Configured;
    RunsAreTraced(states, events, k);
    SoundIsConfigured(states[k]);
  }

  lemma ConfiguredHasPlans(e: Engine, index: nat)
    requires Configured(e) && index < |e.targets| && e.targets[index].quantity >= 1
    ensures e.plans != []
  {
    hide Plans;
    WantedIsPlanned(e.targets, e.options, index);
  }

  /** From a call to the updates: polling is started, or retargeted while it runs; devices
      answer; then, after the cycle and the next flush, the last update for every target of
      the latest `setTargets` holds the devices' memory over that very target's range. */
  lemma CalledCycleIsFlushed(states: seq<Stack>, events: seq<Event>, j: nat, k: nat, n: nat, memory: Memory, index: nat)
    requires IsRun(states, events) && j < k <= n < |events| && BeginsCycle(events, j)
    requires ServicedUpTo(memory, states, events, j, k, n) && events[n] == FlushTimeout
    requires Placed(LatestTargets(events[..j + 1]))
    requires WithinProtocol(LatestOptions(events[..j + 1], states[0].link.e.options))
    requires index < |LatestTargets(events[..j + 1])| && LatestTargets(events[..j + 1])[index].quantity >= 1
    ensures LastUpdate(states[n + 1].link.e.signals, states[j + 1].link.e.record.since, index)
         == Some(MemoryUpdate(memory, LatestTargets(events[..j + 1]), index))
  {
    hide Serviced, LastUpdate, MemoryUpdate, Step, Placed, WithinProtocol, LatestTargets, LatestOptions, Started;
    CalledCycleBegins(states, events, j, index);
    SetupFollowsCalls(states, events, j + 1);
    ServicedKeepsSince(memory, states, events, j, k, n);
    ServicedCycleIsFlushed(states, events, j + 1, k, n, memory, index);
  }

  /** A retarget while polling: after its cycle and the next flush, the last update sent since
      the call, for each of the targets it was given, holds the devices' memory. */
  lemma RetargetedCycleIsFlushed(states: seq<Stack>, events: seq<Event>, j: nat, k: nat, n: nat, memory: Memory,
                                 targets: seq<PollTarget>, index: nat)
    requires IsRun(states, events) && j < k <= n < |events|
    requires Started(events[..j]) && events[j] == Retarget(targets)
    requires ServicedUpTo(memory, states, events, j, k, n) && events[n] == FlushTimeout
    requires Placed(targets) && WithinProtocol(LatestOptions(events[..j], states[0].link.e.options))
    requires index < |targets| && targets[index].quantity >= 1
    ensures LastUpdate(states[n + 1].link.e.signals, |states[j].link.e.signals|, index)
         == Some(MemoryUpdate(memory, targets, index))
  {
    hide Serviced, LastUpdate, MemoryUpdate, Step, Placed, WithinProtocol, Started;
    CallAppends(events, j, states[0].link.e.options);
    SinceTheRetarget(states, events, j, j + 1);
    CalledCycleIsFlushed(states, events, j, k, n, memory, index);
  }

  lemma CallAppends(events: seq<Event>, j: nat, initial: CoalescingOptions)
    requires j < |events|
    ensures LatestTargets(events[..j + 1])
         == if events[j].Retarget? then events[j].targets else LatestTargets(events[..j])
    ensures LatestOptions(events[..j + 1], initial)
         == if events[j].Reconfigure? then events[j].options else LatestOptions(events[..j], initial)
  {
    assert events[..j + 1][..j] == events[..j];
  }

  /** A start after a retarget: after its cycle and the next flush, the last update sent since
      the retarget, for each of the targets given then, holds the devices' memory. */
  lemma StartedCycleIsFlushed(states: seq<Stack>, events: seq<Event>, r: nat, j: nat, k: nat, n: nat, memory: Memory,
                              targets: seq<PollTarget>, index: nat)
    requires IsRun(states, events) && r < j < k <= n < |events|
    requires events[r] == Retarget(targets) && (forall i :: r < i < j ==> !events[i].Retarget?)
    requires !Started(events[..j]) && events[j] == StartPolling
    requires ServicedUpTo(memory, states, events, j, k, n) && events[n] == FlushTimeout
    requires Placed(targets) && WithinProtocol(LatestOptions(events[..j], states[0].link.e.options))
    requires index < |targets| && targets[index].quantity >= 1
    ensures LastUpdate(states[n + 1].link.e.signals, |states[r].link.e.signals|, index)
         == Some(MemoryUpdate(memory, targets, index))
  {
    hide Serviced, LastUpdate, MemoryUpdate, Step, Placed, WithinProtocol, Started, ServicedUpTo, Follows, IsInitial;
    TargetsStayLatest(events, r, j);
    CallAppends(events, j, states[0].link.e.options);
    SinceTheRetarget(states, events, r, j + 1);
    CalledCycleIsFlushed(states, events, j, k, n, memory, index);
  }

  lemma {:induction false} TargetsStayLatest(events: seq<Event>, r: nat, j: nat)
    requires r < j <= |events| && events[r].Retarget? && (forall i :: r < i < j ==> !events[i].Retarget?)
    ensures LatestTargets(events[..j]) == events[r].targets
    decreases j
  {
    assert events[..j][..j - 1] == events[..j - 1];
    if r < j - 1 {
      TargetsStayLatest(events, r, j - 1);
    }
  }
}
