/** Who hears of what goes wrong: a poll's failure is reported once, and once more for every
    slice to the target the slice is for; a one-shot's failure once to whoever asked. */
module Failures {
  import opened Numbers
  import opened Bits
  import opened RegisterTypes
  import opened ReadCoalescer
  import opened PduCodec
  import opened Decoding
  import opened Caches
  import opened Transactions
  import opened Polling
  import opened OneShots
  import opened PollStack
  import opened Accounting
  import opened StackInvariants
  import opened Provenance
  import opened Isolation

  // ----- counting reports -----

  function PollFailures(signals: seq<Signal>): nat {
    if signals == [] then 0
    else PollFailures(signals[..|signals| - 1]) + if signals[|signals| - 1] == PollFailed then 1 else 0
  }

  function TargetFailures(signals: seq<Signal>, target: nat): nat {
    if signals == [] then 0
    else
      TargetFailures(signals[..|signals| - 1], target) + if signals[|signals| - 1] == TargetFailed(target) then 1 else 0
  }

  function SlicesFor(covered: seq<CoveredTarget>, target: nat): nat {
    if covered == [] then 0
    else SlicesFor(covered[..|covered| - 1], target) + if covered[|covered| - 1].targetIndex == target then 1 else 0
  }

  lemma {:induction false} FailuresAppend(a: seq<Signal>, b: seq<Signal>, target: nat)
    ensures PollFailures(a + b) == PollFailures(a) + PollFailures(b)
    ensures TargetFailures(a + b, target) == TargetFailures(a, target) + TargetFailures(b, target)
  {
    if b == [] {
      assert a + b == a;
    } else {
      FailuresAppend(a, b[..|b| - 1], target);
      assert (a + b)[..|a + b| - 1] == a + b[..|b| - 1];
    }
  }

  lemma {:induction false} FailedTargetsCounted(covered: seq<CoveredTarget>, target: nat)
    ensures PollFailures(FailedTargets(covered)) == 0
    ensures TargetFailures(FailedTargets(covered), target) == SlicesFor(covered, target)
  {
    if covered != [] {
      FailedTargetsCounted(covered[..|covered| - 1], target);
      assert FailedTargets(covered)[..|covered| - 1] == FailedTargets(covered[..|covered| - 1]);
    }
  }

  lemma OneFailure(signal: Signal, target: nat)
    ensures PollFailures([signal]) == if signal == PollFailed then 1 else 0
    ensures TargetFailures([signal], target) == if signal == TargetFailed(target) then 1 else 0
  {
    assert [signal][..0] == [];
  }

  /** Between the two engines, so many failed polls were reported, and so many to the target. */
  predicate Reported(a: Engine, b: Engine, polls: nat, target: nat, slices: nat) {
    && PollFailures(b.signals) == PollFailures(a.signals) + polls
    && TargetFailures(b.signals, target) == TargetFailures(a.signals, target) + slices
  }

  lemma ReportCounts(e: Engine, covered: seq<CoveredTarget>, target: nat)
    ensures Reported(e, ReportFailure(e, covered), 1, target, SlicesFor(covered, target))
  {
    hide FailedTargets, PollFailures, TargetFailures, SlicesFor;
    FailuresAppend(e.signals, [PollFailed] + FailedTargets(covered), target);
    FailuresAppend([PollFailed], FailedTargets(covered), target);
    OneFailure(PollFailed, target);
    FailedTargetsCounted(covered, target);
    assert ReportFailure(e, covered).signals == e.signals + ([PollFailed] + FailedTargets(covered));
  }

  /** Settling reports at most the end of the cycle. */
  lemma SettlingReports(l: Link, i: int, target: nat)
    ensures Reported(l.e, NoteRequestSettled(l, i).e, 0, target, 0)
    ensures NoteRequestSettled(l, i).e.caches == l.e.caches && NoteRequestSettled(l, i).e.flushArmed == l.e.flushArmed
  {
    hide PollFailures, TargetFailures;
    PumpKeepsConfiguration(l.(e := Settle(l.e, i)));
    FailuresAppend(l.e.signals, [CycleCompleted], target);
    OneFailure(CycleCompleted, target);
  }

  // ----- replies to polls -----

  /** The replies that a plan accepts, told from their bytes. */
  predicate Acceptable(plan: ReadRequestPlan, pdu: seq<byte>) {
    if IsBitType(plan.registerType) then BitReply(pdu, ReadFunctionCodeFor(plan.registerType), plan.quantity)
    else RegisterReply(pdu, ReadFunctionCodeFor(plan.registerType))
  }

  lemma AcceptableIff(plan: ReadRequestPlan, pdu: seq<byte>)
    ensures DecodePlanResponse(plan, pdu).Ok? <==> Acceptable(plan, pdu)
  {
    hide DecodedBits, DecodedRegisters, BitReply, RegisterReply;
    BitsAcceptedIff(pdu, ReadFunctionCodeFor(plan.registerType), plan.quantity);
    RegistersAcceptedIff(pdu, ReadFunctionCodeFor(plan.registerType));
  }

  /** The plan a pending poll was sent for. */
  function PlanIn(e: Engine, r: PendingRequest): (plan: ReadRequestPlan)
    requires r.correlationId % GENERATION_UNIT < |e.plans|
  {
    e.plans[r.correlationId % GENERATION_UNIT]
  }

  lemma PollHandled(s: Stack, i: nat, pdu: seq<byte>)
    requires StackValid(s) && i < |s.link.m.pending| && IsPoll(s.link.m.pending[i])
    ensures s.link.m.pending[i].correlationId % GENERATION_UNIT < |s.link.e.plans|
    ensures var p := s.link.m.pending[i].correlationId % GENERATION_UNIT;
            Answer(s, i, pdu).link
            == NoteRequestSettled(Link(Complete(s.link.m, i, pdu), ApplyPlanResponse(s.link.e, s.link.e.plans[p], pdu)), p)
  {
    hide ApplyPlanResponse, NoteRequestSettled, Complete, ControllerResponse;
    PollIsCurrent(s.link, i);
  }

  /** A reply to a poll that does not have the bytes its plan accepts changes no value, and is
      reported once, and once for each slice to the slice's target; an acceptable one is not
      reported as a failure at all. */
  lemma RepliesReported(s: Stack, i: nat, pdu: seq<byte>, target: nat)
    requires StackValid(s) && i < |s.link.m.pending| && IsPoll(s.link.m.pending[i])
    ensures s.link.m.pending[i].correlationId % GENERATION_UNIT < |s.link.e.plans|
    ensures var e, after, plan := s.link.e, Answer(s, i, pdu).link.e, PlanIn(s.link.e, s.link.m.pending[i]);
            if Acceptable(plan, pdu) then Reported(e, after, 0, target, 0)
            else
              && after.caches == e.caches && after.flushArmed == e.flushArmed
              && Reported(e, after, 1, target, SlicesFor(plan.covered, target))
  {
    hide StackValid, Answer, DecodePlanResponse, Acceptable, NoteRequestSettled, ApplySlices, ImmediateUpdates, SlicesFor;
    hide PollFailures, TargetFailures, FailedTargets, Complete;
    PollHandled(s, i, pdu);
    var p := s.link.m.pending[i].correlationId % GENERATION_UNIT;
    var plan, l := s.link.e.plans[p], s.link;
    AcceptableIff(plan, pdu);
    ReportCounts(l.e, plan.covered, target);
    SettlingReports(Link(Complete(l.m, i, pdu), ApplyPlanResponse(l.e, plan, pdu)), p, target);
  }

  predicate SameFunction(requestPdu: seq<byte>, pdu: seq<byte>) {
    requestPdu != [] && pdu != [] && pdu[0] == requestPdu[0]
  }

  /** In particular a reply whose function code is not that of the request: it changes no
      value and is reported. */
  lemma OtherFunctionCodeChangesNothing(s: Stack, i: nat, pdu: seq<byte>)
    requires Sound(s) && i < |s.link.m.pending| && IsPoll(s.link.m.pending[i])
    requires !SameFunction(s.link.m.pending[i].requestPdu, pdu)
    ensures Answer(s, i, pdu).link.e.caches == s.link.e.caches
    ensures Answer(s, i, pdu).link.e.flushArmed == s.link.e.flushArmed
    ensures PollFailures(Answer(s, i, pdu).link.e.signals) == PollFailures(s.link.e.signals) + 1
  {
    hide StackValid, Answer, PollFailures, SlicesFor;
    RepliesReported(s, i, pdu, 0);
    assert Genuine(s.link.m.pending[i], s.link.e.plans, s.c.correlationId);
    assert s.link.m.pending[i].requestPdu == PlanPdu(PlanIn(s.link.e, s.link.m.pending[i]));
  }

  // ----- polls that are given up -----

  function PollsAmong(requests: seq<PendingRequest>): nat
    decreases |requests|
  {
    if requests == [] then 0 else (if IsPoll(requests[0]) then 1 else 0) + PollsAmong(requests[1..])
  }

  /** The slices for a target, over the plans of all polls among the requests. */
  function SlicesAmong(e: Engine, requests: seq<PendingRequest>, target: nat): nat
    decreases |requests|
  {
    if requests == [] then 0
    else
      var r := requests[0];
      (if IsPoll(r) && r.correlationId % GENERATION_UNIT < |e.plans| then SlicesFor(PlanIn(e, r).covered, target) else 0)
      + SlicesAmong(e, requests[1..], target)
  }

  lemma DoomedPollIsCurrent(l: Link, doomed: seq<PendingRequest>)
    requires Consistent(l, doomed) && doomed != [] && IsPoll(doomed[0])
    ensures l.e.running && IsGeneration(doomed[0].correlationId, l.e.generation)
    ensures PlanIndexOf(doomed[0].correlationId) == doomed[0].correlationId % GENERATION_UNIT < |l.e.plans|
  {
    hide ManagerValid, PlansAccounted, Budgeted, AllExact, Sum;
    assert Attributed(doomed, l.e.generation, l.e.nextPlan);
  }

  lemma FailReported(s: Stack, doomed: seq<PendingRequest>, target: nat)
    requires FailingValid(s, doomed) && doomed != []
    ensures var r, e := doomed[0], s.link.e;
            var after := Fail(s, r.correlationId).link.e;
            && after.plans == e.plans
            && if !IsPoll(r) then after == e
               else
                 && r.correlationId % GENERATION_UNIT < |e.plans|
                 && Reported(e, after, 1, target, SlicesFor(PlanIn(e, r).covered, target))
  {
    hide NoteRequestSettled, SlicesFor, PollFailures, TargetFailures, FailedTargets, Balanced, Settled;
    var l, r := s.link, doomed[0];
    if IsPoll(r) {
      DoomedPollIsCurrent(l, doomed);
      var p := r.correlationId % GENERATION_UNIT;
      ReportCounts(l.e, l.e.plans[p].covered, target);
      SettlingReports(l.(e := ReportFailure(l.e, l.e.plans[p].covered)), p, target);
      SettlingKeepsCaches(l.(e := ReportFailure(l.e, l.e.plans[p].covered)), p);
    } else {
      RunningIsTargeted(l, doomed);
      ForeignIdsIgnored(l, r.correlationId, []);
    }
  }

  lemma RunningIsTargeted(l: Link, doomed: seq<PendingRequest>)
    requires Consistent(l, doomed)
    ensures l.e.running ==> l.e.generation > 0
  {
  }

  lemma {:induction false} FailuresReported(s: Stack, doomed: seq<PendingRequest>, target: nat)
    requires FailingValid(s, doomed)
    ensures Reported(s.link.e, FailAll(s, doomed).link.e, PollsAmong(doomed), target,
                     SlicesAmong(s.link.e, doomed, target))
    decreases |doomed|
  {
    hide FailingValid, Fail, SlicesFor, PollFailures, TargetFailures, IsPoll;
    if doomed != [] {
      var after := Fail(s, doomed[0].correlationId);
      FailValid(s, doomed);
      FailReported(s, doomed, target);
      FailuresReported(after, doomed[1..], target);
      SamePlansSameSlices(s.link.e, after.link.e, doomed[1..], target);
    }
  }

  lemma {:induction false} SamePlansSameSlices(a: Engine, b: Engine, requests: seq<PendingRequest>, target: nat)
    requires b.plans == a.plans
    ensures SlicesAmong(b, requests, target) == SlicesAmong(a, requests, target)
    decreases |requests|
  {
    hide SlicesFor;
    if requests != [] {
      SamePlansSameSlices(a, b, requests[1..], target);
    }
  }

  /** The requests an event gives up. */
  function GivenUp(s: Stack, event: Event): seq<PendingRequest> {
    match event
    case DeadlinesPass(expired) => Sweep(s.link.m.pending, expired, s.link.m.retryCount).exhausted
    case _ => []
  }

  lemma BeginCycleReports(l: Link)
    ensures BeginCycle(l).e.signals == l.e.signals
  {
    PumpKeepsConfiguration(Rewound(l));
  }

  lemma {:induction false} UpdatesReportNothing(targets: seq<PollTarget>, caches: seq<TargetCache>, n: nat, target: nat)
    requires n <= |caches| <= |targets|
    ensures PollFailures(DirtyUpdates(targets, caches, n)) == 0
    ensures TargetFailures(DirtyUpdates(targets, caches, n), target) == 0
  {
    if n > 0 {
      UpdatesReportNothing(targets, caches, n - 1, target);
      FailuresAppend(DirtyUpdates(targets, caches, n - 1),
                     if caches[n - 1].dirty then [UpdateOf(targets, caches, n - 1)] else [], target);
      OneFailure(UpdateOf(targets, caches, n - 1), target);
    }
  }

  lemma FlushReports(e: Engine, target: nat)
    requires |e.caches| == |e.targets|
    ensures Reported(e, Flush(e), 0, target, 0)
  {
    hide PollFailures, TargetFailures;
    UpdatesReportNothing(e.targets, e.caches, |e.caches|, target);
    FailuresAppend(e.signals, DirtyUpdates(e.targets, e.caches, |e.caches|), target);
  }

  /** Apart from replies, failures are reported for the polls that are given up, each once and
      once for each of its slices to the slice's target, and for nothing else. */
  lemma FailuresAreReported(states: seq<Stack>, events: seq<Event>, k: nat, target: nat)
    requires IsRun(states, events) && k < |events| && !events[k].DataArrives?
    ensures var given := GivenUp(states[k], events[k]);
            Reported(states[k].link.e, states[k + 1].link.e, PollsAmong(given), target,
                     SlicesAmong(states[k].link.e, given, target))
  {
    hide StackValid, Step, Reported;
    RunsAreValid(states, events);
    assert Follows(states[k], events[k], states[k + 1]);
    StepReports(states[k], events[k], target);
  }

  lemma StepReports(s: Stack, event: Event, target: nat)
    requires StackValid(s) && Shaped(s.link.e) && Allowed(s, event) && !event.DataArrives?
    ensures Reported(s.link.e, Step(s, event).link.e, PollsAmong(GivenUp(s, event)), target,
                     SlicesAmong(s.link.e, GivenUp(s, event), target))
  {
    hide Consistent, FailAll, AfterSweep, Sweep, BeginCycle, Plans, CancelAll, FreshCaches, DirtyUpdates;
    hide PollFailures, TargetFailures, FailingValid;
    match event
    case DeadlinesPass(expired) =>
      SweepConsistent(s.link, expired);
      SweepFailing(s, expired);
      FailuresReported(s.(link := s.link.(m := AfterSweep(s.link.m, expired))), GivenUp(s, event), target);
    case IntervalTimeout => BeginCycleReports(s.link.(e := s.link.e.(intervalArmed := false)));
    case FlushTimeout => FlushReports(s.link.e, target);
    case Retarget(targets) => BeginCycleReports(Configure(s.link, targets));
    case StartPolling => BeginCycleReports(s.link.(e := s.link.e.(running := true)));
    case _ =>
  }

  lemma SweepFailing(s: Stack, expired: set<nat>)
    requires StackValid(s)
    ensures FailingValid(s.(link := s.link.(m := AfterSweep(s.link.m, expired))),
                         Sweep(s.link.m.pending, expired, s.link.m.retryCount).exhausted)
  {
    hide Consistent, Configured;
    SweepConsistent(s.link, expired);
  }

  // ----- one-shots -----

  /** The replies that answer an operation, told from their bytes. */
  predicate AnswersOperation(c: Controller, pdu: seq<byte>) {
    match c.operation
    case NoOperation => false
    case Read(t) =>
      if IsBitType(t) then BitReply(pdu, ReadFunctionCodeFor(t), Truncate16(c.quantity))
      else RegisterReply(pdu, ReadFunctionCodeFor(t))
    case WriteRegister => WriteReply(pdu, WRITE_SINGLE_REGISTER)
    case WriteCoil => WriteReply(pdu, WRITE_SINGLE_COIL)
  }

  /** The result holds what the bytes say, for the operation asked for. */
  predicate SaysWhatCame(c: Controller, pdu: seq<byte>, result: Result)
    requires AnswersOperation(c, pdu)
  {
    match c.operation
    case NoOperation => false
    case Read(t) =>
      if IsBitType(t) then
        && result.BitsRead? && result.startAddress == c.startAddress && |result.bits| == Truncate16(c.quantity)
        && forall i :: 0 <= i < |result.bits| ==> result.bits[i] == BitOf(pdu[2 + i / 8], i % 8)
      else
        && result.RegistersRead? && result.startAddress == c.startAddress
        && 2 * |result.registers| == FromByte(pdu[1])
        && forall i :: 0 <= i < |result.registers| ==> result.registers[i] == Word(pdu[2 + 2 * i], pdu[3 + 2 * i])
    case WriteRegister => result == RegisterWritten(Word(pdu[1], pdu[2]), Word(pdu[3], pdu[4]))
    case WriteCoil => result == CoilWritten(Word(pdu[1], pdu[2]), Word(pdu[3], pdu[4]) != 0)
  }

  lemma ResultSaysWhatCame(c: Controller, pdu: seq<byte>)
    requires c.operation != NoOperation
    ensures |ResultOf(c, pdu)| == 1
    ensures ResultOf(c, pdu)[0] == OperationFailed <==> !AnswersOperation(c, pdu)
    ensures AnswersOperation(c, pdu) ==> SaysWhatCame(c, pdu, ResultOf(c, pdu)[0])
  {
    hide DecodedBits, DecodedRegisters, DecodedWrite, BitReply, RegisterReply, WriteReply, Word, FromByte, BitOf;
    match c.operation
    case Read(t) =>
      BitsAcceptedIff(pdu, ReadFunctionCodeFor(t), Truncate16(c.quantity));
      RegistersAcceptedIff(pdu, ReadFunctionCodeFor(t));
    case WriteRegister => WritesAcceptedIff(pdu, WRITE_SINGLE_REGISTER);
    case WriteCoil => WritesAcceptedIff(pdu, WRITE_SINGLE_COIL);
  }

  /** The answer to the latest one-shot ends the operation with one result: a failure if and
      only if the reply does not have the bytes the operation asked for, and otherwise what the
      bytes say. */
  lemma OneShotReplyReported(s: Stack, i: nat, pdu: seq<byte>)
    requires i < |s.link.m.pending| && s.link.m.pending[i].correlationId == s.c.correlationId
    ensures var c, after := s.c, Answer(s, i, pdu).c;
            && after == c.(operation := NoOperation, results := after.results)
            && if c.operation == NoOperation then after.results == c.results
               else
                 && |after.results| == |c.results| + 1 && after.results[..|c.results|] == c.results
                 && (after.results[|c.results|] == OperationFailed <==> !AnswersOperation(c, pdu))
                 && (AnswersOperation(c, pdu) ==> SaysWhatCame(c, pdu, after.results[|c.results|]))
  {
    hide AnswersOperation, SaysWhatCame, ResultOf;
    LatestOneShotIsAnswered(s, i, pdu);
    if s.c.operation == NoOperation {
      NothingAsked(s.c, pdu);
    } else {
      ResultSaysWhatCame(s.c, pdu);
    }
  }

  lemma NothingAsked(c: Controller, pdu: seq<byte>)
    requires c.operation == NoOperation
    ensures ResultOf(c, pdu) == []
  {
  }

  /** How many of the requests have this correlation id. */
  function Named(requests: seq<PendingRequest>, id: nat): nat {
    if requests == [] then 0
    else Named(requests[..|requests| - 1], id) + if requests[|requests| - 1].correlationId == id then 1 else 0
  }

  lemma {:induction false} NamedAppend(a: seq<PendingRequest>, b: seq<PendingRequest>, id: nat)
    ensures Named(a + b, id) == Named(a, id) + Named(b, id)
  {
    if b == [] {
      assert a + b == a;
    } else {
      NamedAppend(a, b[..|b| - 1], id);
      assert (a + b)[..|a + b| - 1] == a + b[..|b| - 1];
    }
  }

  lemma NamedOne(r: PendingRequest, id: nat)
    ensures Named([r], id) == if r.correlationId == id then 1 else 0
  {
    assert [r][..0] == [];
  }

  lemma {:induction false} SweepNames(pending: seq<PendingRequest>, expired: set<nat>, retryCount: int, id: nat)
    ensures Named(Sweep(pending, expired, retryCount).exhausted, id) <= Named(pending, id)
  {
    hide Named;
    if pending == [] {
      NothingNamed(id);
    } else {
      var rest, last := pending[..|pending| - 1], pending[|pending| - 1];
      var before := Sweep(rest, expired, retryCount);
      SweepNames(rest, expired, retryCount, id);
      assert pending == rest + [last];
      NamedAppend(rest, [last], id);
      NamedAppend([last], before.exhausted, id);
    }
  }

  lemma NothingNamed(id: nat)
    ensures Named([], id) == 0
  {
  }

  /** One-shots are numbered, so at most one pending request has a given number. */
  lemma {:induction false} NamedOnce(pending: seq<PendingRequest>, plans: seq<ReadRequestPlan>, last: nat, from: nat, id: nat)
    requires Traced(pending, plans, last, from) && id < GENERATION_UNIT
    ensures Named(pending, id) <= 1
    ensures Named(pending, id) == 1 ==> exists i :: 0 <= i < |pending| && pending[i].correlationId == id
  {
    if pending != [] {
      var rest := pending[..|pending| - 1];
      assert Traced(rest, plans, last, from);
      NamedOnce(rest, plans, last, from, id);
    }
  }

  lemma {:induction false} OneShotFailuresReported(s: Stack, doomed: seq<PendingRequest>)
    requires Named(doomed, s.c.correlationId) <= 1
    ensures var c, n := s.c, Named(doomed, s.c.correlationId);
            FailAll(s, doomed).c
            == if n == 0 then c else c.(operation := NoOperation, results := c.results + [OperationFailed])
    decreases |doomed|
  {
    hide Named, HandleFailure;
    if doomed == [] {
      NothingNamed(s.c.correlationId);
    } else {
      assert doomed == [doomed[0]] + doomed[1..];
      NamedAppend([doomed[0]], doomed[1..], s.c.correlationId);
      NamedOne(doomed[0], s.c.correlationId);
      OneShotFailuresReported(Fail(s, doomed[0].correlationId), doomed[1..]);
    }
  }

  /** A timeout ends the latest one-shot with one failure if it gives that request up, and
      leaves the controller as it was if not. */
  lemma OneShotTimeoutReported(states: seq<Stack>, events: seq<Event>, k: nat)
    requires IsRun(states, events) && k < |events| && events[k].DeadlinesPass?
    ensures var c, given := states[k].c, GivenUp(states[k], events[k]);
            states[k + 1].c
            == if exists i :: 0 <= i < |given| && given[i].correlationId == c.correlationId
               then c.(operation := NoOperation, results := c.results + [OperationFailed]) else c
  {
    hide Named, FailAll, Sweep, AfterSweep, StackValid;
    var s, given := states[k], GivenUp(states[k], events[k]);
    assert Follows(s, events[k], states[k + 1]);
    RunsAreTraced(states, events, k);
    OneShotsBounded(s);
    NamedOnce(s.link.m.pending, s.link.e.plans, s.c.correlationId, s.link.e.record.retargetedAt, s.c.correlationId);
    SweepNames(s.link.m.pending, events[k].expired, s.link.m.retryCount, s.c.correlationId);
    NamedIffPresent(given, s.c.correlationId);
    OneShotFailuresReported(s.(link := s.link.(m := AfterSweep(s.link.m, events[k].expired))), given);
  }

  lemma OneShotsBounded(s: Stack)
    requires Sound(s)
    ensures s.c.correlationId < GENERATION_UNIT
  {
  }

  lemma {:induction false} NamedIffPresent(requests: seq<PendingRequest>, id: nat)
    ensures Named(requests, id) > 0 <==> exists i :: 0 <= i < |requests| && requests[i].correlationId == id
  {
    if requests != [] {
      var rest := requests[..|requests| - 1];
      NamedIffPresent(rest, id);
      if i :| 0 <= i < |requests| && requests[i].correlationId == id {
        assert i < |rest| ==> rest[i] == requests[i];
      }
    }
  }
}
