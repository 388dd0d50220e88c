/** What the invariant means for whoever uses the stack, in every state of every run. */
module CycleResults {
  import opened Numbers
  import opened ReadCoalescer
  import PlannerCoverage
  import opened Caches
  import opened Transactions
  import opened Polling
  import opened OneShots
  import opened PollStack
  import opened Accounting
  import opened CycleInvariants
  import opened StackInvariants

  predicate IsPolling(e: Engine) {
    e.running && e.plans != []
  }

  /** Polls of the current configuration that are pending. */
  function PollsInFlight(l: Link): int {
    Sum(l.m.pending, Polls(l.e.generation))
  }

  /** The counter is the number of polls really pending, never above the window, and while plans
      are left to issue the window is full; over TCP it is as wide as was set, over RTU one. */
  lemma WindowRespected(states: seq<Stack>, events: seq<Event>, k: nat)
    requires IsRun(states, events) && k < |states| && IsPolling(states[k].link.e)
    ensures states[k].link.e.outstanding == PollsInFlight(states[k].link) <= Window(states[k].link)
    ensures states[k].link.m.mode == Rtu ==> PollsInFlight(states[k].link) <= 1
    ensures states[k].link.e.nextPlan < |states[k].link.e.plans| ==> PollsInFlight(states[k].link) == Window(states[k].link)
    ensures Window(states[k].link) == match states[k].link.m.mode case Tcp => states[k].link.e.maxInFlight case Rtu => 1
  {
    RunsAreValid(states, events);
    assert Consistent(states[k].link, []);
  }

  /** The interval timer waits only between cycles: nothing is in flight, and everything
      has been issued. */
  lemma TimerMeansIdle(states: seq<Stack>, events: seq<Event>, k: nat)
    requires IsRun(states, events) && k < |states| && states[k].link.e.intervalArmed
    ensures var l := states[k].link;
            IsPolling(l.e) && PollsInFlight(l) == 0 && l.e.nextPlan == |l.e.plans| && OnlyOneShots(l.m.pending)
  {
    RunsAreValid(states, events);
    var l := states[k].link;
    assert Consistent(l, []);
    NoPollsLeft(l.m.pending, l.e.generation, l.e.nextPlan);
  }

  /** A running engine with something to poll always has a timer that will move it on: the
      interval timer, or the timeout of a poll in flight. */
  lemma NeverStalls(states: seq<Stack>, events: seq<Event>, k: nat)
    requires IsRun(states, events) && k < |states| && IsPolling(states[k].link.e)
    ensures var l := states[k].link;
            l.e.intervalArmed != (PollsInFlight(l) > 0) && (PollsInFlight(l) > 0 ==> l.m.timeoutArmed)
  {
    RunsAreValid(states, events);
    var l := states[k].link;
    assert Consistent(l, []);
    if l.m.pending == [] {
      assert PollsInFlight(l) == 0;
    }
  }

  /** Every announced end of a cycle stands for one cycle that had settled each of its plans
      exactly once, and sent at most `max(1, retryCount + 1)` requests for each. */
  lemma CyclesAreExact(states: seq<Stack>, events: seq<Event>, k: nat)
    requires IsRun(states, events) && k < |states|
    ensures CompletionsIn(states[k].link.e.signals) == |states[k].link.e.record.completed|
    ensures forall c :: 0 <= c < |states[k].link.e.record.completed| ==>
              ExactCycle(states[k].link.e.record.completed[c], MaxAttempts(states[k].link.m.retryCount))
  {
    RunsAreValid(states, events);
    assert Consistent(states[k].link, []);
  }

  /** The running cycle stays within the budget too, whatever the device does. */
  lemma CycleWithinBudget(states: seq<Stack>, events: seq<Event>, k: nat)
    requires IsRun(states, events) && k < |states| && IsPolling(states[k].link.e)
    ensures var l := states[k].link;
            PollTransmissions(l.m.wire, l.e.generation) - l.e.record.mark
            <= |l.e.plans| * MaxAttempts(l.m.retryCount)
  {
    RunsAreValid(states, events);
    BudgetBounds(states[k].link.m, ProgressOf(states[k].link.e));
  }

  lemma BudgetBounds(m: Manager, p: Progress)
    requires Balanced(m, p, []) && Active(p)
    ensures PollTransmissions(m.wire, p.generation) - p.mark <= p.planCount * MaxAttempts(m.retryCount)
  {
    SlackIsLeft(m.pending, p.generation, m.retryCount);
    MorePlansMoreBudget(p.nextPlan, p.planCount, MaxAttempts(m.retryCount));
  }

  lemma MorePlansMoreBudget(issued: nat, planCount: nat, limit: nat)
    requires issued <= planCount
    ensures issued * limit <= planCount * limit
  {
  }

  /** No request is given up early: those that a timeout gives up have been sent as often as
      the retry count allows, and those it keeps have attempts within it. */
  lemma GivenUpAfterAllAttempts(states: seq<Stack>, events: seq<Event>, k: nat, expired: set<nat>)
    requires IsRun(states, events) && k < |states|
    ensures var m := states[k].link.m;
            var swept := Sweep(m.pending, expired, m.retryCount);
            && (forall i :: 0 <= i < |swept.exhausted| ==> swept.exhausted[i].attemptsSoFar == MaxAttempts(m.retryCount))
            && AttemptsBounded(swept.kept, m.retryCount)
  {
    RunsAreValid(states, events);
    var m := states[k].link.m;
    assert Consistent(states[k].link, []);
    ExhaustedAttempts(m.pending, expired, m.retryCount);
    SweepKept(m.pending, expired, m.retryCount, m.sent);
  }

  lemma {:induction false} AttemptsAt(requests: seq<PendingRequest>, i: nat)
    requires SerialsAscend(requests) && i < |requests|
    ensures Attempts(requests, requests[i].serial) == requests[i].attemptsSoFar
  {
    var rest, last := requests[..|requests| - 1], requests[|requests| - 1];
    if i < |rest| {
      AttemptsAt(rest, i);
    } else {
      UnlistedAttempts(rest, last.serial);
    }
  }

  /** What the wire has seen, in every run, of polls and one-shots alike: each request sent
      went out at least once and at most `max(1, retryCount + 1)` times, a pending one as
      often as its attempts say, and one that timed out exactly as often as allowed. */
  lemma TransmissionsPerRequest(states: seq<Stack>, events: seq<Event>, k: nat, serial: nat)
    requires IsRun(states, events) && k < |states|
    ensures var m := states[k].link.m;
            var n, limit := SentTimes(m.wire, serial), MaxAttempts(m.retryCount);
            && (n > 0 <==> 1 <= serial <= m.sent)
            && n <= limit
            && (forall i :: 0 <= i < |m.pending| && m.pending[i].serial == serial ==> n == m.pending[i].attemptsSoFar)
            && (serial in m.outcomes && m.outcomes[serial] == TimedOut ==> n == limit)
  {
    RunsAreValid(states, events);
    var m := states[k].link.m;
    assert Consistent(states[k].link, []);
    assert OnWire(m.wire, m.pending, m.outcomes, m.sent, MaxAttempts(m.retryCount), serial);
    forall i | 0 <= i < |m.pending| && m.pending[i].serial == serial
      ensures SentTimes(m.wire, serial) == m.pending[i].attemptsSoFar
    {
      AttemptsAt(m.pending, i);
    }
  }

  // ----- every settlement brings the end of the cycle nearer -----

  function Remaining(e: Engine): int {
    2 * (|e.plans| - e.nextPlan) + e.outstanding
  }

  lemma {:induction false} PumpRemaining(l: Link)
    ensures Remaining(Pump(l).e) <= Remaining(l.e)
    decreases |l.e.plans| - l.e.nextPlan
  {
    if CanIssue(l) {
      PumpRemaining(IssueNext(l));
    }
  }

  lemma SettlementProgress(l: Link, i: int)
    requires l.e.outstanding >= 1
    ensures Remaining(NoteRequestSettled(l, i).e) < Remaining(l.e)
  {
    PumpRemaining(l.(e := Settle(l.e, i)));
  }

  /** A reply to a poll, well-formed or not, strictly lowers what the cycle still has to do. */
  lemma ReplyIsProgress(s: Stack, i: nat, pdu: seq<byte>)
    requires StackValid(s) && i < |s.link.m.pending| && s.link.m.pending[i].correlationId >= GENERATION_UNIT
    ensures Remaining(Answer(s, i, pdu).link.e) < Remaining(s.link.e)
  {
    var l, r := s.link, s.link.m.pending[i];
    var after := Complete(l.m, i, pdu);
    CompleteRemoves(l.m, i, pdu);
    assert Balanced(l.m, ProgressOf(l.e), []);
    assert Active(ProgressOf(l.e));
    PollIsOutstanding(l, [], after, [], r);
    var index := PlanIndexOf(r.correlationId);
    var applied := ApplyPlanResponse(l.e, l.e.plans[index], pdu);
    ApplyKeepsCycle(l.e, l.e.plans[index], pdu);
    SettlementProgress(Link(after, applied), index);
  }

  /** So does giving a poll up. */
  lemma TimeoutIsProgress(s: Stack, doomed: seq<PendingRequest>)
    requires FailingValid(s, doomed) && doomed != [] && doomed[0].correlationId >= GENERATION_UNIT
    ensures Remaining(Fail(s, doomed[0].correlationId).link.e) < Remaining(s.link.e)
  {
    var l, r := s.link, doomed[0];
    ReportRemoves(l.m, doomed);
    assert Active(ProgressOf(l.e));
    PollIsOutstanding(l, doomed, l.m, doomed[1..], r);
    var index := PlanIndexOf(r.correlationId);
    SettlementProgress(Link(l.m, ReportFailure(l.e, l.e.plans[index].covered)), index);
  }

  /** The measure is never negative, and it is zero exactly when the cycle is over. */
  lemma RemainingMeasuresTheCycle(s: Stack)
    requires StackValid(s) && IsPolling(s.link.e)
    ensures Remaining(s.link.e) >= 0
    ensures Remaining(s.link.e) == 0 <==> s.link.e.intervalArmed
  {
    assert Consistent(s.link, []);
  }

  // ----- how a request ended never changes -----

  lemma {:induction false} PumpEndsNothing(l: Link)
    ensures Pump(l).m.outcomes == l.m.outcomes
    decreases |l.e.plans| - l.e.nextPlan
  {
    if CanIssue(l) {
      PumpEndsNothing(IssueNext(l));
    }
  }

  lemma ReportsEndNothing(l: Link, correlationId: nat, pdu: seq<byte>)
    ensures HandleResponse(l, correlationId, pdu).m.outcomes == l.m.outcomes
    ensures HandleFailure(l, correlationId).m.outcomes == l.m.outcomes
  {
    var index := PlanIndexOf(correlationId);
    var applied := UseReply(l.e, index, pdu);
    var covered := if 0 <= index < |l.e.plans| then l.e.plans[index].covered else [];
    PumpEndsNothing(l.(e := Settle(applied, index)));
    PumpEndsNothing(l.(e := Settle(ReportFailure(l.e, covered), index)));
  }

  lemma AnswerKeepsOutcomes(s: Stack, i: nat, pdu: seq<byte>)
    requires StackValid(s) && i < |s.link.m.pending|
    ensures OutcomesKept(s.link.m, Answer(s, i, pdu).link.m)
  {
    OutcomesAreFinal(s.link.m, i, pdu, {});
    ReportsEndNothing(s.link.(m := Complete(s.link.m, i, pdu)), s.link.m.pending[i].correlationId, pdu);
  }

  lemma {:induction false} ConsumeKeepsOutcomes(s: Stack)
    requires StackValid(s)
    ensures OutcomesKept(s.link.m, Consume(s).link.m)
    decreases |s.link.m.receiveBuffer|
  {
    var m := s.link.m;
    var next := NextArrival(m.mode, m.receiveBuffer);
    if m.pending != [] && next.Some? {
      var taken := WithBuffer(s, m.receiveBuffer[next.value.size..]);
      WithBufferValid(s, m.receiveBuffer[next.value.size..]);
      DeliverValid(taken, next.value);
      DeliverKeepsOutcomes(taken, next.value);
      ConsumeKeepsOutcomes(Deliver(taken, next.value));
      KeptTransitive(m, Deliver(taken, next.value).link.m, Consume(s).link.m);
    }
  }

  lemma DeliverKeepsOutcomes(s: Stack, a: Arrival)
    requires StackValid(s)
    ensures OutcomesKept(s.link.m, Deliver(s, a).link.m)
  {
    if a.Reply? && MatchOf(s.link.m.pending, a.transactionId) < |s.link.m.pending| {
      AnswerKeepsOutcomes(s, MatchOf(s.link.m.pending, a.transactionId), a.pdu);
    }
  }

  lemma KeptTransitive(a: Manager, b: Manager, c: Manager)
    requires OutcomesKept(a, b) && OutcomesKept(b, c)
    ensures OutcomesKept(a, c)
  {
  }

  lemma {:induction false} FailuresEndNothing(s: Stack, doomed: seq<PendingRequest>)
    ensures FailAll(s, doomed).link.m.outcomes == s.link.m.outcomes
    decreases |doomed|
  {
    if doomed != [] {
      ReportsEndNothing(s.link, doomed[0].correlationId, []);
      FailuresEndNothing(Fail(s, doomed[0].correlationId), doomed[1..]);
    }
  }

  lemma BeginCycleEndsNothing(l: Link)
    ensures BeginCycle(l).m.outcomes == l.m.outcomes
  {
    PumpEndsNothing(Rewound(l));
  }

  lemma StepKeepsOutcomes(s: Stack, event: Event)
    requires StackValid(s) && Allowed(s, event)
    ensures OutcomesKept(s.link.m, Step(s, event).link.m)
  {
    OutcomesAreFinal(s.link.m, |s.link.m.pending|, [], if event.DeadlinesPass? then event.expired else {});
    match event
    case DataArrives(data) =>
      if s.link.m.pending != [] {
        WithBufferValid(s, s.link.m.receiveBuffer + data);
        ConsumeKeepsOutcomes(WithBuffer(s, s.link.m.receiveBuffer + data));
      }
    case DeadlinesPass(expired) =>
      FailuresEndNothing(s.(link := s.link.(m := AfterSweep(s.link.m, expired))),
                         Sweep(s.link.m.pending, expired, s.link.m.retryCount).exhausted);
    case IntervalTimeout => BeginCycleEndsNothing(s.link.(e := s.link.e.(intervalArmed := false)));
    case Retarget(targets) => BeginCycleEndsNothing(Configure(s.link, targets));
    case StartPolling => BeginCycleEndsNothing(s.link.(e := s.link.e.(running := true)));
    case FlushTimeout =>
    case Reconfigure(_) =>
    case StopPolling =>
    case SendOneShot(_) =>
  }

  /** Over a whole run, every request sent is pending or has ended, never both and never
      neither; and how it ended is never revised, whatever duplicates or retransmissions
      come later. */
  lemma TransactionsAccounted(states: seq<Stack>, events: seq<Event>, j: nat, k: nat, serial: nat)
    requires IsRun(states, events) && j <= k < |states| && 1 <= serial <= states[j].link.m.sent
    ensures serial in states[j].link.m.outcomes <==> !Listed(states[j].link.m.pending, serial)
    ensures serial in states[j].link.m.outcomes ==>
              && serial in states[k].link.m.outcomes
              && states[k].link.m.outcomes[serial] == states[j].link.m.outcomes[serial]
  {
    RunsAreValid(states, events);
    assert StackValid(states[j]);
    for i := j to k
      invariant OutcomesKept(states[j].link.m, states[i].link.m)
    {
      assert Follows(states[i], events[i], states[i + 1]);
      StepKeepsOutcomes(states[i], events[i]);
      KeptTransitive(states[j].link.m, states[i].link.m, states[i + 1].link.m);
    }
  }

  // ----- RTU pairs replies in order -----

  lemma {:induction false} PumpAppends(l: Link)
    ensures l.m.pending <= Pump(l).m.pending
    decreases |l.e.plans| - l.e.nextPlan
  {
    if CanIssue(l) {
      PumpAppends(IssueNext(l));
    }
  }

  lemma ResponseAppends(l: Link, correlationId: nat, pdu: seq<byte>)
    ensures l.m.pending <= HandleResponse(l, correlationId, pdu).m.pending
  {
    var index := PlanIndexOf(correlationId);
    PumpAppends(l.(e := Settle(UseReply(l.e, index, pdu), index)));
  }

  lemma OldestIsAnswered(s: Stack, pdu: seq<byte>)
    requires StackValid(s) && s.link.m.pending != []
    ensures StackValid(Answer(s, 0, pdu))
    ensures s.link.m.pending[1..] <= Answer(s, 0, pdu).link.m.pending
    ensures s.link.m.pending[0].serial in Answer(s, 0, pdu).link.m.outcomes
         && Answer(s, 0, pdu).link.m.outcomes[s.link.m.pending[0].serial] == AnswerTo(s.link.m.pending[0], pdu)
  {
    var m := s.link.m;
    AnswerValid(s, 0, pdu);
    assert Complete(m, 0, pdu).pending == m.pending[1..];
    ResponseAppends(s.link.(m := Complete(m, 0, pdu)), m.pending[0].correlationId, pdu);
    ReportsEndNothing(s.link.(m := Complete(m, 0, pdu)), m.pending[0].correlationId, pdu);
  }

  /** Replies without transaction ids, one after another. */
  function AnswerInTurn(s: Stack, pdus: seq<seq<byte>>): Stack
    decreases |pdus|
  {
    if pdus == [] || s.link.m.pending == [] then s
    else AnswerInTurn(Deliver(s, Reply(|pdus[0]| + 3, None, pdus[0])), pdus[1..])
  }

  /** Over RTU the k-th reply ends the k-th oldest request; a device that answers in order
      and loses nothing is understood. */
  lemma {:induction false} RtuPairsInOrder(s: Stack, pdus: seq<seq<byte>>, k: nat)
    requires StackValid(s) && k < |pdus| <= |s.link.m.pending|
    ensures s.link.m.pending[k].serial in AnswerInTurn(s, pdus).link.m.outcomes
    ensures AnswerInTurn(s, pdus).link.m.outcomes[s.link.m.pending[k].serial] == AnswerTo(s.link.m.pending[k], pdus[k])
    decreases |pdus|
  {
    hide Answer, StackValid;
    var after := Answer(s, 0, pdus[0]);
    OldestIsAnswered(s, pdus[0]);
    if k == 0 {
      TurnsKeepOutcomes(after, pdus[1..]);
    } else {
      assert after.link.m.pending[k - 1] == s.link.m.pending[k];
      RtuPairsInOrder(after, pdus[1..], k - 1);
    }
  }

  lemma {:induction false} TurnsKeepOutcomes(s: Stack, pdus: seq<seq<byte>>)
    requires StackValid(s)
    ensures OutcomesKept(s.link.m, AnswerInTurn(s, pdus).link.m)
    decreases |pdus|
  {
    if pdus != [] && s.link.m.pending != [] {
      var a := Reply(|pdus[0]| + 3, None, pdus[0]);
      DeliverValid(s, a);
      DeliverKeepsOutcomes(s, a);
      TurnsKeepOutcomes(Deliver(s, a), pdus[1..]);
      KeptTransitive(s.link.m, Deliver(s, a).link.m, AnswerInTurn(s, pdus).link.m);
    }
  }
}
