/** The engine's counters against the manager's list: what `outstanding`, `nextPlan` and the
    interval timer say about the requests that are really pending, in every state between
    two events and between the reports of one timeout. */
module Accounting {
  import opened Numbers
  import opened ReadCoalescer
  import PlannerCoverage
  import opened Caches
  import opened Transactions
  import opened Polling

  // ----- sums over requests -----

  /** Ways of weighing a request: whether it polls for a generation, whether it polls one
      plan of it, and how many more times it may be transmitted. */
  datatype Measure =
    | Polls(generation: u32)
    | PollsOf(generation: u32, planIndex: nat)
    | Slack(generation: u32, limit: int)

  function Weight(q: Measure, r: PendingRequest): int {
    if !IsGeneration(r.correlationId, q.generation) then 0
    else
      match q
      case Polls(_) => 1
      case PollsOf(_, i) => if r.correlationId % GENERATION_UNIT == i then 1 else 0
      case Slack(_, limit) => limit - r.attemptsSoFar
  }

  function Sum(requests: seq<PendingRequest>, q: Measure): int {
    if requests == [] then 0 else Sum(requests[..|requests| - 1], q) + Weight(q, requests[|requests| - 1])
  }

  lemma SumSnoc(requests: seq<PendingRequest>, r: PendingRequest, q: Measure)
    ensures Sum(requests + [r], q) == Sum(requests, q) + Weight(q, r)
  {
    assert (requests + [r])[..|requests|] == requests;
  }

  lemma {:induction false} SumAppend(a: seq<PendingRequest>, b: seq<PendingRequest>, q: Measure)
    ensures Sum(a + b, q) == Sum(a, q) + Sum(b, q)
  {
    if b == [] {
      assert a + b == a;
    } else {
      SumAppend(a, b[..|b| - 1], q);
      assert (a + b)[..|a + b| - 1] == a + b[..|b| - 1];
    }
  }

  lemma SumOne(r: PendingRequest, q: Measure)
    ensures Sum([r], q) == Weight(q, r)
  {
    SumSnoc([], r, q);
    assert [] + [r] == [r];
  }

  lemma SumWithout(requests: seq<PendingRequest>, i: nat, q: Measure)
    requires i < |requests|
    ensures Sum(Without(requests, i), q) == Sum(requests, q) - Weight(q, requests[i])
  {
    assert requests == (requests[..i] + [requests[i]]) + requests[i + 1..];
    SumAppend(requests[..i] + [requests[i]], requests[i + 1..], q);
    SumSnoc(requests[..i], requests[i], q);
    SumAppend(requests[..i], requests[i + 1..], q);
  }

  lemma SumFirst(requests: seq<PendingRequest>, q: Measure)
    requires requests != []
    ensures Sum(requests[1..], q) == Sum(requests, q) - Weight(q, requests[0])
  {
    SumWithout(requests, 0, q);
    assert Without(requests, 0) == requests[1..];
  }

  lemma {:induction false} SumsOfPolls(requests: seq<PendingRequest>, generation: u32, planIndex: nat)
    ensures 0 <= Sum(requests, PollsOf(generation, planIndex)) <= Sum(requests, Polls(generation))
  {
    if requests != [] {
      SumsOfPolls(requests[..|requests| - 1], generation, planIndex);
    }
  }

  lemma {:induction false} SlackIsLeft(requests: seq<PendingRequest>, generation: u32, retryCount: int)
    requires AttemptsBounded(requests, retryCount)
    ensures Sum(requests, Slack(generation, MaxAttempts(retryCount))) >= 0
  {
    if requests != [] {
      SlackIsLeft(requests[..|requests| - 1], generation, retryCount);
    }
  }

  // ----- the sweep -----

  predicate IgnoresAttempts(q: Measure) {
    !q.Slack?
  }

  lemma RetryWeighsTheSame(r: PendingRequest, q: Measure)
    requires IgnoresAttempts(q)
    ensures Weight(q, r.(attemptsSoFar := r.attemptsSoFar + 1)) == Weight(q, r)
  {
  }

  lemma {:induction false} SweepSums(pending: seq<PendingRequest>, expired: set<nat>, retryCount: int, q: Measure)
    requires IgnoresAttempts(q)
    ensures var swept := Sweep(pending, expired, retryCount);
            Sum(swept.kept, q) + Sum(swept.exhausted, q) == Sum(pending, q)
  {
    if pending != [] {
      var rest, last := pending[..|pending| - 1], pending[|pending| - 1];
      var before := Sweep(rest, expired, retryCount);
      SweepSums(rest, expired, retryCount, q);
      if last.serial !in expired {
        SumSnoc(before.kept, last, q);
      } else if last.attemptsSoFar <= retryCount {
        RetryWeighsTheSame(last, q);
        SumSnoc(before.kept, last.(attemptsSoFar := last.attemptsSoFar + 1), q);
      } else {
        SumAppend([last], before.exhausted, q);
        SumOne(last, q);
      }
    }
  }

  /** A retransmission is paid for by one attempt that is left. */
  lemma {:induction false} SweepSlack(pending: seq<PendingRequest>, expired: set<nat>, retryCount: int, generation: u32)
    requires AttemptsBounded(pending, retryCount)
    ensures var swept, slack := Sweep(pending, expired, retryCount), Slack(generation, MaxAttempts(retryCount));
            Sum(swept.kept, slack) + Sum(swept.resent, Polls(generation)) <= Sum(pending, slack)
  {
    if pending != [] {
      var rest, last := pending[..|pending| - 1], pending[|pending| - 1];
      var before, slack := Sweep(rest, expired, retryCount), Slack(generation, MaxAttempts(retryCount));
      var again := last.(attemptsSoFar := last.attemptsSoFar + 1);
      SweepSlack(rest, expired, retryCount, generation);
      SumSnoc(before.kept, last, slack);
      SumSnoc(before.kept, again, slack);
      SumAppend([again], before.resent, Polls(generation));
      SumOne(again, Polls(generation));
    }
  }

  lemma {:induction false} PollTransmissionsAppend(a: seq<Transmission>, b: seq<Transmission>, generation: u32)
    ensures PollTransmissions(a + b, generation) == PollTransmissions(a, generation) + PollTransmissions(b, generation)
  {
    if b == [] {
      assert a + b == a;
    } else {
      PollTransmissionsAppend(a, b[..|b| - 1], generation);
      assert (a + b)[..|a + b| - 1] == a + b[..|b| - 1];
    }
  }

  lemma PollTransmissionsSnoc(wire: seq<Transmission>, t: Transmission, generation: u32)
    ensures PollTransmissions(wire + [t], generation)
         == PollTransmissions(wire, generation) + if IsGeneration(t.correlationId, generation) then 1 else 0
  {
    assert (wire + [t])[..|wire|] == wire;
  }

  lemma PollsAreOfTheirGeneration(generation: u32, planIndex: nat)
    ensures IsGeneration(CorrelationId(generation, planIndex), generation)
  {
  }

  lemma {:induction false} TransmissionsOfPolls(mode: FramingMode, requests: seq<PendingRequest>, generation: u32)
    ensures PollTransmissions(Transmissions(mode, requests), generation) == Sum(requests, Polls(generation))
  {
    hide FrameFor, IsGeneration;
    if requests != [] {
      TransmissionsOfPolls(mode, requests[..|requests| - 1], generation);
      assert Transmissions(mode, requests)[..|requests| - 1] == Transmissions(mode, requests[..|requests| - 1]);
    }
  }

  // ----- the invariant -----

  /** The part of the engine that the counters are about. */
  datatype Progress = Progress(
    planCount: nat,
    maxInFlight: int,
    running: bool,
    generation: u32,
    nextPlan: nat,
    outstanding: nat,
    intervalArmed: bool,
    settled: seq<nat>,
    mark: nat,
    completed: seq<Cycle>,
    completions: nat)

  /** How often the end of a cycle has been announced. */
  function CompletionsIn(signals: seq<Signal>): nat {
    if signals == [] then 0
    else CompletionsIn(signals[..|signals| - 1]) + if signals[|signals| - 1].CycleCompleted? then 1 else 0
  }

  lemma {:induction false} CompletionsAppend(a: seq<Signal>, b: seq<Signal>)
    ensures CompletionsIn(a + b) == CompletionsIn(a) + CompletionsIn(b)
  {
    if b == [] {
      assert a + b == a;
    } else {
      CompletionsAppend(a, b[..|b| - 1]);
      assert (a + b)[..|a + b| - 1] == a + b[..|b| - 1];
    }
  }

  lemma {:induction false} NoneCompleted(signals: seq<Signal>)
    requires forall k :: 0 <= k < |signals| ==> !signals[k].CycleCompleted?
    ensures CompletionsIn(signals) == 0
  {
    if signals != [] {
      NoneCompleted(signals[..|signals| - 1]);
    }
  }

  function ProgressOf(e: Engine): Progress {
    Progress(|e.plans|, e.maxInFlight, e.running, e.generation, e.nextPlan, e.outstanding, e.intervalArmed,
             e.record.settled, e.record.mark, e.record.completed, CompletionsIn(e.signals))
  }

  predicate Active(p: Progress) {
    p.running && p.planCount > 0
  }

  /** Every request is a one-shot, or polls a plan that this cycle has issued. */
  predicate Attributed(requests: seq<PendingRequest>, generation: u32, nextPlan: nat) {
    forall k :: 0 <= k < |requests| ==>
      || requests[k].correlationId < GENERATION_UNIT
      || (requests[k].correlationId / GENERATION_UNIT == generation
          && requests[k].correlationId % GENERATION_UNIT < nextPlan)
  }

  /** Neither pending nor about to be reported as failed: nothing but one-shots. */
  predicate OnlyOneShots(requests: seq<PendingRequest>) {
    forall k :: 0 <= k < |requests| ==> requests[k].correlationId < GENERATION_UNIT
  }

  predicate OutstandingIsPending(pending: seq<PendingRequest>, doomed: seq<PendingRequest>, p: Progress) {
    && p.outstanding == Sum(pending, Polls(p.generation)) + Sum(doomed, Polls(p.generation))
    && |p.settled| + p.outstanding == p.nextPlan
  }

  /** A plan behind `nextPlan` is pending once or settled once; one before it is neither. */
  predicate PlanAccounted(pending: seq<PendingRequest>, doomed: seq<PendingRequest>, p: Progress, i: nat) {
    PlannerCoverage.CountOf(p.settled, i) + Sum(pending, PollsOf(p.generation, i)) + Sum(doomed, PollsOf(p.generation, i))
      == if i < p.nextPlan then 1 else 0
  }

  ghost predicate PlansAccounted(pending: seq<PendingRequest>, doomed: seq<PendingRequest>, p: Progress) {
    forall i: nat :: PlanAccounted(pending, doomed, p, i)
  }

  /** What was transmitted in this cycle and what may still be is within the budget of the
      plans issued. */
  predicate Budgeted(m: Manager, p: Progress) {
    PollTransmissions(m.wire, p.generation) - p.mark
      + Sum(m.pending, Slack(p.generation, MaxAttempts(m.retryCount)))
    <= p.nextPlan * MaxAttempts(m.retryCount)
  }

  ghost predicate ExactCycle(cycle: Cycle, maxAttempts: int) {
    && |cycle.settled| == cycle.planCount
    && (forall i: nat :: i < cycle.planCount ==> PlannerCoverage.CountOf(cycle.settled, i) == 1)
    && cycle.transmissions <= cycle.planCount * maxAttempts
  }

  ghost predicate AllExact(completed: seq<Cycle>, maxAttempts: int) {
    forall k :: 0 <= k < |completed| ==> ExactCycle(completed[k], maxAttempts)
  }

  /** What also holds in the middle of pumping. `doomed`: requests the timeout has given up
      but not yet reported. */
  ghost predicate Balanced(m: Manager, p: Progress, doomed: seq<PendingRequest>) {
    && ManagerValid(m)
    && p.maxInFlight >= 1 && p.planCount < 0x8000_0000 && (p.running ==> p.generation > 0)
    && AllExact(p.completed, MaxAttempts(m.retryCount)) && p.completions == |p.completed|
    && if Active(p) then
         && p.nextPlan <= p.planCount && p.outstanding <= WindowSize(m.mode, p.maxInFlight)
         && Attributed(m.pending, p.generation, p.nextPlan)
         && Attributed(doomed, p.generation, p.nextPlan)
         && OutstandingIsPending(m.pending, doomed, p)
         && PlansAccounted(m.pending, doomed, p)
         && Budgeted(m, p)
       else OnlyOneShots(m.pending) && OnlyOneShots(doomed)
  }

  /** The window is used as far as there are plans, and the interval timer waits exactly
      while there is nothing to wait for. */
  predicate Settled(m: Manager, p: Progress) {
    if Active(p) then
      && (p.nextPlan == p.planCount || p.outstanding == WindowSize(m.mode, p.maxInFlight))
      && (p.intervalArmed <==> p.outstanding == 0)
    else !p.intervalArmed
  }

  ghost predicate Consistent(l: Link, doomed: seq<PendingRequest>) {
    Balanced(l.m, ProgressOf(l.e), doomed) && Settled(l.m, ProgressOf(l.e))
  }

  // ----- issuing -----

  lemma PollWeights(generation: u32, i: nat, r: PendingRequest, j: nat, limit: int)
    requires i < 0x8000_0000 && r.correlationId == CorrelationId(generation, i)
    ensures r.correlationId / GENERATION_UNIT == generation && r.correlationId % GENERATION_UNIT == i
    ensures Weight(Polls(generation), r) == 1
    ensures Weight(PollsOf(generation, j), r) == if i == j then 1 else 0
    ensures Weight(Slack(generation, limit), r) == limit - r.attemptsSoFar
  {
  }

  function Issued(p: Progress): Progress {
    p.(nextPlan := p.nextPlan + 1, outstanding := p.outstanding + 1)
  }

  lemma MoreAttributed(requests: seq<PendingRequest>, generation: u32, nextPlan: nat)
    requires Attributed(requests, generation, nextPlan)
    ensures Attributed(requests, generation, nextPlan + 1)
  {
  }

  lemma IssueAttributed(pending: seq<PendingRequest>, r: PendingRequest, generation: u32, nextPlan: nat)
    requires Attributed(pending, generation, nextPlan)
    requires r.correlationId / GENERATION_UNIT == generation && r.correlationId % GENERATION_UNIT == nextPlan
    ensures Attributed(pending + [r], generation, nextPlan + 1)
  {
  }

  lemma IssueBalanced(m: Manager, p: Progress, doomed: seq<PendingRequest>, unitId: u8, pdu: seq<byte>)
    requires Balanced(m, p, doomed) && Active(p) && p.nextPlan < p.planCount && p.outstanding < WindowSize(m.mode, p.maxInFlight)
    ensures Balanced(Send(m, unitId, pdu, CorrelationId(p.generation, p.nextPlan)), Issued(p), doomed)
  {
    hide FrameFor, Sum, Weight, ManagerValid, PlansAccounted, Budgeted, AllExact, Attributed, CorrelationId;
    var r := NewRequest(m, unitId, pdu, CorrelationId(p.generation, p.nextPlan));
    var g := p.generation;
    SendValid(m, unitId, pdu, CorrelationId(g, p.nextPlan));
    PollWeights(g, p.nextPlan, r, 0, 0);
    IssueAttributed(m.pending, r, g, p.nextPlan);
    MoreAttributed(doomed, g, p.nextPlan);
    SumSnoc(m.pending, r, Polls(g));
    IssuePlans(m.pending, doomed, p, r);
    IssueBudget(m, p, unitId, pdu);
  }

  lemma IssuePlans(pending: seq<PendingRequest>, doomed: seq<PendingRequest>, p: Progress, r: PendingRequest)
    requires PlansAccounted(pending, doomed, p) && p.nextPlan < 0x8000_0000
    requires r.correlationId == CorrelationId(p.generation, p.nextPlan)
    ensures PlansAccounted(pending + [r], doomed, Issued(p))
  {
    forall i: nat
      ensures PlanAccounted(pending + [r], doomed, Issued(p), i)
    {
      assert PlanAccounted(pending, doomed, p, i);
      PollWeights(p.generation, p.nextPlan, r, i, 0);
      SumSnoc(pending, r, PollsOf(p.generation, i));
    }
  }

  lemma IssueBudget(m: Manager, p: Progress, unitId: u8, pdu: seq<byte>)
    requires Budgeted(m, p) && p.nextPlan < 0x8000_0000
    ensures Budgeted(Send(m, unitId, pdu, CorrelationId(p.generation, p.nextPlan)), Issued(p))
  {
    hide FrameFor, Sum, PollTransmissions, Weight, CorrelationId, IsGeneration;
    var g, limit := p.generation, MaxAttempts(m.retryCount);
    var r := NewRequest(m, unitId, pdu, CorrelationId(g, p.nextPlan));
    var t := Transmission(r.serial, r.correlationId, FrameFor(m.mode, r));
    PollWeights(g, p.nextPlan, r, 0, limit);
    SumSnoc(m.pending, r, Slack(g, limit));
    PollTransmissionsSnoc(m.wire, t, g);
    PollsAreOfTheirGeneration(g, p.nextPlan);
    assert (p.nextPlan + 1) * limit == p.nextPlan * limit + limit;
  }

  /** Pumping changes only how far the cycle has got. */
  predicate OnlyPumped(before: Link, after: Link) {
    && after.e == before.e.(nextPlan := after.e.nextPlan, outstanding := after.e.outstanding)
    && after.m.mode == before.m.mode && after.m.retryCount == before.m.retryCount
    && after.e.nextPlan >= before.e.nextPlan && after.e.outstanding >= before.e.outstanding
  }

  lemma {:induction false} PumpBalanced(l: Link, doomed: seq<PendingRequest>)
    requires Balanced(l.m, ProgressOf(l.e), doomed)
    ensures Balanced(Pump(l).m, ProgressOf(Pump(l).e), doomed)
    ensures OnlyPumped(l, Pump(l)) && !CanIssue(Pump(l))
    decreases |l.e.plans| - l.e.nextPlan
  {
    hide Balanced, NewRequest, FrameFor, PlanPdu;
    if CanIssue(l) {
      var plan := l.e.plans[l.e.nextPlan];
      IssueBalanced(l.m, ProgressOf(l.e), doomed, plan.unitId, PlanPdu(plan));
      PumpBalanced(IssueNext(l), doomed);
    }
  }
}
