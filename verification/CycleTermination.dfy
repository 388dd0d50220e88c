/** Every cycle ends: each reply to a poll and each timeout that hits one, even one that only
    sends it again, uses up some of a patience that the cycle begins with. */
module CycleTermination {
  import opened Numbers
  import opened ReadCoalescer
  import opened Caches
  import opened Transactions
  import opened Polling
  import opened OneShots
  import opened PollStack
  import opened Accounting
  import opened CycleInvariants
  import opened StackInvariants
  import opened CycleResults
  import opened Provenance

  function AttemptsEach(l: Link): int {
    MaxAttempts(l.m.retryCount)
  }

  /** Twice the attempts for every plan still to be issued, the attempts that the polls in
      flight have left, and one for each of them. */
  function Patience(l: Link): int {
    2 * AttemptsEach(l) * (|l.e.plans| - l.e.nextPlan)
      + Sum(l.m.pending, Slack(l.e.generation, AttemptsEach(l)))
      + l.e.outstanding
  }

  /** The same configuration is being polled. */
  predicate SamePolling(a: Link, b: Link) {
    && b.m.retryCount == a.m.retryCount && b.e.plans == a.e.plans
    && b.e.generation == a.e.generation && b.e.running == a.e.running
  }

  // ----- issuing -----

  lemma IssuePatience(l: Link)
    requires CanIssue(l) && |l.e.plans| < 0x8000_0000
    ensures Patience(IssueNext(l)) <= Patience(l) && SamePolling(l, IssueNext(l))
  {
    hide FrameFor, PlanPdu;
    var plan, a := l.e.plans[l.e.nextPlan], AttemptsEach(l);
    var r := NewRequest(l.m, plan.unitId, PlanPdu(plan), CorrelationId(l.e.generation, l.e.nextPlan));
    PollWeights(l.e.generation, l.e.nextPlan, r, 0, a);
    SumSnoc(l.m.pending, r, Slack(l.e.generation, a));
    assert 2 * a * (|l.e.plans| - (l.e.nextPlan + 1)) == 2 * a * (|l.e.plans| - l.e.nextPlan) - 2 * a;
  }

  lemma {:induction false} PumpPatience(l: Link)
    requires |l.e.plans| < 0x8000_0000
    ensures Patience(Pump(l)) <= Patience(l) && SamePolling(l, Pump(l))
    decreases |l.e.plans| - l.e.nextPlan
  {
    hide Patience, IssueNext;
    if CanIssue(l) {
      IssuePatience(l);
      IssueAdvances(l);
      PumpPatience(IssueNext(l));
    }
  }

  lemma IssueAdvances(l: Link)
    requires l.e.nextPlan < |l.e.plans|
    ensures |IssueNext(l).e.plans| == |l.e.plans| && IssueNext(l).e.nextPlan == l.e.nextPlan + 1
  {
  }

  lemma SettlingPatience(l: Link, i: int)
    requires |l.e.plans| < 0x8000_0000 && l.e.outstanding >= 1
    ensures Patience(NoteRequestSettled(l, i)) < Patience(l) && SamePolling(l, NoteRequestSettled(l, i))
  {
    hide Sum;
    var settled := l.(e := Settle(l.e, i));
    assert Patience(settled) == Patience(l) - 1;
    PumpPatience(settled);
    FinishingPatience(Pump(settled));
  }

  lemma FinishingPatience(l: Link)
    ensures Patience(FinishCycle(l)) == Patience(l) && SamePolling(l, FinishCycle(l))
  {
  }

  // ----- replies -----

  lemma CompletePatience(l: Link, i: nat, pdu: seq<byte>)
    requires i < |l.m.pending| && AttemptsBounded(l.m.pending, l.m.retryCount)
    ensures Patience(l.(m := Complete(l.m, i, pdu))) <= Patience(l) && SamePolling(l, l.(m := Complete(l.m, i, pdu)))
  {
    SumWithout(l.m.pending, i, Slack(l.e.generation, AttemptsEach(l)));
    assert l.m.pending[i].attemptsSoFar <= MaxAttempts(l.m.retryCount);
  }

  /** A poll that is listed is taken for one: its generation is the current one, its index
      that of a plan. */
  lemma PollIsTaken(s: Stack, doomed: seq<PendingRequest>, r: PendingRequest)
    requires FailingValid(s, doomed) && IsPolling(s.link.e) && IsPoll(r) && (r in s.link.m.pending || r in doomed)
    ensures IsGeneration(r.correlationId, s.link.e.generation) && 0 <= PlanIndexOf(r.correlationId) < |s.link.e.plans|
  {
    hide ManagerValid, AllExact, OutstandingIsPending, PlansAccounted, Budgeted, Configured;
    ListedIsAttributed(s.link, doomed, r);
  }

  lemma OneShotIgnored(s: Stack, doomed: seq<PendingRequest>, id: nat, pdu: seq<byte>)
    requires FailingValid(s, doomed) && IsPolling(s.link.e) && id < GENERATION_UNIT
    ensures forall m: Manager :: HandleResponse(Link(m, s.link.e), id, pdu) == Link(m, s.link.e)
    ensures HandleFailure(s.link, id) == s.link
  {
    assert id / GENERATION_UNIT == 0;
    assert !IsGeneration(id, s.link.e.generation);
  }

  lemma UsePatience(l: Link, index: nat, pdu: seq<byte>)
    requires index < |l.e.plans| && CachesFit(l.e.targets, l.e.caches)
    ensures var applied := l.(e := ApplyPlanResponse(l.e, l.e.plans[index], pdu));
            Patience(applied) == Patience(l) && SamePolling(l, applied) && applied.e.outstanding == l.e.outstanding
  {
    ApplyKeepsCycle(l.e, l.e.plans[index], pdu);
  }

  lemma OutstandingPoll(s: Stack, i: nat, pdu: seq<byte>)
    requires StackValid(s) && IsPolling(s.link.e) && i < |s.link.m.pending| && IsPoll(s.link.m.pending[i])
    ensures s.link.e.outstanding >= 1
  {
    CompleteRemoves(s.link.m, i, pdu);
    PollIsOutstanding(s.link, [], Complete(s.link.m, i, pdu), [], s.link.m.pending[i]);
  }

  /** A reply never costs patience to make up, and a reply to a poll uses some up. */
  lemma AnswerPatience(s: Stack, i: nat, pdu: seq<byte>)
    requires StackValid(s) && IsPolling(s.link.e) && i < |s.link.m.pending|
    ensures SamePolling(s.link, Answer(s, i, pdu).link) && Patience(Answer(s, i, pdu).link) <= Patience(s.link)
    ensures IsPoll(s.link.m.pending[i]) ==> Patience(Answer(s, i, pdu).link) < Patience(s.link)
  {
    hide Patience, Complete, ApplyPlanResponse, NoteRequestSettled, ControllerResponse, Plans;
    var l, r := s.link, s.link.m.pending[i];
    var after := l.(m := Complete(l.m, i, pdu));
    assert Consistent(l, []);
    CompletePatience(l, i, pdu);
    if IsPoll(r) {
      PollIsTaken(s, [], r);
      OutstandingPoll(s, i, pdu);
      var index := PlanIndexOf(r.correlationId);
      UsePatience(after, index, pdu);
      SettlingPatience(after.(e := ApplyPlanResponse(l.e, l.e.plans[index], pdu)), index);
    } else {
      OneShotIgnored(s, [], r.correlationId, pdu);
    }
  }

  /** A poll with this serial is pending. */
  predicate PollPending(l: Link, serial: nat) {
    exists i :: 0 <= i < |l.m.pending| && l.m.pending[i].serial == serial && IsPoll(l.m.pending[i])
  }

  lemma OthersStayPending(s: Stack, i: nat, pdu: seq<byte>, serial: nat)
    requires i < |s.link.m.pending| && s.link.m.pending[i].serial != serial && PollPending(s.link, serial)
    ensures PollPending(Answer(s, i, pdu).link, serial)
  {
    hide Pump;
    var l := s.link;
    var after := l.(m := Complete(l.m, i, pdu));
    var k :| 0 <= k < |l.m.pending| && l.m.pending[k].serial == serial && IsPoll(l.m.pending[k]);
    WithoutAt(l.m.pending, i);
    ResponseAppends(after, l.m.pending[i].correlationId, pdu);
    assert after.m.pending[if k < i then k else k - 1] == l.m.pending[k];
    assert Answer(s, i, pdu).link.m.pending[if k < i then k else k - 1] == l.m.pending[k];
  }

  /** A frame is delivered: a poll it answers costs patience, and no other leaves. */
  lemma DeliverPatience(s: Stack, a: Arrival, serial: nat)
    requires StackValid(s) && IsPolling(s.link.e)
    ensures SamePolling(s.link, Deliver(s, a).link) && Patience(Deliver(s, a).link) <= Patience(s.link)
    ensures PollPending(s.link, serial) ==>
              PollPending(Deliver(s, a).link, serial) || Patience(Deliver(s, a).link) < Patience(s.link)
  {
    hide Patience, Answer, PollPending;
    if a.Reply? && MatchOf(s.link.m.pending, a.transactionId) < |s.link.m.pending| {
      var i := MatchOf(s.link.m.pending, a.transactionId);
      AnswerPatience(s, i, a.pdu);
      if PollPending(s.link, serial) {
        if s.link.m.pending[i].serial == serial {
          PendingAscends(s);
          SameSerialIsPoll(s.link, i, serial);
        } else {
          OthersStayPending(s, i, a.pdu, serial);
        }
      }
    }
  }

  lemma PendingAscends(s: Stack)
    requires StackValid(s)
    ensures SerialsAscend(s.link.m.pending)
  {
    assert Consistent(s.link, []);
  }

  lemma SameSerialIsPoll(l: Link, i: nat, serial: nat)
    requires SerialsAscend(l.m.pending) && PollPending(l, serial)
    requires i < |l.m.pending| && l.m.pending[i].serial == serial
    ensures IsPoll(l.m.pending[i])
  {
  }

  lemma PendingHasNotEnded(s: Stack, serial: nat)
    requires StackValid(s) && PollPending(s.link, serial)
    ensures serial !in s.link.m.outcomes
  {
    assert Consistent(s.link, []);
    assert Listed(s.link.m.pending, serial);
  }

  lemma {:induction false} ConsumePatience(s: Stack, serial: nat)
    requires StackValid(s) && IsPolling(s.link.e)
    ensures SamePolling(s.link, Consume(s).link) && Patience(Consume(s).link) <= Patience(s.link)
    ensures PollPending(s.link, serial) && serial in Consume(s).link.m.outcomes ==>
              Patience(Consume(s).link) < Patience(s.link)
    decreases |s.link.m.receiveBuffer|
  {
    hide Patience, Deliver, PollPending, StackValid, NextArrival;
    var m := s.link.m;
    var next := NextArrival(m.mode, m.receiveBuffer);
    if m.pending != [] && next.Some? {
      var taken := WithBuffer(s, m.receiveBuffer[next.value.size..]);
      WithBufferValid(s, m.receiveBuffer[next.value.size..]);
      BufferPatience(s, m.receiveBuffer[next.value.size..], serial);
      DeliverValid(taken, next.value);
      DeliverPatience(taken, next.value, serial);
      ConsumePatience(Deliver(taken, next.value), serial);
    } else if PollPending(s.link, serial) {
      PendingHasNotEnded(s, serial);
    }
  }

  lemma BufferPatience(s: Stack, buffer: seq<byte>, serial: nat)
    ensures var after := WithBuffer(s, buffer).link;
            && Patience(after) == Patience(s.link) && SamePolling(s.link, after)
            && PollPending(after, serial) == PollPending(s.link, serial)
  {
  }

  lemma ReceivePatience(s: Stack, data: seq<byte>, serial: nat)
    requires StackValid(s) && IsPolling(s.link.e)
    ensures SamePolling(s.link, Receive(s, data).link) && Patience(Receive(s, data).link) <= Patience(s.link)
    ensures PollPending(s.link, serial) && serial in Receive(s, data).link.m.outcomes ==>
              Patience(Receive(s, data).link) < Patience(s.link)
  {
    hide Patience, Consume, StackValid;
    if s.link.m.pending != [] {
      var buffered := WithBuffer(s, s.link.m.receiveBuffer + data);
      WithBufferValid(s, s.link.m.receiveBuffer + data);
      BufferPatience(s, s.link.m.receiveBuffer + data, serial);
      ConsumePatience(buffered, serial);
    }
  }

  // ----- timeouts -----

  lemma OutstandingDoomed(s: Stack, doomed: seq<PendingRequest>)
    requires FailingValid(s, doomed) && IsPolling(s.link.e) && doomed != [] && IsPoll(doomed[0])
    ensures s.link.e.outstanding >= 1
  {
    ReportRemoves(s.link.m, doomed);
    PollIsOutstanding(s.link, doomed, s.link.m, doomed[1..], doomed[0]);
  }

  lemma FailPatience(s: Stack, doomed: seq<PendingRequest>)
    requires FailingValid(s, doomed) && IsPolling(s.link.e) && doomed != []
    ensures var after := Fail(s, doomed[0].correlationId).link;
            && SamePolling(s.link, after)
            && Patience(after) + Weight(Polls(s.link.e.generation), doomed[0]) <= Patience(s.link)
  {
    hide NoteRequestSettled, ControllerFailure, Plans, FailingValid;
    var l, r := s.link, doomed[0];
    if IsPoll(r) {
      PollIsTaken(s, doomed, r);
      OutstandingDoomed(s, doomed);
      var index := PlanIndexOf(r.correlationId);
      var reported := l.(e := ReportFailure(l.e, l.e.plans[index].covered));
      assert Patience(reported) == Patience(l);
      FailingFewPlans(s, doomed);
      SettlingPatience(reported, index);
    } else {
      OneShotIgnored(s, doomed, r.correlationId, []);
      assert r.correlationId / GENERATION_UNIT == 0;
      FailingFewPlans(s, doomed);
    }
  }

  lemma FailingFewPlans(s: Stack, doomed: seq<PendingRequest>)
    requires FailingValid(s, doomed) && IsPolling(s.link.e)
    ensures |s.link.e.plans| < 0x8000_0000 && s.link.e.generation > 0
  {
  }

  lemma {:induction false} FailAllPatience(s: Stack, doomed: seq<PendingRequest>)
    requires FailingValid(s, doomed) && IsPolling(s.link.e)
    ensures SamePolling(s.link, FailAll(s, doomed).link)
    ensures Patience(FailAll(s, doomed).link) + Sum(doomed, Polls(s.link.e.generation)) <= Patience(s.link)
    decreases |doomed|
  {
    hide Patience, Fail, FailingValid, Weight;
    if doomed != [] {
      FailPatience(s, doomed);
      FailValid(s, doomed);
      FailAllPatience(Fail(s, doomed[0].correlationId), doomed[1..]);
      SumFirst(doomed, Polls(s.link.e.generation));
    }
  }

  lemma PollsWeigh(r: PendingRequest, generation: u32)
    ensures Weight(Polls(generation), r) == if IsGeneration(r.correlationId, generation) then 1 else 0
  {
  }

  /** An expired poll is sent again or given up. */
  lemma {:induction false} ExpiredPollCounts(pending: seq<PendingRequest>, expired: set<nat>, retryCount: int, i: nat,
                                             generation: u32)
    requires i < |pending| && pending[i].serial in expired && IsGeneration(pending[i].correlationId, generation)
    ensures var swept := Sweep(pending, expired, retryCount);
            Sum(swept.resent, Polls(generation)) + Sum(swept.exhausted, Polls(generation)) >= 1
  {
    hide Sum, Weight, IsGeneration;
    var rest, last, q := pending[..|pending| - 1], pending[|pending| - 1], Polls(generation);
    var before := Sweep(rest, expired, retryCount);
    var again := last.(attemptsSoFar := last.attemptsSoFar + 1);
    SumsOfPolls(before.resent, generation, 0);
    SumsOfPolls(before.exhausted, generation, 0);
    SumAppend([last], before.exhausted, q);
    SumAppend([again], before.resent, q);
    SumOne(last, q);
    SumOne(again, q);
    RetryWeighsTheSame(last, q);
    PollsWeigh(last, generation);
    if i < |rest| {
      ExpiredPollCounts(rest, expired, retryCount, i, generation);
    }
  }

  /** A retry costs one of the attempts left, giving up costs one poll in flight. */
  lemma ExpirePatience(s: Stack, expired: set<nat>)
    requires StackValid(s) && IsPolling(s.link.e)
    ensures SamePolling(s.link, Expire(s, expired).link)
    ensures var swept := Sweep(s.link.m.pending, expired, s.link.m.retryCount);
            var q := Polls(s.link.e.generation);
            Patience(Expire(s, expired).link) + Sum(swept.resent, q) + Sum(swept.exhausted, q) <= Patience(s.link)
  {
    hide Sweep, FailAll, EndAll, Transmissions, Balanced, Plans;
    var l := s.link;
    var swept := Sweep(l.m.pending, expired, l.m.retryCount);
    var after := s.(link := l.(m := AfterSweep(l.m, expired)));
    BoundedAttempts(l);
    SweepSlack(l.m.pending, expired, l.m.retryCount, l.e.generation);
    SweepConsistent(l, expired);
    FailAllPatience(after, swept.exhausted);
  }

  lemma BoundedAttempts(l: Link)
    requires Consistent(l, [])
    ensures AttemptsBounded(l.m.pending, l.m.retryCount)
  {
  }

  lemma ExpiredPollPatience(s: Stack, expired: set<nat>, i: nat)
    requires StackValid(s) && IsPolling(s.link.e)
    requires i < |s.link.m.pending| && IsPoll(s.link.m.pending[i]) && s.link.m.pending[i].serial in expired
    ensures Patience(Expire(s, expired).link) < Patience(s.link)
  {
    hide Patience, Sweep, Expire, IsGeneration;
    ExpirePatience(s, expired);
    PollIsTaken(s, [], s.link.m.pending[i]);
    ExpiredPollCounts(s.link.m.pending, expired, s.link.m.retryCount, i, s.link.e.generation);
  }

  lemma AnyExpirePatience(s: Stack, expired: set<nat>)
    requires StackValid(s) && IsPolling(s.link.e)
    ensures SamePolling(s.link, Expire(s, expired).link) && Patience(Expire(s, expired).link) <= Patience(s.link)
  {
    hide Patience, Sweep, Expire;
    ExpirePatience(s, expired);
    var swept := Sweep(s.link.m.pending, expired, s.link.m.retryCount);
    SumsOfPolls(swept.resent, s.link.e.generation, 0);
    SumsOfPolls(swept.exhausted, s.link.e.generation, 0);
  }

  // ----- every event -----

  /** The event ends a pending poll, or is a timeout that has come for one. */
  predicate Advances(s: Stack, event: Event) {
    match event
    case DataArrives(data) =>
      exists i :: 0 <= i < |s.link.m.pending| && IsPoll(s.link.m.pending[i])
                  && s.link.m.pending[i].serial in Receive(s, data).link.m.outcomes
    case DeadlinesPass(expired) =>
      exists i :: 0 <= i < |s.link.m.pending| && IsPoll(s.link.m.pending[i]) && s.link.m.pending[i].serial in expired
    case _ => false
  }

  /** The cycle goes on: nobody stops or retargets, and the interval timer is not waiting. */
  predicate GoesOn(s: Stack, event: Event) {
    IsPolling(s.link.e) && !s.link.e.intervalArmed && !event.StopPolling? && !event.Retarget?
  }

  lemma SentOneShotPatience(l: Link, unitId: u8, pdu: seq<byte>, id: nat)
    requires l.e.generation > 0 && id < GENERATION_UNIT
    ensures var after := l.(m := Send(l.m, unitId, pdu, id));
            SamePolling(l, after) && Patience(after) == Patience(l)
  {
    hide FrameFor;
    assert id / GENERATION_UNIT == 0;
    SumSnoc(l.m.pending, NewRequest(l.m, unitId, pdu, id), Slack(l.e.generation, AttemptsEach(l)));
  }

  lemma OneShotPatience(s: Stack, request: Request)
    requires StackValid(s) && IsPolling(s.link.e) && s.c.correlationId + 1 < GENERATION_UNIT
    ensures SamePolling(s.link, OneShot(s, request).link) && Patience(OneShot(s, request).link) == Patience(s.link)
  {
    hide Patience, Send, RequestPdu, Consistent, Configured, SamePolling;
    FailingFewPlans(s, []);
    SentOneShotPatience(s.link, UnitByte(s.c), RequestPdu(request), s.c.correlationId + 1);
  }

  lemma FlushPatience(s: Stack)
    requires Shaped(s.link.e)
    ensures var after := s.link.(e := Flush(s.link.e)); SamePolling(s.link, after) && Patience(after) == Patience(s.link)
  {
  }

  /** No event restores patience, and every one that advances the polling uses some up. */
  lemma StepPatience(s: Stack, event: Event)
    requires StackValid(s) && Allowed(s, event) && GoesOn(s, event)
    ensures SamePolling(s.link, Step(s, event).link)
    ensures Patience(Step(s, event).link) + (if Advances(s, event) then 1 else 0) <= Patience(s.link)
  {
    hide Patience, Receive, Expire, OneShot, Balanced, Settled, Plans;
    match event
    case DataArrives(data) =>
      if Advances(s, event) {
        var i :| 0 <= i < |s.link.m.pending| && IsPoll(s.link.m.pending[i])
                 && s.link.m.pending[i].serial in Receive(s, data).link.m.outcomes;
        ReceivePatience(s, data, s.link.m.pending[i].serial);
      } else {
        ReceivePatience(s, data, 0);
      }
    case DeadlinesPass(expired) =>
      AnyExpirePatience(s, expired);
      if Advances(s, event) {
        var i :| 0 <= i < |s.link.m.pending| && IsPoll(s.link.m.pending[i]) && s.link.m.pending[i].serial in expired;
        ExpiredPollPatience(s, expired, i);
      }
    case SendOneShot(request) => OneShotPatience(s, request);
    case FlushTimeout => FlushPatience(s);
    case StartPolling =>
    case Reconfigure(_) =>
    case IntervalTimeout =>
    case Retarget(_) =>
    case StopPolling =>
  }

  // ----- how much patience there is -----

  lemma {:induction false} SlackIsBounded(requests: seq<PendingRequest>, generation: u32, retryCount: int)
    requires AttemptsBounded(requests, retryCount)
    ensures Sum(requests, Slack(generation, MaxAttempts(retryCount))) + Sum(requests, Polls(generation))
         <= Sum(requests, Polls(generation)) * MaxAttempts(retryCount)
  {
    if requests != [] {
      var rest, a := requests[..|requests| - 1], MaxAttempts(retryCount);
      SlackIsBounded(rest, generation, retryCount);
      var polls, w := Sum(rest, Polls(generation)), Weight(Polls(generation), requests[|requests| - 1]);
      assert (polls + w) * a == polls * a + w * a;
    }
  }

  lemma Scaled(x: int, y: int, a: int)
    requires x <= y && a >= 0
    ensures x * a <= y * a
  {
  }

  lemma BudgetSuffices(a: int, planCount: int, issued: int, slack: int, outstanding: int)
    requires a >= 1 && 0 <= outstanding <= issued <= planCount
    requires 0 <= slack && slack + outstanding <= outstanding * a
    ensures outstanding <= 2 * a * (planCount - issued) + slack + outstanding <= 2 * a * planCount
  {
    Scaled(outstanding, issued, a);
    Scaled(0, planCount - issued, 2 * a);
    Scaled(0, issued, a);
    assert 2 * a * (planCount - issued) == 2 * a * planCount - 2 * (issued * a);
  }

  lemma InFlightCounted(s: Stack)
    requires StackValid(s) && IsPolling(s.link.e)
    ensures var e := s.link.e;
            && Sum(s.link.m.pending, Polls(e.generation)) == e.outstanding <= e.nextPlan <= |e.plans|
            && (!e.intervalArmed ==> e.outstanding >= 1)
            && AttemptsBounded(s.link.m.pending, s.link.m.retryCount)
  {
    assert Consistent(s.link, []);
    NothingDoomed(s.link.e.generation);
  }

  /** A cycle never has more patience than twice its plans times their attempts, and while
      it lasts it has some left. */
  lemma PatienceIsBounded(s: Stack)
    requires StackValid(s) && IsPolling(s.link.e)
    ensures Patience(s.link) <= 2 * AttemptsEach(s.link) * |s.link.e.plans|
    ensures !s.link.e.intervalArmed ==> Patience(s.link) >= 1
  {
    hide StackValid, AttemptsBounded;
    var l, a := s.link, AttemptsEach(s.link);
    InFlightCounted(s);
    SlackIsBounded(l.m.pending, l.e.generation, l.m.retryCount);
    SlackIsLeft(l.m.pending, l.e.generation, l.m.retryCount);
    BudgetSuffices(a, |l.e.plans|, l.e.nextPlan, Sum(l.m.pending, Slack(l.e.generation, a)), l.e.outstanding);
  }

  lemma NothingDoomed(generation: u32)
    ensures Sum([], Polls(generation)) == 0
  {
  }

  // ----- every run -----

  /** How many of the events from j up to k advance the polling. */
  function AdvancesBetween(states: seq<Stack>, events: seq<Event>, j: nat, k: nat): nat
    requires j <= k <= |events| <= |states|
  {
    if k == j then 0
    else AdvancesBetween(states, events, j, k - 1) + if Advances(states[k - 1], events[k - 1]) then 1 else 0
  }

  /** The interval timer has been armed in one of these states. */
  predicate TimerArmedWithin(states: seq<Stack>, j: nat, k: nat)
    requires j <= k < |states|
  {
    exists i :: j <= i <= k && states[i].link.e.intervalArmed
  }

  /** The polling goes on, and the advances so far have been paid for. */
  predicate SpentBetween(states: seq<Stack>, events: seq<Event>, j: nat, k: nat, budget: int)
    requires j <= k <= |events| < |states|
  {
    && SamePolling(states[j].link, states[k].link)
    && Patience(states[k].link) + AdvancesBetween(states, events, j, k) <= budget
  }

  /** The theorem: in a stretch of a run in which nobody stops or retargets, after at most
      `2 * max(1, retryCount + 1) * |plans|` replies to polls and timeouts of polls, in any
      mixture and with anything else in between, the cycle has ended: the interval timer
      has been armed. */
  lemma CyclesEnd(states: seq<Stack>, events: seq<Event>, j: nat, k: nat)
    requires IsRun(states, events) && j <= k < |states| && IsPolling(states[j].link.e)
    requires forall i :: j <= i < k ==> !events[i].StopPolling? && !events[i].Retarget?
    requires AdvancesBetween(states, events, j, k) >= 2 * AttemptsEach(states[j].link) * |states[j].link.e.plans|
    ensures exists i :: j <= i <= k && states[i].link.e.intervalArmed
  {
    hide Patience, StackValid, Step, Advances;
    RunsAreValid(states, events);
    var budget := 2 * AttemptsEach(states[j].link) * |states[j].link.e.plans|;
    PatienceIsBounded(states[j]);
    for i := j to k
      invariant TimerArmedWithin(states, j, i) || SpentBetween(states, events, j, i, budget)
    {
      if !TimerArmedWithin(states, j, i) {
        assert Follows(states[i], events[i], states[i + 1]);
        StepPatience(states[i], events[i]);
      }
    }
    if !TimerArmedWithin(states, j, k) {
      PatienceIsBounded(states[k]);
    }
  }
}
