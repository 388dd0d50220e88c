/** The counters stay right through every way a request can end, and a cycle that finishes
    has settled every plan exactly once, within its budget of transmissions. */
module CycleInvariants {
  import opened Numbers
  import opened ReadCoalescer
  import opened Caches
  import PlannerCoverage
  import opened Transactions
  import opened Polling
  import opened Accounting

  // ----- beginning a cycle -----

  lemma {:induction false} OneShotsWeighNothing(requests: seq<PendingRequest>, q: Measure)
    requires OnlyOneShots(requests) && q.generation > 0
    ensures Sum(requests, q) == 0
  {
    if requests != [] {
      OneShotsWeighNothing(requests[..|requests| - 1], q);
    }
  }

  function Begun(m: Manager, p: Progress): Progress {
    p.(nextPlan := 0, outstanding := 0, settled := [], mark := PollTransmissions(m.wire, p.generation))
  }

  lemma BegunBalanced(m: Manager, p: Progress)
    requires ManagerValid(m) && p.maxInFlight >= 1 && p.planCount < 0x8000_0000 && p.running && p.generation > 0
    requires AllExact(p.completed, MaxAttempts(m.retryCount)) && p.completions == |p.completed|
    requires OnlyOneShots(m.pending)
    ensures Balanced(m, Begun(m, p), [])
  {
    OneShotsWeighNothing(m.pending, Polls(p.generation));
    OneShotsWeighNothing(m.pending, Slack(p.generation, MaxAttempts(m.retryCount)));
    forall i: nat
      ensures PlanAccounted(m.pending, [], Begun(m, p), i)
    {
      OneShotsWeighNothing(m.pending, PollsOf(p.generation, i));
    }
  }

  lemma BeginCycleConsistent(l: Link)
    requires ManagerValid(l.m) && l.e.maxInFlight >= 1 && |l.e.plans| < 0x8000_0000 && l.e.running && l.e.generation > 0
    requires AllExact(l.e.record.completed, MaxAttempts(l.m.retryCount)) && OnlyOneShots(l.m.pending)
    requires CompletionsIn(l.e.signals) == |l.e.record.completed|
    requires !l.e.intervalArmed
    ensures Consistent(BeginCycle(l), [])
  {
    if l.e.plans != [] {
      BegunBalanced(l.m, ProgressOf(l.e));
      assert ProgressOf(Rewound(l).e) == Begun(l.m, ProgressOf(l.e));
      PumpBalanced(Rewound(l), []);
    }
  }

  // ----- one request leaves -----

  /** What remains when request r leaves the pending list or the list of doomed ones. */
  ghost predicate Removal(before: Manager, doomedBefore: seq<PendingRequest>, after: Manager,
                          doomedAfter: seq<PendingRequest>, r: PendingRequest) {
    && ManagerValid(after)
    && after.mode == before.mode && after.retryCount == before.retryCount && after.wire == before.wire
    && Within(after.pending, before.pending) && Within(doomedAfter, doomedBefore)
    && (r in before.pending || r in doomedBefore)
    && SumsDrop(before.pending, doomedBefore, after.pending, doomedAfter, r)
    && (forall generation: u32 ::
          Sum(after.pending, Slack(generation, MaxAttempts(before.retryCount)))
          <= Sum(before.pending, Slack(generation, MaxAttempts(before.retryCount))))
  }

  predicate Within(a: seq<PendingRequest>, b: seq<PendingRequest>) {
    forall k :: 0 <= k < |a| ==> a[k] in b
  }

  ghost predicate SumsDrop(pending: seq<PendingRequest>, doomed: seq<PendingRequest>, pendingAfter: seq<PendingRequest>,
                           doomedAfter: seq<PendingRequest>, r: PendingRequest) {
    forall q: Measure :: Sum(pendingAfter, q) + Sum(doomedAfter, q) == Sum(pending, q) + Sum(doomed, q) - Weight(q, r)
  }

  lemma WithinAttributed(a: seq<PendingRequest>, b: seq<PendingRequest>, generation: u32, nextPlan: nat)
    requires Within(a, b)
    ensures Attributed(b, generation, nextPlan) ==> Attributed(a, generation, nextPlan)
    ensures OnlyOneShots(b) ==> OnlyOneShots(a)
  {
  }

  lemma CompleteRemoves(m: Manager, i: nat, pdu: seq<byte>)
    requires ManagerValid(m) && i < |m.pending|
    ensures Removal(m, [], Complete(m, i, pdu), [], m.pending[i])
  {
    CompleteValid(m, i, pdu);
    WithoutAt(m.pending, i);
    forall q: Measure
      ensures Sum(Without(m.pending, i), q) == Sum(m.pending, q) - Weight(q, m.pending[i])
    {
      SumWithout(m.pending, i, q);
    }
    forall generation: u32
      ensures Sum(Without(m.pending, i), Slack(generation, MaxAttempts(m.retryCount)))
           <= Sum(m.pending, Slack(generation, MaxAttempts(m.retryCount)))
    {
      assert m.pending[i].attemptsSoFar <= MaxAttempts(m.retryCount);
    }
  }

  lemma ReportRemoves(m: Manager, doomed: seq<PendingRequest>)
    requires ManagerValid(m) && doomed != []
    ensures Removal(m, doomed, m, doomed[1..], doomed[0])
  {
    forall q: Measure
      ensures Sum(m.pending, q) + Sum(doomed[1..], q) == Sum(m.pending, q) + Sum(doomed, q) - Weight(q, doomed[0])
    {
      SumFirst(doomed, q);
    }
  }

  // ----- it was a one-shot -----

  lemma OneShotLeaves(l: Link, doomed: seq<PendingRequest>, after: Manager, doomedAfter: seq<PendingRequest>,
                      r: PendingRequest)
    requires Consistent(l, doomed) && Removal(l.m, doomed, after, doomedAfter, r)
    requires r.correlationId < GENERATION_UNIT
    ensures Consistent(Link(after, l.e), doomedAfter)
  {
    var p := ProgressOf(l.e);
    WithinAttributed(after.pending, l.m.pending, p.generation, p.nextPlan);
    WithinAttributed(doomedAfter, doomed, p.generation, p.nextPlan);
    if Active(p) {
      assert Weight(Polls(p.generation), r) == 0;
      forall i: nat
        ensures PlanAccounted(after.pending, doomedAfter, p, i)
      {
        assert PlanAccounted(l.m.pending, doomed, p, i);
        assert Weight(PollsOf(p.generation, i), r) == 0;
      }
    }
  }

  // ----- it was a poll -----

  function WithSettled(p: Progress, i: nat): Progress {
    p.(outstanding := Max(0, p.outstanding - 1), settled := p.settled + [i])
  }

  lemma CountOfSnoc(settled: seq<nat>, j: nat, i: nat)
    ensures PlannerCoverage.CountOf(settled + [j], i) == PlannerCoverage.CountOf(settled, i) + if i == j then 1 else 0
  {
    assert (settled + [j])[..|settled|] == settled;
  }

  lemma IdFromParts(correlationId: nat, generation: u32)
    requires correlationId / GENERATION_UNIT == generation && correlationId % GENERATION_UNIT < 0x8000_0000
    ensures correlationId == CorrelationId(generation, correlationId % GENERATION_UNIT)
  {
  }

  lemma ListedIsAttributed(l: Link, doomed: seq<PendingRequest>, r: PendingRequest)
    requires Balanced(l.m, ProgressOf(l.e), doomed) && Active(ProgressOf(l.e)) && (r in l.m.pending || r in doomed)
    ensures r.correlationId < GENERATION_UNIT
         || (r.correlationId / GENERATION_UNIT == l.e.generation && r.correlationId % GENERATION_UNIT < l.e.nextPlan)
  {
  }

  /** A poll that is listed counts as outstanding. */
  lemma PollIsOutstanding(l: Link, doomed: seq<PendingRequest>, after: Manager, doomedAfter: seq<PendingRequest>,
                          r: PendingRequest)
    requires Balanced(l.m, ProgressOf(l.e), doomed) && Removal(l.m, doomed, after, doomedAfter, r)
    requires Active(ProgressOf(l.e)) && r.correlationId >= GENERATION_UNIT
    ensures r.correlationId == CorrelationId(l.e.generation, r.correlationId % GENERATION_UNIT)
    ensures r.correlationId % GENERATION_UNIT < l.e.nextPlan
    ensures l.e.outstanding == Sum(after.pending, Polls(l.e.generation)) + Sum(doomedAfter, Polls(l.e.generation)) + 1
    ensures l.e.outstanding >= 1
  {
    var i := r.correlationId % GENERATION_UNIT;
    ListedIsAttributed(l, doomed, r);
    IdFromParts(r.correlationId, l.e.generation);
    PollWeights(l.e.generation, i, r, i, 0);
    SumsOfPolls(after.pending, l.e.generation, 0);
    SumsOfPolls(doomedAfter, l.e.generation, 0);
  }

  lemma SettlePlans(l: Link, doomed: seq<PendingRequest>, after: Manager, doomedAfter: seq<PendingRequest>,
                    r: PendingRequest)
    requires PlansAccounted(l.m.pending, doomed, ProgressOf(l.e)) && Removal(l.m, doomed, after, doomedAfter, r)
    requires r.correlationId % GENERATION_UNIT < 0x8000_0000
    requires r.correlationId == CorrelationId(l.e.generation, r.correlationId % GENERATION_UNIT)
    ensures PlansAccounted(after.pending, doomedAfter, WithSettled(ProgressOf(l.e), r.correlationId % GENERATION_UNIT))
  {
    var p, j := ProgressOf(l.e), r.correlationId % GENERATION_UNIT;
    forall i: nat
      ensures PlanAccounted(after.pending, doomedAfter, WithSettled(p, j), i)
    {
      assert PlanAccounted(l.m.pending, doomed, p, i);
      PollWeights(p.generation, j, r, i, 0);
      CountOfSnoc(p.settled, j, i);
      assert Sum(after.pending, PollsOf(p.generation, i)) + Sum(doomedAfter, PollsOf(p.generation, i))
          == Sum(l.m.pending, PollsOf(p.generation, i)) + Sum(doomed, PollsOf(p.generation, i))
             - Weight(PollsOf(p.generation, i), r);
    }
  }

  lemma SettleBalanced(l: Link, doomed: seq<PendingRequest>, after: Manager, doomedAfter: seq<PendingRequest>,
                       r: PendingRequest)
    requires Balanced(l.m, ProgressOf(l.e), doomed) && Removal(l.m, doomed, after, doomedAfter, r)
    requires Active(ProgressOf(l.e)) && r.correlationId >= GENERATION_UNIT
    ensures Balanced(after, WithSettled(ProgressOf(l.e), r.correlationId % GENERATION_UNIT), doomedAfter)
  {
    var p := ProgressOf(l.e);
    PollIsOutstanding(l, doomed, after, doomedAfter, r);
    SettlePlans(l, doomed, after, doomedAfter, r);
    WithinAttributed(after.pending, l.m.pending, p.generation, p.nextPlan);
    WithinAttributed(doomedAfter, doomed, p.generation, p.nextPlan);
  }

  /** Nothing outstanding and nothing left to issue: the cycle did its work exactly. */
  lemma FinishedIsExact(l: Link, doomed: seq<PendingRequest>)
    requires Balanced(l.m, ProgressOf(l.e), doomed) && Active(ProgressOf(l.e)) && CycleFinished(l)
    ensures ExactCycle(Cycle(|l.e.plans|, l.e.record.settled,
                             PollTransmissions(l.m.wire, l.e.generation) - l.e.record.mark),
                       MaxAttempts(l.m.retryCount))
  {
    var p := ProgressOf(l.e);
    SumsOfPolls(l.m.pending, p.generation, 0);
    SumsOfPolls(doomed, p.generation, 0);
    SlackIsLeft(l.m.pending, p.generation, l.m.retryCount);
    forall i: nat | i < |l.e.plans|
      ensures PlannerCoverage.CountOf(p.settled, i) == 1
    {
      assert PlanAccounted(l.m.pending, doomed, p, i);
      SumsOfPolls(l.m.pending, p.generation, i);
      SumsOfPolls(doomed, p.generation, i);
    }
  }

  function Recorded(p: Progress, cycle: Cycle, armed: bool): Progress {
    p.(completed := p.completed + [cycle], completions := p.completions + 1, intervalArmed := armed)
  }

  lemma RecordedBalanced(m: Manager, p: Progress, doomed: seq<PendingRequest>, cycle: Cycle, armed: bool)
    requires Balanced(m, p, doomed) && ExactCycle(cycle, MaxAttempts(m.retryCount))
    ensures Balanced(m, Recorded(p, cycle, armed), doomed)
  {
    if Active(p) {
      forall i: nat
        ensures PlanAccounted(m.pending, doomed, Recorded(p, cycle, armed), i)
      {
        assert PlanAccounted(m.pending, doomed, p, i);
      }
    }
  }

  lemma FinishConsistent(l: Link, doomed: seq<PendingRequest>)
    requires Balanced(l.m, ProgressOf(l.e), doomed) && Active(ProgressOf(l.e)) && CycleFinished(l)
    ensures Consistent(FinishCycle(l), doomed)
  {
    var cycle := Cycle(|l.e.plans|, l.e.record.settled,
                       PollTransmissions(l.m.wire, l.e.generation) - l.e.record.mark);
    FinishedIsExact(l, doomed);
    RecordedBalanced(l.m, ProgressOf(l.e), doomed, cycle, true);
    assert FinishCycle(l).e.signals[..|l.e.signals|] == l.e.signals;
    assert ProgressOf(FinishCycle(l).e) == Recorded(ProgressOf(l.e), cycle, true);
  }

  lemma NoteSettledConsistent(l: Link, doomed: seq<PendingRequest>, i: nat)
    requires Balanced(l.m, ProgressOf(Settle(l.e, i)), doomed) && Active(ProgressOf(l.e)) && !l.e.intervalArmed
    ensures Consistent(NoteRequestSettled(l, i), doomed)
  {
    var settled := l.(e := Settle(l.e, i));
    PumpBalanced(settled, doomed);
    var pumped := Pump(settled);
    if CycleFinished(pumped) {
      FinishConsistent(pumped, doomed);
    }
  }

  /** A request ends, well or badly; e1 is the engine after it has used the reply or
      reported the failure. */
  lemma RequestEnds(l: Link, doomed: seq<PendingRequest>, after: Manager, e1: Engine, doomedAfter: seq<PendingRequest>,
                    r: PendingRequest)
    requires Consistent(l, doomed) && Removal(l.m, doomed, after, doomedAfter, r)
    requires ProgressOf(e1) == ProgressOf(l.e)
    ensures if l.e.running && IsGeneration(r.correlationId, l.e.generation) then
              && 0 <= PlanIndexOf(r.correlationId) < |l.e.plans|
              && Consistent(NoteRequestSettled(Link(after, e1), PlanIndexOf(r.correlationId)), doomedAfter)
            else Consistent(Link(after, l.e), doomedAfter)
  {
    if r.correlationId < GENERATION_UNIT {
      OneShotLeaves(l, doomed, after, doomedAfter, r);
    } else {
      PollIsOutstanding(l, doomed, after, doomedAfter, r);
      SettleBalanced(l, doomed, after, doomedAfter, r);
      var i := r.correlationId % GENERATION_UNIT;
      assert ProgressOf(Settle(e1, i)) == WithSettled(ProgressOf(l.e), i);
      NoteSettledConsistent(Link(after, e1), doomedAfter, i);
    }
  }
}
