/** How much the planner reads: plans of a group are disjoint and ascending, dead
    addresses are bridged only in blocks no longer than the gap, no request is pure
    filler, and without bridging the number of requests is the least possible. */
module PlannerOptimality {
  import opened Numbers
  import opened RegisterTypes
  import opened ReadCoalescer
  import opened PlannerCoverage

  /** No target asks for nothing. */
  predicate NonEmptyTargets(targets: seq<PollTarget>) {
    forall i :: 0 <= i < |targets| ==> targets[i].quantity >= 1
  }

  /** Some target of the list reaches into the closed range [lo, hi]. */
  predicate Touches(targets: seq<PollTarget>, indices: seq<nat>, lo: int, hi: int)
    requires IndicesInto(targets, indices)
  {
    exists k :: 0 <= k < |indices| && targets[indices[k]].startAddress <= hi && lo < targets[indices[k]].EndExclusive()
  }

  /** Any gap + 1 consecutive addresses inside the run include a wanted one. */
  ghost predicate Dense(targets: seq<PollTarget>, run: MergedRun, gap: int)
    requires IndicesInto(targets, run.targetIndices)
  {
    forall a, b :: run.startAddress <= a && b == a + gap && b < run.endAddressExclusive ==>
      Touches(targets, run.targetIndices, a, b)
  }

  /** A run starts and ends at wanted addresses. */
  predicate Tight(targets: seq<PollTarget>, run: MergedRun)
    requires IndicesInto(targets, run.targetIndices)
  {
    && run.startAddress < run.endAddressExclusive
    && Touches(targets, run.targetIndices, run.endAddressExclusive - 1, run.endAddressExclusive - 1)
  }

  predicate Apart(runs: seq<MergedRun>, gap: int) {
    forall r, s :: 0 <= r < s < |runs| ==> runs[r].endAddressExclusive + gap < runs[s].startAddress
  }

  ghost predicate GoodRuns(targets: seq<PollTarget>, runs: seq<MergedRun>, gap: int)
    requires RunsInto(targets, runs)
  {
    && Apart(runs, gap)
    && forall r :: 0 <= r < |runs| ==> Dense(targets, runs[r], gap) && Tight(targets, runs[r])
  }

  lemma TouchesGrows(targets: seq<PollTarget>, indices: seq<nat>, index: nat, lo: int, hi: int)
    requires IndicesInto(targets, indices) && index < |targets|
    requires Touches(targets, indices, lo, hi)
      || (targets[index].startAddress <= hi && lo < targets[index].EndExclusive())
    ensures Touches(targets, indices + [index], lo, hi)
  {
    var longer := indices + [index];
    if Touches(targets, indices, lo, hi) {
      var k :| 0 <= k < |indices| && targets[indices[k]].startAddress <= hi && lo < targets[indices[k]].EndExclusive();
      assert longer[k] == indices[k];
    } else {
      assert longer[|indices|] == index;
    }
  }

  lemma TouchesWider(targets: seq<PollTarget>, indices: seq<nat>, lo: int, hi: int, lo': int, hi': int)
    requires IndicesInto(targets, indices) && Touches(targets, indices, lo, hi)
    requires lo' <= lo && hi <= hi'
    ensures Touches(targets, indices, lo', hi')
  {
    var k :| 0 <= k < |indices| && targets[indices[k]].startAddress <= hi && lo < targets[indices[k]].EndExclusive();
    assert targets[indices[k]].startAddress <= hi' && lo' < targets[indices[k]].EndExclusive();
  }

  lemma NewRunGood(targets: seq<PollTarget>, index: nat, gap: int)
    requires index < |targets| && targets[index].quantity >= 1 && gap >= 0
    ensures var run := MergedRun(targets[index].startAddress, targets[index].EndExclusive(), [index]);
            Dense(targets, run, gap) && Tight(targets, run)
  {
    var run := MergedRun(targets[index].startAddress, targets[index].EndExclusive(), [index]);
    forall a, b | run.startAddress <= a && b == a + gap && b < run.endAddressExclusive
      ensures Touches(targets, run.targetIndices, a, b)
    {
      TouchesGrows(targets, [], index, a, b);
    }
    assert run.targetIndices[0] == index;
  }

  lemma ExtendedRunGood(targets: seq<PollTarget>, run: MergedRun, index: nat, gap: int)
    requires IndicesInto(targets, run.targetIndices) && index < |targets|
    requires targets[index].quantity >= 1 && gap >= 0
    requires Dense(targets, run, gap) && Tight(targets, run)
    requires run.startAddress <= targets[index].startAddress
    requires targets[index].startAddress - run.endAddressExclusive <= gap
    ensures var longer := MergedRun(run.startAddress, Max(run.endAddressExclusive, targets[index].EndExclusive()),
                                    run.targetIndices + [index]);
            Dense(targets, longer, gap) && Tight(targets, longer)
  {
    var end := run.endAddressExclusive;
    var longer := MergedRun(run.startAddress, Max(end, targets[index].EndExclusive()), run.targetIndices + [index]);
    forall a, b | longer.startAddress <= a && b == a + gap && b < longer.endAddressExclusive
      ensures Touches(targets, longer.targetIndices, a, b)
    {
      if b < end {
        assert Touches(targets, run.targetIndices, a, b);
      } else if a < end {
        TouchesWider(targets, run.targetIndices, end - 1, end - 1, a, b);
      }
      TouchesGrows(targets, run.targetIndices, index, a, b);
    }
    TouchesGrows(targets, run.targetIndices, index, longer.endAddressExclusive - 1, longer.endAddressExclusive - 1);
  }

  lemma {:induction false} MergedRunsGood(targets: seq<PollTarget>, indices: seq<nat>, gap: int)
    requires IndicesInto(targets, indices) && SortedByStart(targets, indices)
    requires gap >= 0 && NonEmptyTargets(targets)
    ensures GoodRuns(targets, MergedRuns(targets, indices, gap), gap)
  {
    if indices != [] {
      var last := |indices| - 1;
      MergedRunsGood(targets, indices[..last], gap);
      RunsSpanTargets(targets, indices[..last], gap);
      if last > 0 {
        assert targets[indices[..last][last - 1]].startAddress <= targets[indices[last]].startAddress;
      }
      AddKeepsGood(targets, MergedRuns(targets, indices[..last], gap), indices[last], gap);
    }
  }

  lemma AddKeepsGood(targets: seq<PollTarget>, runs: seq<MergedRun>, index: nat, gap: int)
    requires RunsInto(targets, runs) && GoodRuns(targets, runs, gap)
    requires index < |targets| && targets[index].quantity >= 1 && gap >= 0
    requires runs != [] ==> runs[|runs| - 1].startAddress <= targets[index].startAddress
    ensures RunsInto(targets, AddToRuns(targets, runs, index, gap))
    ensures GoodRuns(targets, AddToRuns(targets, runs, index, gap), gap)
  {
    var added := AddToRuns(targets, runs, index, gap);
    assert forall r :: 0 <= r < |added| - 1 ==> added[r] == runs[r];
    if |added| > |runs| {
      NewRunGood(targets, index, gap);
    } else {
      ExtendedRunGood(targets, runs[|runs| - 1], index, gap);
    }
  }

  // ----- chunks of one run -----

  function EndOf(plan: ReadRequestPlan): int {
    plan.startAddress + plan.quantity
  }

  /** Chunks ascend without overlap, and each next one starts a full request later. */
  predicate Chunked(plans: seq<ReadRequestPlan>, lo: int, hi: int, maxCount: int) {
    && (forall p :: 0 <= p < |plans| ==> lo <= plans[p].startAddress < EndOf(plans[p]) <= hi)
    && (forall p :: 0 <= p < |plans| ==> EndOf(plans[p]) == hi || EndOf(plans[p]) == plans[p].startAddress + maxCount)
    && (forall p, q :: 0 <= p < q < |plans| ==>
          EndOf(plans[p]) <= plans[q].startAddress && plans[p].startAddress + maxCount <= plans[q].startAddress)
  }

  lemma {:induction false} RunPlansChunked(targets: seq<PollTarget>, run: MergedRun, key: GroupKey, maxCount: int,
                                           chunkStart: int)
    requires IndicesInto(targets, run.targetIndices)
    requires 1 <= maxCount < 0x1_0000 && 0 <= chunkStart && run.endAddressExclusive <= 0x1_0000
    ensures Chunked(RunPlans(targets, run, key, maxCount, chunkStart), chunkStart, run.endAddressExclusive, maxCount)
    ensures forall a :: chunkStart <= a < run.endAddressExclusive ==>
              Reads(RunPlans(targets, run, key, maxCount, chunkStart), a)
    decreases run.endAddressExclusive - chunkStart
  {
    if chunkStart < run.endAddressExclusive {
      var rest := RunPlans(targets, run, key, maxCount, chunkStart + maxCount);
      var plan := ChunkPlan(targets, run, key, maxCount, chunkStart);
      RunPlansChunked(targets, run, key, maxCount, chunkStart + maxCount);
      ChunkExtent(targets, run, key, maxCount, chunkStart);
      ConsChunked(plan, rest, chunkStart, run.endAddressExclusive, maxCount);
    }
  }

  lemma ChunkExtent(targets: seq<PollTarget>, run: MergedRun, key: GroupKey, maxCount: int, chunkStart: int)
    requires IndicesInto(targets, run.targetIndices)
    requires 1 <= maxCount < 0x1_0000 && 0 <= chunkStart < run.endAddressExclusive <= 0x1_0000
    ensures var plan := ChunkPlan(targets, run, key, maxCount, chunkStart);
            plan.startAddress == chunkStart && EndOf(plan) == Min(chunkStart + maxCount, run.endAddressExclusive)
  {
  }

  /** Some request of the list reads this address. */
  predicate Reads(plans: seq<ReadRequestPlan>, address: int) {
    exists p :: 0 <= p < |plans| && plans[p].startAddress <= address < EndOf(plans[p])
  }

  lemma ConsChunked(plan: ReadRequestPlan, rest: seq<ReadRequestPlan>, lo: int, hi: int, maxCount: int)
    requires maxCount >= 1 && lo < hi
    requires plan.startAddress == lo && EndOf(plan) == Min(lo + maxCount, hi)
    requires Chunked(rest, lo + maxCount, hi, maxCount)
    requires forall a :: lo + maxCount <= a < hi ==> Reads(rest, a)
    ensures Chunked([plan] + rest, lo, hi, maxCount)
    ensures forall a :: lo <= a < hi ==> Reads([plan] + rest, a)
  {
    var plans := [plan] + rest;
    assert forall p :: 0 < p < |plans| ==> plans[p] == rest[p - 1];
    forall a | lo <= a < hi
      ensures Reads(plans, a)
    {
      if a < EndOf(plan) {
        assert plans[0].startAddress <= a < EndOf(plans[0]);
      } else {
        assert Reads(rest, a);
        var p :| 0 <= p < |rest| && rest[p].startAddress <= a < EndOf(rest[p]);
        assert plans[p + 1] == rest[p];
      }
    }
  }

  // ----- all runs of a group -----

  /** Each request lies in one run, and two requests of one run start a full request apart. */
  predicate LiesIn(plan: ReadRequestPlan, run: MergedRun, maxCount: int) {
    && run.startAddress <= plan.startAddress < EndOf(plan) <= run.endAddressExclusive
    && (EndOf(plan) == run.endAddressExclusive || EndOf(plan) == plan.startAddress + maxCount)
  }

  ghost predicate Laid(plans: seq<ReadRequestPlan>, runs: seq<MergedRun>, maxCount: int) {
    && (forall p :: 0 <= p < |plans| ==> exists r :: 0 <= r < |runs| && LiesIn(plans[p], runs[r], maxCount))
    && (forall p, q :: 0 <= p < q < |plans| ==>
          EndOf(plans[p]) <= plans[q].startAddress && BeginApart(plans[p], plans[q], runs, maxCount))
    && (forall r, a :: 0 <= r < |runs| && runs[r].startAddress <= a < runs[r].endAddressExclusive ==> Reads(plans, a))
  }

  /** Either a full request apart, or with the end of a run between the two starts. */
  predicate BeginApart(earlier: ReadRequestPlan, later: ReadRequestPlan, runs: seq<MergedRun>, maxCount: int) {
    || earlier.startAddress + maxCount <= later.startAddress
    || exists r :: 0 <= r < |runs| && earlier.startAddress <= runs[r].endAddressExclusive <= later.startAddress
                   && RunEnd(runs, r)
  }

  predicate RunEnd(runs: seq<MergedRun>, r: int) {
    0 <= r < |runs|
  }

  lemma {:induction false} RunsPlansLaid(targets: seq<PollTarget>, runs: seq<MergedRun>, key: GroupKey, maxCount: int,
                                         gap: int)
    requires RunsInto(targets, runs) && RunsWithin(runs, 0x1_0000) && Apart(runs, gap)
    requires 1 <= maxCount < 0x1_0000 && gap >= 0
    ensures Laid(PlansOfRuns(targets, runs, key, maxCount), runs, maxCount)
  {
    if runs != [] {
      var last := |runs| - 1;
      RunsPlansLaid(targets, runs[..last], key, maxCount, gap);
      RunPlansChunked(targets, runs[last], key, maxCount, runs[last].startAddress);
      LaidSnoc(PlansOfRuns(targets, runs[..last], key, maxCount),
               RunPlans(targets, runs[last], key, maxCount, runs[last].startAddress), runs, maxCount, gap);
    }
  }

  lemma LaidSnoc(before: seq<ReadRequestPlan>, chunks: seq<ReadRequestPlan>, runs: seq<MergedRun>, maxCount: int, gap: int)
    requires runs != [] && Apart(runs, gap) && gap >= 0
    requires Laid(before, runs[..|runs| - 1], maxCount)
    requires var run := runs[|runs| - 1];
             && Chunked(chunks, run.startAddress, run.endAddressExclusive, maxCount)
             && forall a :: run.startAddress <= a < run.endAddressExclusive ==> Reads(chunks, a)
    ensures Laid(before + chunks, runs, maxCount)
  {
    var plans, last := before + chunks, |runs| - 1;
    forall p | 0 <= p < |plans|
      ensures exists r :: 0 <= r < |runs| && LiesIn(plans[p], runs[r], maxCount)
    {
      if p < |before| {
        var r :| 0 <= r < last && LiesIn(before[p], runs[..last][r], maxCount);
        assert LiesIn(plans[p], runs[r], maxCount);
      } else {
        assert plans[p] == chunks[p - |before|];
        assert LiesIn(plans[p], runs[last], maxCount);
      }
    }
    forall p, q | 0 <= p < q < |plans|
      ensures EndOf(plans[p]) <= plans[q].startAddress && BeginApart(plans[p], plans[q], runs, maxCount)
    {
      PairLaid(before, chunks, runs, maxCount, gap, p, q);
    }
    forall r, a | 0 <= r < |runs| && runs[r].startAddress <= a < runs[r].endAddressExclusive
      ensures Reads(plans, a)
    {
      if r < last {
        assert runs[..last][r] == runs[r];
      }
      ReadsAppend(before, chunks, a);
    }
  }

  lemma ReadsAppend(a: seq<ReadRequestPlan>, b: seq<ReadRequestPlan>, address: int)
    ensures Reads(a, address) || Reads(b, address) ==> Reads(a + b, address)
  {
    if Reads(a, address) {
      var p :| 0 <= p < |a| && a[p].startAddress <= address < EndOf(a[p]);
      assert (a + b)[p] == a[p];
    } else if Reads(b, address) {
      var p :| 0 <= p < |b| && b[p].startAddress <= address < EndOf(b[p]);
      assert (a + b)[|a| + p] == b[p];
    }
  }

  lemma PairLaid(before: seq<ReadRequestPlan>, chunks: seq<ReadRequestPlan>, runs: seq<MergedRun>, maxCount: int, gap: int,
                 p: nat, q: nat)
    requires runs != [] && Apart(runs, gap) && gap >= 0
    requires Laid(before, runs[..|runs| - 1], maxCount)
    requires Chunked(chunks, runs[|runs| - 1].startAddress, runs[|runs| - 1].endAddressExclusive, maxCount)
    requires p < q < |before + chunks|
    ensures var plans := before + chunks;
            EndOf(plans[p]) <= plans[q].startAddress && BeginApart(plans[p], plans[q], runs, maxCount)
  {
    var plans, last := before + chunks, |runs| - 1;
    if q < |before| {
      assert BeginApart(before[p], before[q], runs[..last], maxCount);
      if before[p].startAddress + maxCount > before[q].startAddress {
        var r :| 0 <= r < last && before[p].startAddress <= runs[..last][r].endAddressExclusive <= before[q].startAddress
                 && RunEnd(runs[..last], r);
        assert RunEnd(runs, r);
      }
    } else if p < |before| {
      var r :| 0 <= r < last && LiesIn(before[p], runs[..last][r], maxCount);
      assert plans[q] == chunks[q - |before|];
      assert runs[r].endAddressExclusive + gap < runs[last].startAddress;
      assert RunEnd(runs, r);
    } else {
      assert plans[p] == chunks[p - |before|] && plans[q] == chunks[q - |before|];
    }
  }

  // ----- what one group reads, against what it wants -----

  predicate Wanted(targets: seq<PollTarget>, key: GroupKey, address: int) {
    exists i :: 0 <= i < |targets| && Wants(targets[i], key, address)
  }

  predicate Wants(target: PollTarget, key: GroupKey, address: int) {
    target.Key() == key && target.startAddress <= address < target.EndExclusive()
  }

  lemma {:induction false} OccursSomewhere(runs: seq<MergedRun>, index: nat)
    requires Occurrences(runs, index) > 0
    ensures exists r, k :: 0 <= r < |runs| && 0 <= k < |runs[r].targetIndices| && runs[r].targetIndices[k] == index
  {
    var last := |runs| - 1;
    if CountOf(runs[last].targetIndices, index) > 0 {
      CountOfPresent(runs[last].targetIndices, index);
    } else {
      OccursSomewhere(runs[..last], index);
      var r, k :| 0 <= r < last && 0 <= k < |runs[..last][r].targetIndices| && runs[..last][r].targetIndices[k] == index;
      assert runs[r].targetIndices[k] == index;
    }
  }

  /** The runs of a group: good, in the group, and every target of the group inside one. */
  lemma GroupRunsGood(targets: seq<PollTarget>, key: GroupKey, gap: int)
    requires gap >= 0 && NonEmptyTargets(targets) && Placed(targets)
    ensures var runs := GroupRuns(targets, key, gap);
            GoodRuns(targets, runs, gap) && RunsWithin(runs, 0x1_0000) && RunsInGroup(targets, runs, key)
  {
    MergedRunsGood(targets, SortedGroup(targets, key), gap);
    SortedGroupInGroup(targets, key);
    MergedRunsStayInGroup(targets, SortedGroup(targets, key), key, gap);
  }

  lemma TargetInRun(targets: seq<PollTarget>, key: GroupKey, gap: int, index: nat) returns (r: nat)
    requires index < |targets| && targets[index].Key() == key
    ensures r < |GroupRuns(targets, key, gap)|
    ensures var run := GroupRuns(targets, key, gap)[r];
            run.startAddress <= targets[index].startAddress && targets[index].EndExclusive() <= run.endAddressExclusive
  {
    var indices, runs := SortedGroup(targets, key), GroupRuns(targets, key, gap);
    RunsSpanTargets(targets, indices, gap);
    RunsKeepIndices(targets, indices, gap, index);
    CountOfIsMultiplicity(indices, index);
    CountOfIsMultiplicity(GroupIndices(targets, key, |targets|), index);
    GroupIndexOnce(targets, key, |targets|, index);
    OccursSomewhere(runs, index);
    var r0, k :| 0 <= r0 < |runs| && 0 <= k < |runs[r0].targetIndices| && runs[r0].targetIndices[k] == index;
    assert Spans(targets, runs[r0]);
    r := r0;
  }

  /** The address right behind a run is not wanted by anyone in the group. */
  lemma RunEndUnwanted(targets: seq<PollTarget>, key: GroupKey, gap: int, r: nat)
    requires gap >= 0 && NonEmptyTargets(targets) && Placed(targets)
    requires r < |GroupRuns(targets, key, gap)|
    ensures !Wanted(targets, key, GroupRuns(targets, key, gap)[r].endAddressExclusive)
  {
    var runs := GroupRuns(targets, key, gap);
    var end := runs[r].endAddressExclusive;
    GroupRunsGood(targets, key, gap);
    forall i | 0 <= i < |targets|
      ensures !Wants(targets[i], key, end)
    {
      if targets[i].Key() == key {
        var s := TargetInRun(targets, key, gap, i);
        assert s < r ==> runs[s].endAddressExclusive + gap < runs[r].startAddress;
        assert r < s ==> end + gap < runs[s].startAddress;
      }
    }
  }

  lemma GroupPlansLaid(targets: seq<PollTarget>, key: GroupKey, options: CoalescingOptions)
    requires options.Usable() && options.maxGapToBridge >= 0 && NonEmptyTargets(targets) && Placed(targets)
    ensures Laid(GroupPlans(targets, key, options), GroupRuns(targets, key, options.maxGapToBridge),
                 options.MaxCountFor(key.registerType))
  {
    GroupRunsGood(targets, key, options.maxGapToBridge);
    RunsPlansLaid(targets, GroupRuns(targets, key, options.maxGapToBridge), key,
                  options.MaxCountFor(key.registerType), options.maxGapToBridge);
  }

  /** The requests of a group ascend and never read an address twice. */
  lemma PlansAscendDisjoint(targets: seq<PollTarget>, key: GroupKey, options: CoalescingOptions, p: nat, q: nat)
    requires options.Usable() && options.maxGapToBridge >= 0 && NonEmptyTargets(targets) && Placed(targets)
    requires p < q < |GroupPlans(targets, key, options)|
    ensures EndOf(GroupPlans(targets, key, options)[p]) <= GroupPlans(targets, key, options)[q].startAddress
  {
    GroupPlansLaid(targets, key, options);
  }

  /** A wanted address in the range, given a target that touches it. */
  lemma TouchedIsWanted(targets: seq<PollTarget>, run: MergedRun, key: GroupKey, lo: int, hi: int) returns (w: int)
    requires IndicesInto(targets, run.targetIndices) && InGroup(targets, run.targetIndices, key)
    requires NonEmptyTargets(targets) && lo <= hi
    requires Touches(targets, run.targetIndices, lo, hi)
    ensures lo <= w <= hi && Wanted(targets, key, w)
  {
    var k :| 0 <= k < |run.targetIndices| && targets[run.targetIndices[k]].startAddress <= hi
             && lo < targets[run.targetIndices[k]].EndExclusive();
    w := Max(lo, targets[run.targetIndices[k]].startAddress);
    assert Wants(targets[run.targetIndices[k]], key, w);
  }

  /** Bounded waste: inside a merged run, any block of addresses longer than the gap
      contains a wanted one. */
  lemma WasteBounded(targets: seq<PollTarget>, key: GroupKey, options: CoalescingOptions, r: nat, first: int, length: int)
    returns (w: int)
    requires options.Usable() && options.maxGapToBridge >= 0 && NonEmptyTargets(targets) && Placed(targets)
    requires r < |GroupRuns(targets, key, options.maxGapToBridge)|
    requires var run := GroupRuns(targets, key, options.maxGapToBridge)[r];
             run.startAddress <= first && first + length <= run.endAddressExclusive
    requires length > options.maxGapToBridge
    ensures first <= w < first + length && Wanted(targets, key, w)
  {
    var gap := options.maxGapToBridge;
    var run := GroupRuns(targets, key, gap)[r];
    GroupRunsGood(targets, key, gap);
    assert Touches(targets, run.targetIndices, first, first + gap);
    w := TouchedIsWanted(targets, run, key, first, first + gap);
  }

  /** No request is pure filler, as long as a gap is shorter than a request. */
  lemma EveryPlanReadsSomethingWanted(targets: seq<PollTarget>, key: GroupKey, options: CoalescingOptions, p: nat)
    returns (w: int)
    requires options.Usable() && options.maxGapToBridge >= 0 && NonEmptyTargets(targets) && Placed(targets)
    requires options.maxGapToBridge < options.MaxCountFor(key.registerType)
    requires p < |GroupPlans(targets, key, options)|
    ensures var plan := GroupPlans(targets, key, options)[p];
            plan.startAddress <= w < EndOf(plan) && Wanted(targets, key, w)
  {
    var plan := GroupPlans(targets, key, options)[p];
    var runs := GroupRuns(targets, key, options.maxGapToBridge);
    var maxCount := options.MaxCountFor(key.registerType);
    GroupPlansLaid(targets, key, options);
    GroupRunsGood(targets, key, options.maxGapToBridge);
    var r :| 0 <= r < |runs| && LiesIn(plan, runs[r], maxCount);
    if EndOf(plan) == runs[r].endAddressExclusive {
      w := TouchedIsWanted(targets, runs[r], key, EndOf(plan) - 1, EndOf(plan) - 1);
    } else {
      w := WasteBounded(targets, key, options, r, plan.startAddress, maxCount);
    }
  }

  // ----- optimality without bridging -----

  datatype Interval = Interval(lo: int, hi: int)

  predicate Contains(interval: Interval, address: int) {
    interval.lo <= address < interval.hi
  }

  /** Requests of at most maxCount values each that together read exactly the wanted addresses. */
  ghost predicate ExactCover(cover: seq<Interval>, targets: seq<PollTarget>, key: GroupKey, maxCount: int) {
    && (forall j :: 0 <= j < |cover| ==> cover[j].hi - cover[j].lo <= maxCount)
    && (forall a :: Wanted(targets, key, a) <==> exists j :: 0 <= j < |cover| && Contains(cover[j], a))
  }

  /** Distinct numbers below n are at most n many. */
  lemma {:induction false} Pigeonhole(holes: seq<nat>, n: nat)
    requires forall i :: 0 <= i < |holes| ==> holes[i] < n
    requires forall i, j :: 0 <= i < j < |holes| ==> holes[i] != holes[j]
    ensures |holes| <= n
    decreases n
  {
    if holes != [] {
      var last := |holes| - 1;
      var moved := seq(last, i requires 0 <= i < last => if holes[i] == n - 1 then holes[last] else holes[i]);
      Pigeonhole(moved, n - 1);
    }
  }

  /** Two requests of a group never start inside one interval of an exact cover. */
  lemma StartsInDifferentIntervals(targets: seq<PollTarget>, key: GroupKey, options: CoalescingOptions,
                                   cover: seq<Interval>, p: nat, q: nat, j: nat)
    requires options.Usable() && options.maxGapToBridge == 0 && NonEmptyTargets(targets) && Placed(targets)
    requires ExactCover(cover, targets, key, options.MaxCountFor(key.registerType))
    requires p < q < |GroupPlans(targets, key, options)| && j < |cover|
    requires Contains(cover[j], GroupPlans(targets, key, options)[p].startAddress)
    ensures !Contains(cover[j], GroupPlans(targets, key, options)[q].startAddress)
  {
    var plans, runs := GroupPlans(targets, key, options), GroupRuns(targets, key, 0);
    var maxCount := options.MaxCountFor(key.registerType);
    GroupPlansLaid(targets, key, options);
    assert BeginApart(plans[p], plans[q], runs, maxCount);
    if plans[p].startAddress + maxCount > plans[q].startAddress {
      var r :| 0 <= r < |runs| && plans[p].startAddress <= runs[r].endAddressExclusive <= plans[q].startAddress
               && RunEnd(runs, r);
      RunEndUnwanted(targets, key, 0, r);
      assert !Contains(cover[j], runs[r].endAddressExclusive);
    }
  }

  lemma StartIsCovered(targets: seq<PollTarget>, key: GroupKey, options: CoalescingOptions, cover: seq<Interval>, p: nat)
    returns (j: nat)
    requires options.Usable() && options.maxGapToBridge == 0 && NonEmptyTargets(targets) && Placed(targets)
    requires ExactCover(cover, targets, key, options.MaxCountFor(key.registerType))
    requires p < |GroupPlans(targets, key, options)|
    ensures j < |cover| && Contains(cover[j], GroupPlans(targets, key, options)[p].startAddress)
  {
    var plan, runs := GroupPlans(targets, key, options)[p], GroupRuns(targets, key, 0);
    GroupPlansLaid(targets, key, options);
    var r :| 0 <= r < |runs| && LiesIn(plan, runs[r], options.MaxCountFor(key.registerType));
    var w := WasteBounded(targets, key, options, r, plan.startAddress, 1);
    var j0 :| 0 <= j0 < |cover| && Contains(cover[j0], plan.startAddress);
    j := j0;
  }

  /** Without bridging, no set of requests that reads exactly the wanted addresses of a
      group, each within the ceiling, has fewer members than the plan. */
  lemma FewestRequests(targets: seq<PollTarget>, key: GroupKey, options: CoalescingOptions, cover: seq<Interval>)
    requires options.Usable() && options.maxGapToBridge == 0 && NonEmptyTargets(targets) && Placed(targets)
    requires ExactCover(cover, targets, key, options.MaxCountFor(key.registerType))
    ensures |GroupPlans(targets, key, options)| <= |cover|
  {
    var plans := GroupPlans(targets, key, options);
    var holes: seq<nat> := [];
    while |holes| < |plans|
      invariant |holes| <= |plans|
      invariant forall i :: 0 <= i < |holes| ==> holes[i] < |cover| && Contains(cover[holes[i]], plans[i].startAddress)
    {
      var j := StartIsCovered(targets, key, options, cover, |holes|);
      holes := holes + [j];
    }
    forall i, j | 0 <= i < j < |holes|
      ensures holes[i] != holes[j]
    {
      StartsInDifferentIntervals(targets, key, options, cover, i, j, holes[i]);
    }
    Pigeonhole(holes, |cover|);
  }

  function IntervalsOf(plans: seq<ReadRequestPlan>): seq<Interval> {
    seq(|plans|, p requires 0 <= p < |plans| => Interval(plans[p].startAddress, EndOf(plans[p])))
  }

  /** ... and the plan itself is such a set, so the minimum is reached. */
  lemma PlansAreExactCover(targets: seq<PollTarget>, key: GroupKey, options: CoalescingOptions)
    requires options.Usable() && options.maxGapToBridge == 0 && NonEmptyTargets(targets) && Placed(targets)
    ensures ExactCover(IntervalsOf(GroupPlans(targets, key, options)), targets, key,
                       options.MaxCountFor(key.registerType))
  {
    var plans := GroupPlans(targets, key, options);
    var cover := IntervalsOf(plans);
    GroupPlansFit(targets, key, options);
    forall j | 0 <= j < |cover|
      ensures cover[j].hi - cover[j].lo <= options.MaxCountFor(key.registerType)
    {
      GroupPlansKeyed(targets, key, options, j);
      assert PlanFits(targets, options, plans[j]);
    }
    forall a
      ensures Wanted(targets, key, a) <==> exists j :: 0 <= j < |cover| && Contains(cover[j], a)
    {
      ReadIffWanted(targets, key, options, a);
      if Reads(plans, a) {
        var p :| 0 <= p < |plans| && plans[p].startAddress <= a < EndOf(plans[p]);
        assert Contains(cover[p], a);
      }
      if j :| 0 <= j < |cover| && Contains(cover[j], a) {
        assert plans[j].startAddress <= a < EndOf(plans[j]);
      }
    }
  }

  lemma GroupPlansKeyed(targets: seq<PollTarget>, key: GroupKey, options: CoalescingOptions, p: nat)
    requires options.Usable()
    requires p < |GroupPlans(targets, key, options)|
    ensures GroupPlans(targets, key, options)[p].registerType == key.registerType
    ensures GroupPlans(targets, key, options)[p].unitId == key.unitId
  {
    RunsPlansKeyed(targets, GroupRuns(targets, key, options.maxGapToBridge), key,
                   options.MaxCountFor(key.registerType));
  }

  predicate AllKeyed(plans: seq<ReadRequestPlan>, key: GroupKey) {
    forall p :: 0 <= p < |plans| ==> GroupKey(plans[p].unitId, plans[p].registerType) == key
  }

  lemma {:induction false} RunPlansKeyed(targets: seq<PollTarget>, run: MergedRun, key: GroupKey, maxCount: int,
                                         chunkStart: int)
    requires IndicesInto(targets, run.targetIndices) && maxCount >= 1
    ensures AllKeyed(RunPlans(targets, run, key, maxCount, chunkStart), key)
    decreases run.endAddressExclusive - chunkStart
  {
    if chunkStart < run.endAddressExclusive {
      RunPlansKeyed(targets, run, key, maxCount, chunkStart + maxCount);
    }
  }

  lemma {:induction false} RunsPlansKeyed(targets: seq<PollTarget>, runs: seq<MergedRun>, key: GroupKey, maxCount: int)
    requires RunsInto(targets, runs) && maxCount >= 1
    ensures AllKeyed(PlansOfRuns(targets, runs, key, maxCount), key)
  {
    if runs != [] {
      RunsPlansKeyed(targets, runs[..|runs| - 1], key, maxCount);
      RunPlansKeyed(targets, runs[|runs| - 1], key, maxCount, runs[|runs| - 1].startAddress);
    }
  }

  /** Without bridging, a group reads exactly its wanted addresses. */
  lemma ReadIffWanted(targets: seq<PollTarget>, key: GroupKey, options: CoalescingOptions, address: int)
    requires options.Usable() && options.maxGapToBridge == 0 && NonEmptyTargets(targets) && Placed(targets)
    ensures Reads(GroupPlans(targets, key, options), address) <==> Wanted(targets, key, address)
  {
    var plans, runs := GroupPlans(targets, key, options), GroupRuns(targets, key, 0);
    GroupPlansLaid(targets, key, options);
    if Reads(plans, address) {
      var p :| 0 <= p < |plans| && plans[p].startAddress <= address < EndOf(plans[p]);
      var r :| 0 <= r < |runs| && LiesIn(plans[p], runs[r], options.MaxCountFor(key.registerType));
      var w := WasteBounded(targets, key, options, r, address, 1);
    }
    if Wanted(targets, key, address) {
      var i :| 0 <= i < |targets| && Wants(targets[i], key, address);
      var r := TargetInRun(targets, key, 0, i);
    }
  }
}
