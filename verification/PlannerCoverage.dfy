/** What every plan list promises: each value of each target is carried by exactly one
    slice, and every slice names the same device address on both of its sides. */
module PlannerCoverage {
  import opened Numbers
  import opened RegisterTypes
  import opened ReadCoalescer

  /** Targets whose whole range lies in the 16-bit address space. */
  predicate Placed(targets: seq<PollTarget>) {
    forall i :: 0 <= i < |targets| ==> targets[i].EndExclusive() <= 0x1_0000
  }

  predicate CarriesOffset(c: CoveredTarget, index: nat, offset: int) {
    c.targetIndex == index && c.offsetInTarget <= offset < c.offsetInTarget + c.count
  }

  /** How many of these slices carry value `offset` of target `index`. */
  function CarriersInPlan(covered: seq<CoveredTarget>, index: nat, offset: int): nat {
    if covered == [] then 0
    else
      var last := |covered| - 1;
      CarriersInPlan(covered[..last], index, offset) + if CarriesOffset(covered[last], index, offset) then 1 else 0
  }

  /** How many slices over all plans carry value `offset` of target `index`. */
  function Carriers(plans: seq<ReadRequestPlan>, index: nat, offset: int): nat {
    if plans == [] then 0
    else CarriersInPlan(plans[0].covered, index, offset) + Carriers(plans[1..], index, offset)
  }

  /** How often an index occurs in a list. */
  function CountOf(indices: seq<nat>, index: nat): nat {
    if indices == [] then 0
    else
      var last := |indices| - 1;
      CountOf(indices[..last], index) + if indices[last] == index then 1 else 0
  }

  lemma {:induction false} CountOfPresent(indices: seq<nat>, index: nat)
    ensures CountOf(indices, index) > 0 ==> exists k :: 0 <= k < |indices| && indices[k] == index
  {
    if indices != [] {
      var last := |indices| - 1;
      CountOfPresent(indices[..last], index);
      if indices[last] != index && CountOf(indices, index) > 0 {
        var k :| 0 <= k < last && indices[..last][k] == index;
        assert indices[k] == index;
      } else {
        assert indices[last] == indices[last];
      }
    }
  }

  lemma {:induction false} CountOfIsMultiplicity(indices: seq<nat>, index: nat)
    ensures CountOf(indices, index) == multiset(indices)[index]
  {
    if indices != [] {
      var last := |indices| - 1;
      CountOfIsMultiplicity(indices[..last], index);
      assert indices == indices[..last] + [indices[last]];
    }
  }

  // ----- counting is additive -----

  lemma CarriersInPlanAppend(a: seq<CoveredTarget>, b: seq<CoveredTarget>, index: nat, offset: int)
    ensures CarriersInPlan(a + b, index, offset) == CarriersInPlan(a, index, offset) + CarriersInPlan(b, index, offset)
  {
    if b == [] {
      assert a + b == a;
    } else {
      var last := |b| - 1;
      CarriersInPlanAppend(a, b[..last], index, offset);
      assert (a + b)[..|a + b| - 1] == a + b[..last];
    }
  }

  lemma {:induction false} CarriersAppend(a: seq<ReadRequestPlan>, b: seq<ReadRequestPlan>, index: nat, offset: int)
    ensures Carriers(a + b, index, offset) == Carriers(a, index, offset) + Carriers(b, index, offset)
  {
    if a == [] {
      assert a + b == b;
    } else {
      CarriersAppend(a[1..], b, index, offset);
      assert (a + b)[1..] == a[1..] + b;
    }
  }

  /** What is carried at all is carried by some plan. */
  lemma {:induction false} SomePlanCarries(plans: seq<ReadRequestPlan>, index: nat, offset: int) returns (p: nat)
    requires Carriers(plans, index, offset) > 0
    ensures p < |plans| && CarriersInPlan(plans[p].covered, index, offset) > 0
  {
    if CarriersInPlan(plans[0].covered, index, offset) > 0 {
      p := 0;
    } else {
      var q := SomePlanCarries(plans[1..], index, offset);
      p := q + 1;
    }
  }

  // ----- from one slice up to one run -----

  /** Each occurrence of the target in the index list contributes one carrier, provided
      the chunk contains the address. */
  lemma {:induction false} SlicesCarriers(targets: seq<PollTarget>, indices: seq<nat>, chunkStart: int, chunkEnd: int,
                                          index: nat, offset: nat)
    requires IndicesInto(targets, indices) && index < |targets| && offset < targets[index].quantity
    ensures CarriersInPlan(Slices(targets, indices, chunkStart, chunkEnd), index, offset)
         == if chunkStart <= targets[index].startAddress + offset < chunkEnd then CountOf(indices, index) else 0
  {
    if indices != [] {
      var last := |indices| - 1;
      SlicesCarriers(targets, indices[..last], chunkStart, chunkEnd, index, offset);
      CarriersInPlanAppend(Slices(targets, indices[..last], chunkStart, chunkEnd),
                           Slice(targets, indices[last], chunkStart, chunkEnd), index, offset);
      SliceCarriers(targets, indices[last], chunkStart, chunkEnd, index, offset);
    }
  }

  lemma SliceCarriers(targets: seq<PollTarget>, other: nat, chunkStart: int, chunkEnd: int, index: nat, offset: nat)
    requires other < |targets| && index < |targets| && offset < targets[index].quantity
    ensures CarriersInPlan(Slice(targets, other, chunkStart, chunkEnd), index, offset)
         == if other == index && chunkStart <= targets[index].startAddress + offset < chunkEnd then 1 else 0
  {
    var s := Slice(targets, other, chunkStart, chunkEnd);
    if s != [] {
      assert s[..0] == [];
      assert CarriersInPlan(s, index, offset) == if CarriesOffset(s[0], index, offset) then 1 else 0;
    }
  }

  lemma {:induction false} RunCarriers(targets: seq<PollTarget>, run: MergedRun, key: GroupKey, maxCount: int,
                                       chunkStart: int, index: nat, offset: nat)
    requires IndicesInto(targets, run.targetIndices) && maxCount >= 1
    requires index < |targets| && offset < targets[index].quantity
    ensures Carriers(RunPlans(targets, run, key, maxCount, chunkStart), index, offset)
         == if chunkStart <= targets[index].startAddress + offset < run.endAddressExclusive
            then CountOf(run.targetIndices, index) else 0
    decreases run.endAddressExclusive - chunkStart
  {
    if chunkStart < run.endAddressExclusive {
      RunCarriers(targets, run, key, maxCount, chunkStart + maxCount, index, offset);
      ChunkCarriers(targets, run, key, maxCount, chunkStart, index, offset);
      assert RunPlans(targets, run, key, maxCount, chunkStart)[1..]
          == RunPlans(targets, run, key, maxCount, chunkStart + maxCount);
    }
  }

  lemma ChunkCarriers(targets: seq<PollTarget>, run: MergedRun, key: GroupKey, maxCount: int, chunkStart: int,
                      index: nat, offset: nat)
    requires IndicesInto(targets, run.targetIndices)
    requires index < |targets| && offset < targets[index].quantity
    ensures CarriersInPlan(ChunkPlan(targets, run, key, maxCount, chunkStart).covered, index, offset)
         == if chunkStart <= targets[index].startAddress + offset < Min(chunkStart + maxCount, run.endAddressExclusive)
            then CountOf(run.targetIndices, index) else 0
  {
    SlicesCarriers(targets, run.targetIndices, chunkStart, Min(chunkStart + maxCount, run.endAddressExclusive),
                   index, offset);
  }

  // ----- what merging keeps -----

  predicate Spans(targets: seq<PollTarget>, run: MergedRun)
    requires IndicesInto(targets, run.targetIndices)
  {
    forall k :: 0 <= k < |run.targetIndices| ==>
      var target := targets[run.targetIndices[k]];
      run.startAddress <= target.startAddress && target.EndExclusive() <= run.endAddressExclusive
  }

  predicate AllSpan(targets: seq<PollTarget>, runs: seq<MergedRun>)
    requires RunsInto(targets, runs)
  {
    forall r :: 0 <= r < |runs| ==> Spans(targets, runs[r])
  }

  /** Every run contains the whole range of each of its targets. */
  lemma {:induction false} RunsSpanTargets(targets: seq<PollTarget>, indices: seq<nat>, gap: int)
    requires IndicesInto(targets, indices) && SortedByStart(targets, indices)
    ensures AllSpan(targets, MergedRuns(targets, indices, gap))
    ensures indices != [] ==>
              var runs := MergedRuns(targets, indices, gap);
              runs != [] && runs[|runs| - 1].startAddress <= targets[indices[|indices| - 1]].startAddress
  {
    if indices != [] {
      var last := |indices| - 1;
      var before := MergedRuns(targets, indices[..last], gap);
      RunsSpanTargets(targets, indices[..last], gap);
      if last > 0 {
        assert targets[indices[..last][last - 1]].startAddress <= targets[indices[last]].startAddress;
        AddKeepsSpans(targets, before, indices[last], gap);
      }
    }
  }

  lemma AddKeepsSpans(targets: seq<PollTarget>, runs: seq<MergedRun>, index: nat, gap: int)
    requires RunsInto(targets, runs) && index < |targets|
    requires AllSpan(targets, runs)
    requires runs != [] && runs[|runs| - 1].startAddress <= targets[index].startAddress
    ensures RunsInto(targets, AddToRuns(targets, runs, index, gap))
    ensures AllSpan(targets, AddToRuns(targets, runs, index, gap))
  {
    var r := AddToRuns(targets, runs, index, gap);
    assert forall k :: 0 <= k < |r| - 1 ==> r[k] == runs[k];
    var was, now := runs[|runs| - 1], r[|r| - 1];
    assert Spans(targets, was);
    if |r| == |runs| {
      forall k | 0 <= k < |now.targetIndices|
        ensures var t := targets[now.targetIndices[k]];
                now.startAddress <= t.startAddress && t.EndExclusive() <= now.endAddressExclusive
      {
        if k < |was.targetIndices| {
          assert now.targetIndices[k] == was.targetIndices[k];
        }
      }
    } else {
      assert r[|r| - 2] == was;
    }
  }

  /** How often an index occurs over all runs. */
  function Occurrences(runs: seq<MergedRun>, index: nat): nat {
    if runs == [] then 0
    else Occurrences(runs[..|runs| - 1], index) + CountOf(runs[|runs| - 1].targetIndices, index)
  }

  /** Merging hands every index to exactly one run, as often as it was listed. */
  lemma {:induction false} RunsKeepIndices(targets: seq<PollTarget>, indices: seq<nat>, gap: int, index: nat)
    requires IndicesInto(targets, indices)
    ensures Occurrences(MergedRuns(targets, indices, gap), index) == CountOf(indices, index)
  {
    if indices != [] {
      var last := |indices| - 1;
      RunsKeepIndices(targets, indices[..last], gap, index);
      AddKeepsIndices(targets, MergedRuns(targets, indices[..last], gap), indices[last], gap, index);
    }
  }

  lemma AddKeepsIndices(targets: seq<PollTarget>, runs: seq<MergedRun>, added: nat, gap: int, index: nat)
    requires added < |targets|
    ensures Occurrences(AddToRuns(targets, runs, added, gap), index)
         == Occurrences(runs, index) + if added == index then 1 else 0
  {
    var r := AddToRuns(targets, runs, added, gap);
    var indices := r[|r| - 1].targetIndices;
    if |r| > |runs| {
      assert r[..|r| - 1] == runs;
      assert indices == [added];
      assert CountOf([added], index) == CountOf([], index) + if added == index then 1 else 0 by {
        assert [added][..0] == [];
      }
    } else {
      assert r[..|r| - 1] == runs[..|runs| - 1];
      assert indices[..|indices| - 1] == runs[|runs| - 1].targetIndices;
    }
  }

  // ----- from runs up to the whole plan list -----

  lemma {:induction false} RunsCarriers(targets: seq<PollTarget>, runs: seq<MergedRun>, key: GroupKey, maxCount: int,
                                        index: nat, offset: nat)
    requires RunsInto(targets, runs) && AllSpan(targets, runs) && maxCount >= 1
    requires index < |targets| && offset < targets[index].quantity
    ensures Carriers(PlansOfRuns(targets, runs, key, maxCount), index, offset) == Occurrences(runs, index)
  {
    if runs != [] {
      var last := |runs| - 1;
      var run := runs[last];
      RunsCarriers(targets, runs[..last], key, maxCount, index, offset);
      CarriersAppend(PlansOfRuns(targets, runs[..last], key, maxCount),
                     RunPlans(targets, run, key, maxCount, run.startAddress), index, offset);
      RunCarriers(targets, run, key, maxCount, run.startAddress, index, offset);
      assert Spans(targets, run);
      CountOfPresent(run.targetIndices, index);
    }
  }

  lemma GroupIndexOnce(targets: seq<PollTarget>, key: GroupKey, bound: nat, index: nat)
    requires bound <= |targets| && index < |targets|
    ensures CountOf(GroupIndices(targets, key, bound), index)
         == if index < bound && targets[index].Key() == key then 1 else 0
  {
    if bound > 0 {
      GroupIndexOnce(targets, key, bound - 1, index);
      var r := GroupIndices(targets, key, bound);
      if targets[bound - 1].Key() == key {
        assert r[..|r| - 1] == GroupIndices(targets, key, bound - 1);
      }
    }
  }

  lemma GroupCarriers(targets: seq<PollTarget>, key: GroupKey, options: CoalescingOptions, index: nat, offset: nat)
    requires options.Usable()
    requires index < |targets| && offset < targets[index].quantity
    ensures Carriers(GroupPlans(targets, key, options), index, offset) == if targets[index].Key() == key then 1 else 0
  {
    var indices := SortedGroup(targets, key);
    var runs := GroupRuns(targets, key, options.maxGapToBridge);
    RunsSpanTargets(targets, indices, options.maxGapToBridge);
    RunsKeepIndices(targets, indices, options.maxGapToBridge, index);
    RunsCarriers(targets, runs, key, options.MaxCountFor(key.registerType), index, offset);
    GroupIndexOnce(targets, key, |targets|, index);
    CountOfIsMultiplicity(indices, index);
    CountOfIsMultiplicity(GroupIndices(targets, key, |targets|), index);
  }

  lemma {:induction false} KeysCarriers(targets: seq<PollTarget>, keys: seq<GroupKey>, options: CoalescingOptions,
                                        index: nat, offset: nat)
    requires options.Usable()
    requires KeysIncrease(keys)
    requires index < |targets| && offset < targets[index].quantity
    ensures Carriers(PlansOfKeys(targets, keys, options), index, offset) == if targets[index].Key() in keys then 1 else 0
  {
    if keys != [] {
      var last := |keys| - 1;
      KeysCarriers(targets, keys[..last], options, index, offset);
      GroupCarriers(targets, keys[last], options, index, offset);
      CarriersAppend(PlansOfKeys(targets, keys[..last], options), GroupPlans(targets, keys[last], options), index, offset);
      LastKeyIsNew(keys);
    }
  }

  lemma LastKeyIsNew(keys: seq<GroupKey>)
    requires KeysIncrease(keys) && keys != []
    ensures keys[|keys| - 1] !in keys[..|keys| - 1]
  {
    forall i | 0 <= i < |keys| - 1
      ensures keys[i] != keys[|keys| - 1]
    {
      assert keys[i].LessThan(keys[|keys| - 1]);
    }
  }

  /** Exact coverage: every value of every target is carried by exactly one slice. */
  lemma ExactCoverage(targets: seq<PollTarget>, options: CoalescingOptions, index: nat, offset: nat)
    requires options.Usable()
    requires index < |targets| && offset < targets[index].quantity
    ensures Carriers(Plans(targets, options), index, offset) == 1
  {
    KeysCarriers(targets, SortedKeys(DistinctKeys(targets)), options, index, offset);
  }

  // ----- every slice is in bounds on both sides -----

  predicate SliceFits(targets: seq<PollTarget>, plan: ReadRequestPlan, c: CoveredTarget) {
    && c.targetIndex < |targets|
    && var target := targets[c.targetIndex];
    && target.Key() == GroupKey(plan.unitId, plan.registerType)
    && 1 <= c.count
    && 0 <= c.offsetInPlan && c.offsetInPlan + c.count <= plan.quantity
    && 0 <= c.offsetInTarget && c.offsetInTarget + c.count <= target.quantity
  }

  /** Both sides of the slice name the same device address. */
  predicate SliceAligned(targets: seq<PollTarget>, plan: ReadRequestPlan, c: CoveredTarget)
    requires c.targetIndex < |targets|
  {
    plan.startAddress + c.offsetInPlan == targets[c.targetIndex].startAddress + c.offsetInTarget
  }

  predicate PlanFits(targets: seq<PollTarget>, options: CoalescingOptions, plan: ReadRequestPlan) {
    && 1 <= plan.quantity <= options.MaxCountFor(plan.registerType)
    && forall k :: 0 <= k < |plan.covered| ==> SliceFits(targets, plan, plan.covered[k])
  }

  predicate PlanAligned(targets: seq<PollTarget>, plan: ReadRequestPlan)
  {
    forall k :: 0 <= k < |plan.covered| ==>
      plan.covered[k].targetIndex < |targets| && SliceAligned(targets, plan, plan.covered[k])
  }

  predicate InGroup(targets: seq<PollTarget>, indices: seq<nat>, key: GroupKey)
    requires IndicesInto(targets, indices)
  {
    forall k :: 0 <= k < |indices| ==> targets[indices[k]].Key() == key
  }

  lemma {:induction false} SlicesFit(targets: seq<PollTarget>, indices: seq<nat>, chunkStart: int, chunkEnd: int,
                                     plan: ReadRequestPlan)
    requires IndicesInto(targets, indices)
    requires InGroup(targets, indices, GroupKey(plan.unitId, plan.registerType))
    requires plan.quantity == chunkEnd - chunkStart
    ensures forall c :: c in Slices(targets, indices, chunkStart, chunkEnd) ==> SliceFits(targets, plan, c)
    ensures plan.startAddress == chunkStart ==>
              forall c :: c in Slices(targets, indices, chunkStart, chunkEnd) ==>
                c.targetIndex < |targets| && SliceAligned(targets, plan, c)
  {
    if indices != [] {
      SlicesFit(targets, indices[..|indices| - 1], chunkStart, chunkEnd, plan);
    }
  }

  lemma ChunkFits(targets: seq<PollTarget>, run: MergedRun, key: GroupKey, options: CoalescingOptions, chunkStart: int)
    requires IndicesInto(targets, run.targetIndices) && InGroup(targets, run.targetIndices, key)
    requires options.Usable() && chunkStart < run.endAddressExclusive
    ensures var plan := ChunkPlan(targets, run, key, options.MaxCountFor(key.registerType), chunkStart);
            && PlanFits(targets, options, plan)
            && (0 <= chunkStart < 0x1_0000 ==> PlanAligned(targets, plan) && plan.startAddress == chunkStart)
  {
    var maxCount := options.MaxCountFor(key.registerType);
    var plan := ChunkPlan(targets, run, key, maxCount, chunkStart);
    SlicesFit(targets, run.targetIndices, chunkStart, Min(chunkStart + maxCount, run.endAddressExclusive), plan);
    forall k | 0 <= k < |plan.covered|
      ensures SliceFits(targets, plan, plan.covered[k])
      ensures 0 <= chunkStart < 0x1_0000 ==> SliceAligned(targets, plan, plan.covered[k])
    {
      assert plan.covered[k] in plan.covered;
    }
  }

  predicate AllFit(targets: seq<PollTarget>, options: CoalescingOptions, plans: seq<ReadRequestPlan>) {
    forall p :: 0 <= p < |plans| ==> PlanFits(targets, options, plans[p])
  }

  predicate AllAligned(targets: seq<PollTarget>, plans: seq<ReadRequestPlan>) {
    forall p :: 0 <= p < |plans| ==> PlanAligned(targets, plans[p])
  }

  lemma {:induction false} RunPlansFit(targets: seq<PollTarget>, run: MergedRun, key: GroupKey,
                                       options: CoalescingOptions, chunkStart: int)
    requires IndicesInto(targets, run.targetIndices) && InGroup(targets, run.targetIndices, key)
    requires options.Usable()
    ensures var plans := RunPlans(targets, run, key, options.MaxCountFor(key.registerType), chunkStart);
            && AllFit(targets, options, plans)
            && (0 <= chunkStart && run.endAddressExclusive <= 0x1_0000 ==> AllAligned(targets, plans))
    decreases run.endAddressExclusive - chunkStart
  {
    if chunkStart < run.endAddressExclusive {
      ChunkFits(targets, run, key, options, chunkStart);
      RunPlansFit(targets, run, key, options, chunkStart + options.MaxCountFor(key.registerType));
    }
  }

  predicate RunsWithin(runs: seq<MergedRun>, limit: int) {
    forall r :: 0 <= r < |runs| ==> 0 <= runs[r].startAddress && runs[r].endAddressExclusive <= limit
  }

  predicate RunsInGroup(targets: seq<PollTarget>, runs: seq<MergedRun>, key: GroupKey)
    requires RunsInto(targets, runs)
  {
    forall r :: 0 <= r < |runs| ==> InGroup(targets, runs[r].targetIndices, key)
  }

  lemma {:induction false} MergedRunsStayInGroup(targets: seq<PollTarget>, indices: seq<nat>, key: GroupKey, gap: int)
    requires IndicesInto(targets, indices) && InGroup(targets, indices, key)
    ensures RunsInGroup(targets, MergedRuns(targets, indices, gap), key)
    ensures Placed(targets) ==> RunsWithin(MergedRuns(targets, indices, gap), 0x1_0000)
  {
    if indices != [] {
      MergedRunsStayInGroup(targets, indices[..|indices| - 1], key, gap);
    }
  }

  lemma {:induction false} GroupIndicesInGroup(targets: seq<PollTarget>, key: GroupKey, bound: nat)
    requires bound <= |targets|
    ensures InGroup(targets, GroupIndices(targets, key, bound), key)
  {
    if bound > 0 {
      GroupIndicesInGroup(targets, key, bound - 1);
    }
  }

  lemma SortedGroupInGroup(targets: seq<PollTarget>, key: GroupKey)
    ensures InGroup(targets, SortedGroup(targets, key), key)
  {
    var indices := SortedGroup(targets, key);
    forall k | 0 <= k < |indices|
      ensures targets[indices[k]].Key() == key
    {
      assert indices[k] in multiset(indices);
      assert indices[k] in GroupIndices(targets, key, |targets|);
      GroupIndicesInGroup(targets, key, |targets|);
    }
  }

  lemma {:induction false} RunsPlansFit(targets: seq<PollTarget>, runs: seq<MergedRun>, key: GroupKey,
                                        options: CoalescingOptions)
    requires RunsInto(targets, runs) && RunsInGroup(targets, runs, key) && options.Usable()
    ensures var plans := PlansOfRuns(targets, runs, key, options.MaxCountFor(key.registerType));
            AllFit(targets, options, plans) && (RunsWithin(runs, 0x1_0000) ==> AllAligned(targets, plans))
  {
    if runs != [] {
      var last := |runs| - 1;
      RunsPlansFit(targets, runs[..last], key, options);
      RunPlansFit(targets, runs[last], key, options, runs[last].startAddress);
    }
  }

  lemma GroupPlansFit(targets: seq<PollTarget>, key: GroupKey, options: CoalescingOptions)
    requires options.Usable()
    ensures AllFit(targets, options, GroupPlans(targets, key, options))
    ensures Placed(targets) ==> AllAligned(targets, GroupPlans(targets, key, options))
  {
    SortedGroupInGroup(targets, key);
    MergedRunsStayInGroup(targets, SortedGroup(targets, key), key, options.maxGapToBridge);
    RunsPlansFit(targets, GroupRuns(targets, key, options.maxGapToBridge), key, options);
  }

  lemma {:induction false} KeysPlansFit(targets: seq<PollTarget>, keys: seq<GroupKey>, options: CoalescingOptions)
    requires options.Usable()
    ensures AllFit(targets, options, PlansOfKeys(targets, keys, options))
    ensures Placed(targets) ==> AllAligned(targets, PlansOfKeys(targets, keys, options))
  {
    if keys != [] {
      KeysPlansFit(targets, keys[..|keys| - 1], options);
      GroupPlansFit(targets, keys[|keys| - 1], options);
    }
  }

  /** Every plan reads between one value and the ceiling, and each of its slices is in
      bounds of plan and target; with placed targets both sides name one address. */
  lemma PlansFit(targets: seq<PollTarget>, options: CoalescingOptions)
    requires options.Usable()
    ensures AllFit(targets, options, Plans(targets, options))
    ensures Placed(targets) ==> AllAligned(targets, Plans(targets, options))
  {
    KeysPlansFit(targets, SortedKeys(DistinctKeys(targets)), options);
  }
}
