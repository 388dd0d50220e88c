/** What bridging gaps costs in requests: for every gap above zero and every ceiling up to
    half the address space there is a pair of targets that the planner reads in three
    requests, and otherwise no targets cost a request. */
module PlannerBridging {
  import opened Numbers
  import opened RegisterTypes
  import opened ReadCoalescer
  import opened PlannerCoverage
  import opened PlannerOptimality

  /** Two full requests' worth of values with one unwanted value between them. */
  function PairWithHole(c: int, key: GroupKey): (targets: seq<PollTarget>)
    requires 1 <= c <= 32767
    ensures |targets| == 2
  {
    [PollTarget(key.unitId, key.registerType, 0, c), PollTarget(key.unitId, key.registerType, c + 1, c)]
  }

  /** Two targets of one group, already in order. */
  lemma TwoSorted(targets: seq<PollTarget>, key: GroupKey)
    requires |targets| == 2 && targets[0].Key() == key && targets[1].Key() == key
    requires targets[0].startAddress <= targets[1].startAddress
    ensures SortedGroup(targets, key) == [0, 1]
  {
    var first: seq<nat>, both: seq<nat> := [0], [0, 1];
    GroupIndicesSnoc(targets, key, 0);
    GroupIndicesSnoc(targets, key, 1);
    assert both[..1] == first && first[..0] == [];
    assert StableSortedByStart(targets, []) == [];
    assert StableSortedByStart(targets, first) == first;
  }

  lemma GroupIndicesSnoc(targets: seq<PollTarget>, key: GroupKey, i: nat)
    requires i < |targets| && targets[i].Key() == key
    ensures GroupIndices(targets, key, i + 1) == GroupIndices(targets, key, i) + [i]
    ensures GroupIndices(targets, key, 0) == []
  {
  }

  lemma PlansOfOneRun(targets: seq<PollTarget>, run: MergedRun, key: GroupKey, maxCount: int)
    requires RunsInto(targets, [run]) && maxCount >= 1
    ensures IndicesInto(targets, run.targetIndices)
    ensures PlansOfRuns(targets, [run], key, maxCount) == RunPlans(targets, run, key, maxCount, run.startAddress)
  {
    hide RunPlans;
    assert RunsInto(targets, [run]) && [run][0] == run;
    assert [run][..0] == [];
  }

  /** Bridged, the pair is one run, which ends one value behind two full requests. */
  lemma PairIsOneRun(c: int, key: GroupKey, gap: int)
    requires 1 <= c <= 32767 && gap >= 1
    ensures GroupRuns(PairWithHole(c, key), key, gap) == [MergedRun(0, 2 * c + 1, [0, 1])]
  {
    hide SortedGroup, MergedRuns;
    var targets := PairWithHole(c, key);
    TwoSorted(targets, key);
    TwoMerged(targets, gap);
  }

  /** Two targets within the gap of one another are one run. */
  lemma TwoMerged(targets: seq<PollTarget>, gap: int)
    requires |targets| == 2 && targets[1].startAddress - targets[0].EndExclusive() <= gap
    ensures MergedRuns(targets, [0, 1], gap)
         == [MergedRun(targets[0].startAddress, Max(targets[0].EndExclusive(), targets[1].EndExclusive()), [0, 1])]
  {
    hide Max;
    var first: seq<nat>, both: seq<nat> := [0], [0, 1];
    assert both[..1] == first && first[..0] == [] && MergedRuns(targets, [], gap) == [];
    assert MergedRuns(targets, first, gap) == [MergedRun(targets[0].startAddress, targets[0].EndExclusive(), first)];
    assert first + [1] == both;
  }

  lemma ThreeChunks(targets: seq<PollTarget>, run: MergedRun, key: GroupKey, c: int)
    requires IndicesInto(targets, run.targetIndices) && c >= 1
    requires run.startAddress == 0 && run.endAddressExclusive == 2 * c + 1
    ensures |RunPlans(targets, run, key, c, 0)| == 3
  {
    hide ChunkPlan;
    assert RunPlans(targets, run, key, c, 3 * c) == [];
    assert |RunPlans(targets, run, key, c, 2 * c)| == 1;
    assert |RunPlans(targets, run, key, c, c)| == 2;
  }

  lemma OneGroup(targets: seq<PollTarget>, key: GroupKey, options: CoalescingOptions)
    requires options.Usable() && |targets| == 2 && targets[0].Key() == key && targets[1].Key() == key
    ensures Plans(targets, options) == GroupPlans(targets, key, options)
  {
    hide GroupPlans, DistinctKeys, SortedKeys;
    KeysOfPair(targets, key);
    var keys: seq<GroupKey> := [key];
    OnlyKey(SortedKeys(keys), key);
    assert keys[..0] == [];
    assert PlansOfKeys(targets, keys, options) == PlansOfKeys(targets, keys[..0], options) + GroupPlans(targets, key, options);
  }

  lemma KeysOfPair(targets: seq<PollTarget>, key: GroupKey)
    requires |targets| == 2 && targets[0].Key() == key && targets[1].Key() == key
    ensures DistinctKeys(targets) == [key]
  {
    var first := targets[..1];
    assert first[..0] == [] && DistinctKeys(first[..0]) == [];
    assert DistinctKeys(first) == [key];
  }

  lemma OnlyKey(keys: seq<GroupKey>, key: GroupKey)
    requires KeysIncrease(keys) && forall k :: k in keys <==> k in [key]
    ensures keys == [key]
  {
    assert key in keys;
    forall i | 0 <= i < |keys|
      ensures keys[i] == key
    {
      assert keys[i] in keys;
    }
    assert |keys| >= 2 ==> keys[0] == keys[1];
    assert !key.LessThan(key);
  }

  /** The pair is read in three requests, although two read exactly what is wanted. */
  lemma BridgingCostsARequest(c: int, key: GroupKey, options: CoalescingOptions)
    requires options.Usable() && options.maxGapToBridge >= 1
    requires options.MaxCountFor(key.registerType) == c <= 32767
    ensures |Plans(PairWithHole(c, key), options)| == 3
    ensures ExactCover([Interval(0, c), Interval(c + 1, 2 * c + 1)], PairWithHole(c, key), key, c)
  {
    hide RunPlans, GroupRuns, PlansOfRuns, Plans;
    var targets, run := PairWithHole(c, key), MergedRun(0, 2 * c + 1, [0, 1]);
    OneGroup(targets, key, options);
    PairIsOneRun(c, key, options.maxGapToBridge);
    PlansOfOneRun(targets, run, key, c);
    ThreeChunks(targets, run, key, c);
    PairCovered(c, key);
  }

  lemma PairCovered(c: int, key: GroupKey)
    requires 1 <= c <= 32767
    ensures ExactCover([Interval(0, c), Interval(c + 1, 2 * c + 1)], PairWithHole(c, key), key, c)
  {
    var targets, cover := PairWithHole(c, key), [Interval(0, c), Interval(c + 1, 2 * c + 1)];
    forall a
      ensures Wanted(targets, key, a) <==> exists j :: 0 <= j < |cover| && Contains(cover[j], a)
    {
      assert Contains(cover[0], a) <==> Wants(targets[0], key, a);
      assert Contains(cover[1], a) <==> Wants(targets[1], key, a);
    }
  }

  // ----- when coalescing never costs -----

  /** Targets that could each be read by one request of their own. */
  predicate OneRequestEach(targets: seq<PollTarget>, options: CoalescingOptions) {
    && Placed(targets)
    && forall i :: 0 <= i < |targets| ==> targets[i].quantity <= options.MaxCountFor(targets[i].registerType)
  }

  /** Nothing is bridged, or two requests can read all there is. */
  predicate BridgingIsFree(gap: int, maxCount: int) {
    gap <= 0 || maxCount >= 32768
  }

  /** A run that is not longer than one request for each of its targets. */
  predicate Cheap(run: MergedRun, maxCount: int) {
    run.targetIndices != [] && run.endAddressExclusive - run.startAddress <= |run.targetIndices| * maxCount
  }

  predicate AllCheap(runs: seq<MergedRun>, maxCount: int) {
    forall r :: 0 <= r < |runs| ==> Cheap(runs[r], maxCount)
  }

  lemma ExtendedRunCheap(run: MergedRun, target: PollTarget, index: nat, gap: int, maxCount: int)
    requires Cheap(run, maxCount) && BridgingIsFree(gap, maxCount) && maxCount >= 1
    requires target.startAddress - run.endAddressExclusive <= gap && target.quantity <= maxCount
    requires 0 <= run.startAddress && run.endAddressExclusive <= 0x1_0000 && target.EndExclusive() <= 0x1_0000
    ensures Cheap(MergedRun(run.startAddress, Max(run.endAddressExclusive, target.EndExclusive()),
                            run.targetIndices + [index]), maxCount)
  {
    var n := |run.targetIndices|;
    assert (n + 1) * maxCount == n * maxCount + maxCount;
    assert n * maxCount >= maxCount;
  }

  lemma {:induction false} MergedRunsCheap(targets: seq<PollTarget>, indices: seq<nat>, key: GroupKey, gap: int,
                                           maxCount: int)
    requires IndicesInto(targets, indices) && InGroup(targets, indices, key) && Placed(targets)
    requires BridgingIsFree(gap, maxCount) && maxCount >= 1
    requires forall k :: 0 <= k < |indices| ==> targets[indices[k]].quantity <= maxCount
    ensures AllCheap(MergedRuns(targets, indices, gap), maxCount)
  {
    hide Placed, Cheap;
    if indices != [] {
      var rest, index := indices[..|indices| - 1], indices[|indices| - 1];
      var runs, target := MergedRuns(targets, rest, gap), targets[indices[|indices| - 1]];
      MergedRunsCheap(targets, rest, key, gap, maxCount);
      MergedRunsStayInGroup(targets, rest, key, gap);
      TargetPlaced(targets, index);
      if runs == [] || target.startAddress - runs[|runs| - 1].endAddressExclusive > gap {
        SingleRunCheap(target, index, maxCount);
      } else {
        ExtendedRunCheap(runs[|runs| - 1], target, index, gap, maxCount);
      }
    }
  }

  lemma TargetPlaced(targets: seq<PollTarget>, index: nat)
    requires Placed(targets) && index < |targets|
    ensures targets[index].EndExclusive() <= 0x1_0000
  {
  }

  lemma SingleRunCheap(target: PollTarget, index: nat, maxCount: int)
    requires target.quantity <= maxCount
    ensures Cheap(MergedRun(target.startAddress, target.EndExclusive(), [index]), maxCount)
  {
  }

  lemma {:induction false} RunPlansCount(targets: seq<PollTarget>, run: MergedRun, key: GroupKey, maxCount: int,
                                         chunkStart: int, n: nat)
    requires IndicesInto(targets, run.targetIndices) && maxCount >= 1
    requires run.endAddressExclusive - chunkStart <= n * maxCount
    ensures |RunPlans(targets, run, key, maxCount, chunkStart)| <= n
    decreases n
  {
    hide ChunkPlan;
    if chunkStart < run.endAddressExclusive {
      assert n > 0;
      assert (n - 1) * maxCount == n * maxCount - maxCount;
      RunPlansCount(targets, run, key, maxCount, chunkStart + maxCount, n - 1);
    }
  }

  function RunSizes(runs: seq<MergedRun>): nat {
    if runs == [] then 0 else RunSizes(runs[..|runs| - 1]) + |runs[|runs| - 1].targetIndices|
  }

  lemma {:induction false} PlansOfRunsCount(targets: seq<PollTarget>, runs: seq<MergedRun>, key: GroupKey, maxCount: int)
    requires RunsInto(targets, runs) && maxCount >= 1 && AllCheap(runs, maxCount)
    ensures |PlansOfRuns(targets, runs, key, maxCount)| <= RunSizes(runs)
  {
    hide RunPlans;
    if runs != [] {
      var last := runs[|runs| - 1];
      PlansOfRunsCount(targets, runs[..|runs| - 1], key, maxCount);
      RunPlansCount(targets, last, key, maxCount, last.startAddress, |last.targetIndices|);
    }
  }

  /** Merging puts every target into one run. */
  lemma {:induction false} MergedRunSizes(targets: seq<PollTarget>, indices: seq<nat>, gap: int)
    requires IndicesInto(targets, indices)
    ensures RunSizes(MergedRuns(targets, indices, gap)) == |indices|
  {
    if indices != [] {
      var runs := MergedRuns(targets, indices[..|indices| - 1], gap);
      MergedRunSizes(targets, indices[..|indices| - 1], gap);
      AddedRunSizes(targets, runs, indices[|indices| - 1], gap);
    }
  }

  lemma AddedRunSizes(targets: seq<PollTarget>, runs: seq<MergedRun>, index: nat, gap: int)
    requires index < |targets|
    ensures RunSizes(AddToRuns(targets, runs, index, gap)) == RunSizes(runs) + 1
  {
    var after := AddToRuns(targets, runs, index, gap);
    assert after[..|after| - 1] == if |after| > |runs| then runs else runs[..|runs| - 1];
  }

  /** Unless bridging can cost, a group of targets that fit one request each never needs more
      requests than it has targets. */
  lemma NeverMoreThanNaive(targets: seq<PollTarget>, key: GroupKey, options: CoalescingOptions)
    requires options.Usable() && OneRequestEach(targets, options)
    requires BridgingIsFree(options.maxGapToBridge, options.MaxCountFor(key.registerType))
    ensures |GroupPlans(targets, key, options)| <= |GroupIndices(targets, key, |targets|)|
  {
    hide Placed, MergedRuns, PlansOfRuns, BridgingIsFree;
    var gap, maxCount := options.maxGapToBridge, options.MaxCountFor(key.registerType);
    var indices := SortedGroup(targets, key);
    SortedGroupInGroup(targets, key);
    GroupFits(targets, indices, key, options);
    MergedRunsCheap(targets, indices, key, gap, maxCount);
    MergedRunSizes(targets, indices, gap);
    PlansOfRunsCount(targets, MergedRuns(targets, indices, gap), key, maxCount);
    assert |multiset(indices)| == |multiset(GroupIndices(targets, key, |targets|))|;
  }

  lemma GroupFits(targets: seq<PollTarget>, indices: seq<nat>, key: GroupKey, options: CoalescingOptions)
    requires OneRequestEach(targets, options) && IndicesInto(targets, indices) && InGroup(targets, indices, key)
    ensures forall k :: 0 <= k < |indices| ==> targets[indices[k]].quantity <= options.MaxCountFor(key.registerType)
  {
    forall k | 0 <= k < |indices|
      ensures targets[indices[k]].quantity <= options.MaxCountFor(key.registerType)
    {
      assert targets[indices[k]].Key() == key;
    }
  }

  function GroupSizes(targets: seq<PollTarget>, keys: seq<GroupKey>, bound: nat): nat
    requires bound <= |targets|
  {
    if keys == [] then 0
    else GroupSizes(targets, keys[..|keys| - 1], bound) + |GroupIndices(targets, keys[|keys| - 1], bound)|
  }

  /** One more target enlarges the group of at most one of the distinct keys. */
  lemma {:induction false} GroupSizesGrow(targets: seq<PollTarget>, keys: seq<GroupKey>, bound: nat)
    requires 0 < bound <= |targets| && KeysIncrease(keys)
    ensures GroupSizes(targets, keys, bound)
         == GroupSizes(targets, keys, bound - 1) + if targets[bound - 1].Key() in keys then 1 else 0
  {
    if keys != [] {
      GroupSizesGrow(targets, keys[..|keys| - 1], bound);
      LastKeyIsNew(keys);
      assert keys == keys[..|keys| - 1] + [keys[|keys| - 1]];
    }
  }

  lemma {:induction false} GroupSizesBounded(targets: seq<PollTarget>, keys: seq<GroupKey>, bound: nat)
    requires bound <= |targets| && KeysIncrease(keys)
    ensures GroupSizes(targets, keys, bound) <= bound
    decreases bound, |keys|
  {
    if bound > 0 {
      GroupSizesBounded(targets, keys, bound - 1);
      GroupSizesGrow(targets, keys, bound);
    } else if keys != [] {
      GroupSizesBounded(targets, keys[..|keys| - 1], bound);
    }
  }

  predicate BridgingIsFreeFor(options: CoalescingOptions) {
    BridgingIsFree(options.maxGapToBridge, options.maxBitsPerRequest) && BridgingIsFree(options.maxGapToBridge, options.maxRegistersPerRequest)
  }

  lemma {:induction false} KeysNeverCost(targets: seq<PollTarget>, keys: seq<GroupKey>, options: CoalescingOptions)
    requires options.Usable() && OneRequestEach(targets, options) && BridgingIsFreeFor(options)
    ensures |PlansOfKeys(targets, keys, options)| <= GroupSizes(targets, keys, |targets|)
  {
    hide GroupPlans, OneRequestEach, BridgingIsFree;
    if keys != [] {
      KeysNeverCost(targets, keys[..|keys| - 1], options);
      NeverMoreThanNaive(targets, keys[|keys| - 1], options);
    }
  }

  /** Whatever the targets, coalescing never needs more requests than polling each by itself. */
  ghost predicate NeverCosts(options: CoalescingOptions)
    requires options.Usable()
  {
    forall targets: seq<PollTarget> :: OneRequestEach(targets, options) ==> |Plans(targets, options)| <= |targets|
  }

  /** Nor does the whole plan list. */
  lemma CoalescingNeverCosts(targets: seq<PollTarget>, options: CoalescingOptions)
    requires options.Usable() && OneRequestEach(targets, options) && BridgingIsFreeFor(options)
    ensures |Plans(targets, options)| <= |targets|
  {
    hide PlansOfKeys, OneRequestEach;
    var keys := SortedKeys(DistinctKeys(targets));
    KeysNeverCost(targets, keys, options);
    GroupSizesBounded(targets, keys, |targets|);
  }

  lemma PairFits(c: int, key: GroupKey, options: CoalescingOptions)
    requires 1 <= c <= 32767 && options.MaxCountFor(key.registerType) == c
    ensures OneRequestEach(PairWithHole(c, key), options)
  {
  }

  /** That is so, for all options that let the planner end, if and only if no gap is bridged
      or each kind of request can read half of all addresses. */
  lemma NeverCostsIff(options: CoalescingOptions)
    requires options.Usable()
    ensures NeverCosts(options)
       <==> options.maxGapToBridge <= 0 || (options.maxBitsPerRequest >= 32768 && options.maxRegistersPerRequest >= 32768)
  {
    hide Plans, OneRequestEach;
    if BridgingIsFreeFor(options) {
      forall targets: seq<PollTarget> | OneRequestEach(targets, options)
        ensures |Plans(targets, options)| <= |targets|
      {
        CoalescingNeverCosts(targets, options);
      }
    } else {
      var key := GroupKey(1, if options.maxBitsPerRequest < 32768 then Coil else HoldingRegister);
      var c := options.MaxCountFor(key.registerType);
      BridgingCostsARequest(c, key, options);
      PairFits(c, key, options);
    }
  }

  // ----- a target by itself -----

  lemma SingleGroup(target: PollTarget, gap: int)
    ensures DistinctKeys([target]) == [target.Key()]
    ensures GroupRuns([target], target.Key(), gap) == [MergedRun(target.startAddress, target.EndExclusive(), [0])]
  {
    hide SortedGroup, DistinctKeys;
    SingleSorted(target);
    SingleMerged(target, gap);
  }

  lemma SingleSorted(target: PollTarget)
    ensures DistinctKeys([target]) == [target.Key()] && SortedGroup([target], target.Key()) == [0]
  {
    var targets, index: seq<nat> := [target], [0];
    assert targets[..0] == [] && DistinctKeys(targets[..0]) == [];
    GroupIndicesSnoc(targets, target.Key(), 0);
    assert index[..0] == [] && StableSortedByStart(targets, []) == [];
  }

  lemma SingleMerged(target: PollTarget, gap: int)
    ensures MergedRuns([target], [0], gap) == [MergedRun(target.startAddress, target.EndExclusive(), [0])]
  {
    var targets, index: seq<nat> := [target], [0];
    assert index[..0] == [] && MergedRuns(targets, [], gap) == [];
  }

  lemma SingleChunk(target: PollTarget, maxCount: int)
    requires 1 <= target.quantity <= maxCount
    ensures RunPlans([target], MergedRun(target.startAddress, target.EndExclusive(), [0]), target.Key(), maxCount, target.startAddress)
         == [ReadRequestPlan(target.unitId, target.registerType, target.startAddress, target.quantity,
                             [CoveredTarget(0, 0, 0, target.quantity)])]
  {
    var targets, index: seq<nat> := [target], [0];
    var run := MergedRun(target.startAddress, target.EndExclusive(), index);
    assert index[..0] == [] && Slices(targets, [], target.startAddress, target.EndExclusive()) == [];
    assert Slices(targets, index, target.startAddress, target.EndExclusive()) == [CoveredTarget(0, 0, 0, target.quantity)];
    assert RunPlans(targets, run, target.Key(), maxCount, target.startAddress + maxCount) == [];
  }

  /** A target that fits one request is read by exactly its own request. */
  lemma SingleTargetPlan(target: PollTarget, options: CoalescingOptions)
    requires options.Usable() && 1 <= target.quantity <= options.MaxCountFor(target.registerType)
    ensures Plans([target], options)
         == [ReadRequestPlan(target.unitId, target.registerType, target.startAddress, target.quantity,
                             [CoveredTarget(0, 0, 0, target.quantity)])]
  {
    hide RunPlans, GroupRuns, PlansOfRuns, DistinctKeys, SortedKeys;
    var targets, key := [target], target.Key();
    var run := MergedRun(target.startAddress, target.EndExclusive(), [0]);
    SingleGroup(target, options.maxGapToBridge);
    var keys: seq<GroupKey> := [key];
    OnlyKey(SortedKeys(keys), key);
    assert keys[..0] == [];
    assert PlansOfKeys(targets, keys, options) == PlansOfKeys(targets, keys[..0], options) + GroupPlans(targets, key, options);
    PlansOfOneRun(targets, run, key, options.MaxCountFor(key.registerType));
    SingleChunk(target, options.MaxCountFor(key.registerType));
  }

  /** A target within the ceiling of its own kind, bits or registers, is one request. */
  lemma WithinItsCeilingIsOneRequest(target: PollTarget, options: CoalescingOptions)
    requires options.Usable() && target.quantity >= 1
    requires match target.registerType
             case Coil => target.quantity <= options.maxBitsPerRequest
             case DiscreteInput => target.quantity <= options.maxBitsPerRequest
             case HoldingRegister => target.quantity <= options.maxRegistersPerRequest
             case InputRegister => target.quantity <= options.maxRegistersPerRequest
    ensures |Plans([target], options)| == 1
    ensures var plan := Plans([target], options)[0];
            && plan.unitId == target.unitId && plan.registerType == target.registerType
            && plan.startAddress == target.startAddress && plan.quantity == target.quantity
  {
    hide Plans;
    SingleTargetPlan(target, options);
  }
}
