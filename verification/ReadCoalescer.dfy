/** The read planner: turns scattered poll targets into contiguous read requests.
    The methods follow the loops of the planner; the functions beside them are the
    values those loops compute, which PlannerCoverage, PlannerOrder and
    PlannerOptimality reason about. */
module ReadCoalescer {
  import opened Numbers
  import opened RegisterTypes

  datatype PollTarget = PollTarget(unitId: u8, registerType: RegisterType, startAddress: u16, quantity: u16) {
    function EndExclusive(): int {
      startAddress + quantity
    }

    function Key(): GroupKey {
      GroupKey(unitId, registerType)
    }
  }

  datatype CoalescingOptions = CoalescingOptions(
    maxGapToBridge: int,
    maxBitsPerRequest: int,
    maxRegistersPerRequest: int) {
    function MaxCountFor(t: RegisterType): int {
      if IsBitType(t) then maxBitsPerRequest else maxRegistersPerRequest
    }

    /** The chunk loop advances by the per-request ceiling, so it ends only for a positive
        ceiling; above 65535 a plan's 16-bit quantity would be truncated. */
    predicate Usable() {
      && 1 <= maxBitsPerRequest < 0x1_0000
      && 1 <= maxRegistersPerRequest < 0x1_0000
    }
  }

  /** A slice of one plan's response, and where it belongs in the target that asked for it. */
  datatype CoveredTarget = CoveredTarget(targetIndex: nat, offsetInPlan: int, offsetInTarget: int, count: int)

  datatype ReadRequestPlan = ReadRequestPlan(
    unitId: u8,
    registerType: RegisterType,
    startAddress: u16,
    quantity: u16,
    covered: seq<CoveredTarget>)

  datatype GroupKey = GroupKey(unitId: u8, registerType: RegisterType) {
    predicate LessThan(other: GroupKey) {
      if unitId != other.unitId then unitId < other.unitId
      else Ordinal(registerType) < Ordinal(other.registerType)
    }
  }

  datatype MergedRun = MergedRun(startAddress: int, endAddressExclusive: int, targetIndices: seq<nat>)

  predicate IndicesInto(targets: seq<PollTarget>, indices: seq<nat>) {
    forall i :: 0 <= i < |indices| ==> indices[i] < |targets|
  }

  predicate RunsInto(targets: seq<PollTarget>, runs: seq<MergedRun>) {
    forall r :: 0 <= r < |runs| ==> IndicesInto(targets, runs[r].targetIndices)
  }

  // ----- the merge phase -----

  function AddToRuns(targets: seq<PollTarget>, runs: seq<MergedRun>, index: nat, gap: int): (r: seq<MergedRun>)
    requires index < |targets|
  {
    var target := targets[index];
    if runs == [] || target.startAddress - runs[|runs| - 1].endAddressExclusive > gap then
      runs + [MergedRun(target.startAddress, target.EndExclusive(), [index])]
    else
      var current := runs[|runs| - 1];
      runs[..|runs| - 1] + [MergedRun(current.startAddress,
                                      Max(current.endAddressExclusive, target.EndExclusive()),
                                      current.targetIndices + [index])]
  }

  function MergedRuns(targets: seq<PollTarget>, indices: seq<nat>, gap: int): (runs: seq<MergedRun>)
    requires IndicesInto(targets, indices)
    ensures RunsInto(targets, runs)
  {
    if indices == [] then []
    else
      var last := |indices| - 1;
      AddToRuns(targets, MergedRuns(targets, indices[..last], gap), indices[last], gap)
  }

  method MergeByGap(targets: seq<PollTarget>, sortedIndices: seq<nat>, maxGapToBridge: int)
    returns (runs: seq<MergedRun>)
    requires IndicesInto(targets, sortedIndices)
    ensures runs == MergedRuns(targets, sortedIndices, maxGapToBridge)
  {
    runs := [];
    for i := 0 to |sortedIndices|
      invariant runs == MergedRuns(targets, sortedIndices[..i], maxGapToBridge)
    {
      assert sortedIndices[..i + 1][..i] == sortedIndices[..i];
      var index := sortedIndices[i];
      var target := targets[index];
      if runs == [] || target.startAddress - runs[|runs| - 1].endAddressExclusive > maxGapToBridge {
        runs := runs + [MergedRun(target.startAddress, target.EndExclusive(), [index])];
      } else {
        var current := runs[|runs| - 1];
        current := current.(endAddressExclusive := Max(current.endAddressExclusive, target.EndExclusive()));
        current := current.(targetIndices := current.targetIndices + [index]);
        runs := runs[|runs| - 1 := current];
      }
    }
    assert sortedIndices[..|sortedIndices|] == sortedIndices;
  }

  // ----- the split phase -----

  /** What one target contributes to the chunk [chunkStart, chunkEnd): one slice, or nothing. */
  function Slice(targets: seq<PollTarget>, index: nat, chunkStart: int, chunkEnd: int): (s: seq<CoveredTarget>)
    requires index < |targets|
    ensures |s| <= 1
  {
    var target := targets[index];
    var overlapStart := Max(target.startAddress, chunkStart);
    var overlapEnd := Min(target.EndExclusive(), chunkEnd);
    if overlapStart >= overlapEnd then []
    else [CoveredTarget(index, overlapStart - chunkStart, overlapStart - target.startAddress,
                        overlapEnd - overlapStart)]
  }

  function Slices(targets: seq<PollTarget>, indices: seq<nat>, chunkStart: int, chunkEnd: int): seq<CoveredTarget>
    requires IndicesInto(targets, indices)
  {
    if indices == [] then []
    else
      var last := |indices| - 1;
      Slices(targets, indices[..last], chunkStart, chunkEnd) + Slice(targets, indices[last], chunkStart, chunkEnd)
  }

  function ChunkPlan(targets: seq<PollTarget>, run: MergedRun, key: GroupKey, maxCount: int, chunkStart: int)
    : ReadRequestPlan
    requires IndicesInto(targets, run.targetIndices)
  {
    var chunkEnd := Min(chunkStart + maxCount, run.endAddressExclusive);
    ReadRequestPlan(key.unitId, key.registerType, Truncate16(chunkStart), Truncate16(chunkEnd - chunkStart),
                    Slices(targets, run.targetIndices, chunkStart, chunkEnd))
  }

  function RunPlans(targets: seq<PollTarget>, run: MergedRun, key: GroupKey, maxCount: int, chunkStart: int)
    : seq<ReadRequestPlan>
    requires IndicesInto(targets, run.targetIndices)
    requires maxCount >= 1
    decreases run.endAddressExclusive - chunkStart
  {
    if chunkStart >= run.endAddressExclusive then []
    else [ChunkPlan(targets, run, key, maxCount, chunkStart)]
         + RunPlans(targets, run, key, maxCount, chunkStart + maxCount)
  }

  /** The inner loop of `AppendPlansForRun`. */
  method SliceTargets(targets: seq<PollTarget>, indices: seq<nat>, chunkStart: int, chunkEnd: int)
    returns (covered: seq<CoveredTarget>)
    requires IndicesInto(targets, indices)
    ensures covered == Slices(targets, indices, chunkStart, chunkEnd)
  {
    covered := [];
    for i := 0 to |indices|
      invariant covered == Slices(targets, indices[..i], chunkStart, chunkEnd)
    {
      assert indices[..i + 1][..i] == indices[..i];
      var index := indices[i];
      var target := targets[index];
      var overlapStart := Max(target.startAddress, chunkStart);
      var overlapEnd := Min(target.EndExclusive(), chunkEnd);
      if overlapStart >= overlapEnd {
        continue;
      }
      covered := covered + [CoveredTarget(index, overlapStart - chunkStart,
                                          overlapStart - target.startAddress, overlapEnd - overlapStart)];
    }
    assert indices[..|indices|] == indices;
  }

  method AppendPlansForRun(targets: seq<PollTarget>, run: MergedRun, key: GroupKey, maxCountPerRequest: int,
                           plansSoFar: seq<ReadRequestPlan>)
    returns (plans: seq<ReadRequestPlan>)
    requires IndicesInto(targets, run.targetIndices)
    requires maxCountPerRequest >= 1
    ensures plans == plansSoFar + RunPlans(targets, run, key, maxCountPerRequest, run.startAddress)
  {
    plans := plansSoFar;
    var chunkStart := run.startAddress;
    while chunkStart < run.endAddressExclusive
      invariant plans + RunPlans(targets, run, key, maxCountPerRequest, chunkStart)
             == plansSoFar + RunPlans(targets, run, key, maxCountPerRequest, run.startAddress)
      decreases run.endAddressExclusive - chunkStart
    {
      var chunkEnd := Min(chunkStart + maxCountPerRequest, run.endAddressExclusive);
      var covered := SliceTargets(targets, run.targetIndices, chunkStart, chunkEnd);
      var plan := ReadRequestPlan(key.unitId, key.registerType, Truncate16(chunkStart),
                                  Truncate16(chunkEnd - chunkStart), covered);
      ghost var rest := RunPlans(targets, run, key, maxCountPerRequest, chunkStart + maxCountPerRequest);
      assert plans + ([plan] + rest) == (plans + [plan]) + rest;
      plans := plans + [plan];
      chunkStart := chunkStart + maxCountPerRequest;
    }
  }

  // ----- grouping and sorting -----

  /** The distinct group keys, in order of first appearance. */
  function DistinctKeys(targets: seq<PollTarget>): (keys: seq<GroupKey>)
    ensures forall i, j :: 0 <= i < j < |keys| ==> keys[i] != keys[j]
    ensures forall k :: k in keys <==> exists i :: 0 <= i < |targets| && targets[i].Key() == k
  {
    if targets == [] then []
    else
      var last := |targets| - 1;
      var keys := DistinctKeys(targets[..last]);
      if targets[last].Key() in keys then keys else keys + [targets[last].Key()]
  }

  predicate KeysIncrease(keys: seq<GroupKey>) {
    forall i, j :: 0 <= i < j < |keys| ==> keys[i].LessThan(keys[j])
  }

  function InsertKey(keys: seq<GroupKey>, key: GroupKey): (r: seq<GroupKey>)
    requires KeysIncrease(keys) && key !in keys
    ensures KeysIncrease(r)
    ensures forall k :: k in r <==> k == key || k in keys
    ensures |r| == |keys| + 1
  {
    if keys == [] then [key]
    else if key.LessThan(keys[0]) then [key] + keys
    else
      assert keys[0] in keys;
      var rest := InsertKey(keys[1..], key);
      assert forall i :: 0 <= i < |rest| ==> rest[i] in rest;
      assert forall k :: k in keys <==> k == keys[0] || k in keys[1..];
      [keys[0]] + rest
  }

  /** `std::sort` of distinct keys. */
  function SortedKeys(keys: seq<GroupKey>): (r: seq<GroupKey>)
    requires forall i, j :: 0 <= i < j < |keys| ==> keys[i] != keys[j]
    ensures KeysIncrease(r)
    ensures forall k :: k in r <==> k in keys
  {
    if keys == [] then []
    else
      var last := |keys| - 1;
      assert forall k :: k in keys <==> k == keys[last] || k in keys[..last];
      InsertKey(SortedKeys(keys[..last]), keys[last])
  }

  predicate SortedByStart(targets: seq<PollTarget>, indices: seq<nat>)
    requires IndicesInto(targets, indices)
  {
    forall i, j :: 0 <= i < j < |indices| ==> targets[indices[i]].startAddress <= targets[indices[j]].startAddress
  }

  /** Inserts behind every index whose target starts no later. */
  function InsertIndex(targets: seq<PollTarget>, sorted: seq<nat>, index: nat): (r: seq<nat>)
    requires IndicesInto(targets, sorted) && index < |targets|
    ensures multiset(r) == multiset(sorted) + multiset{index}
    ensures IndicesInto(targets, r)
  {
    var last := |sorted| - 1;
    if sorted == [] || targets[sorted[last]].startAddress <= targets[index].startAddress then sorted + [index]
    else
      assert sorted == sorted[..last] + [sorted[last]];
      InsertIndex(targets, sorted[..last], index) + [sorted[last]]
  }

  lemma InsertedFrom(r: seq<nat>, sorted: seq<nat>, index: nat, i: nat)
    requires multiset(r) == multiset(sorted) + multiset{index} && i < |r|
    ensures r[i] == index || r[i] in sorted
  {
    assert r[i] in multiset(r);
  }

  lemma InsertIndexSorted(targets: seq<PollTarget>, sorted: seq<nat>, index: nat)
    requires IndicesInto(targets, sorted) && index < |targets|
    requires SortedByStart(targets, sorted)
    ensures SortedByStart(targets, InsertIndex(targets, sorted, index))
  {
    var last := |sorted| - 1;
    if sorted != [] && targets[sorted[last]].startAddress > targets[index].startAddress {
      InsertIndexSorted(targets, sorted[..last], index);
      var r := InsertIndex(targets, sorted[..last], index);
      forall i | 0 <= i < |r|
        ensures targets[r[i]].startAddress <= targets[sorted[last]].startAddress
      {
        InsertedFrom(r, sorted[..last], index, i);
      }
    }
  }

  /** `std::stable_sort` by start address. */
  function StableSortedByStart(targets: seq<PollTarget>, indices: seq<nat>): (r: seq<nat>)
    requires IndicesInto(targets, indices)
    ensures IndicesInto(targets, r) && SortedByStart(targets, r)
    ensures multiset(r) == multiset(indices)
  {
    if indices == [] then []
    else
      var last := |indices| - 1;
      var sorted := StableSortedByStart(targets, indices[..last]);
      assert indices == indices[..last] + [indices[last]];
      assert SortedByStart(targets, InsertIndex(targets, sorted, indices[last])) by {
        InsertIndexSorted(targets, sorted, indices[last]);
      }
      InsertIndex(targets, sorted, indices[last])
  }

  /** Indices below `bound` whose target belongs to the group, ascending. */
  function GroupIndices(targets: seq<PollTarget>, key: GroupKey, bound: nat): (r: seq<nat>)
    requires bound <= |targets|
    ensures IndicesInto(targets, r)
  {
    if bound == 0 then []
    else
      var r := GroupIndices(targets, key, bound - 1);
      if targets[bound - 1].Key() == key then r + [bound - 1] else r
  }

  function SortedGroup(targets: seq<PollTarget>, key: GroupKey): (r: seq<nat>)
    ensures IndicesInto(targets, r) && SortedByStart(targets, r)
    ensures multiset(r) == multiset(GroupIndices(targets, key, |targets|))
  {
    StableSortedByStart(targets, GroupIndices(targets, key, |targets|))
  }

  function PlansOfRuns(targets: seq<PollTarget>, runs: seq<MergedRun>, key: GroupKey, maxCount: int)
    : seq<ReadRequestPlan>
    requires RunsInto(targets, runs)
    requires maxCount >= 1
  {
    if runs == [] then []
    else
      var last := |runs| - 1;
      PlansOfRuns(targets, runs[..last], key, maxCount)
      + RunPlans(targets, runs[last], key, maxCount, runs[last].startAddress)
  }

  function GroupRuns(targets: seq<PollTarget>, key: GroupKey, gap: int): (runs: seq<MergedRun>)
    ensures RunsInto(targets, runs)
  {
    MergedRuns(targets, SortedGroup(targets, key), gap)
  }

  function GroupPlans(targets: seq<PollTarget>, key: GroupKey, options: CoalescingOptions): seq<ReadRequestPlan>
    requires options.Usable()
  {
    PlansOfRuns(targets, GroupRuns(targets, key, options.maxGapToBridge), key, options.MaxCountFor(key.registerType))
  }

  function PlansOfKeys(targets: seq<PollTarget>, keys: seq<GroupKey>, options: CoalescingOptions)
    : seq<ReadRequestPlan>
    requires options.Usable()
  {
    if keys == [] then []
    else
      var last := |keys| - 1;
      PlansOfKeys(targets, keys[..last], options) + GroupPlans(targets, keys[last], options)
  }

  function Plans(targets: seq<PollTarget>, options: CoalescingOptions): seq<ReadRequestPlan>
    requires options.Usable()
  {
    PlansOfKeys(targets, SortedKeys(DistinctKeys(targets)), options)
  }

  lemma OneMoreKey(targets: seq<PollTarget>, keys: seq<GroupKey>, options: CoalescingOptions, k: nat)
    requires options.Usable() && k < |keys|
    ensures PlansOfKeys(targets, keys[..k + 1], options)
         == PlansOfKeys(targets, keys[..k], options) + GroupPlans(targets, keys[k], options)
  {
    hide GroupPlans;
    assert keys[..k + 1][..k] == keys[..k];
  }

  method Coalesce(targets: seq<PollTarget>, options: CoalescingOptions) returns (plans: seq<ReadRequestPlan>)
    requires options.Usable()
    ensures plans == Plans(targets, options)
  {
    var keys := CollectKeys(targets);
    keys := SortedKeys(keys);

    plans := [];
    for k := 0 to |keys|
      invariant plans == PlansOfKeys(targets, keys[..k], options)
    {
      OneMoreKey(targets, keys, options, k);
      plans := AppendGroup(targets, keys[k], options, plans);
    }
    assert keys[..|keys|] == keys;
  }

  method CollectKeys(targets: seq<PollTarget>) returns (keys: seq<GroupKey>)
    ensures keys == DistinctKeys(targets)
  {
    keys := [];
    for t := 0 to |targets|
      invariant keys == DistinctKeys(targets[..t])
    {
      assert targets[..t + 1][..t] == targets[..t];
      var key := targets[t].Key();
      if key !in keys {
        keys := keys + [key];
      }
    }
    assert targets[..|targets|] == targets;
  }

  method CollectGroup(targets: seq<PollTarget>, key: GroupKey) returns (indices: seq<nat>)
    ensures indices == GroupIndices(targets, key, |targets|)
  {
    indices := [];
    for i := 0 to |targets|
      invariant indices == GroupIndices(targets, key, i)
    {
      if targets[i].Key() == key {
        indices := indices + [i];
      }
    }
  }

  /** One pass of the outer loop of `Coalesce`: the requests of a single group. */
  method AppendGroup(targets: seq<PollTarget>, key: GroupKey, options: CoalescingOptions,
                     plansSoFar: seq<ReadRequestPlan>)
    returns (plans: seq<ReadRequestPlan>)
    requires options.Usable()
    ensures plans == plansSoFar + GroupPlans(targets, key, options)
  {
    var indices := CollectGroup(targets, key);
    indices := StableSortedByStart(targets, indices);
    var runs := MergeByGap(targets, indices, options.maxGapToBridge);
    plans := AppendRuns(targets, runs, key, options.MaxCountFor(key.registerType), plansSoFar);
  }

  method AppendRuns(targets: seq<PollTarget>, runs: seq<MergedRun>, key: GroupKey, maxCount: int,
                    plansSoFar: seq<ReadRequestPlan>)
    returns (plans: seq<ReadRequestPlan>)
    requires RunsInto(targets, runs)
    requires maxCount >= 1
    ensures plans == plansSoFar + PlansOfRuns(targets, runs, key, maxCount)
  {
    plans := plansSoFar;
    for r := 0 to |runs|
      invariant plans == plansSoFar + PlansOfRuns(targets, runs[..r], key, maxCount)
    {
      assert runs[..r + 1][..r] == runs[..r];
      plans := AppendPlansForRun(targets, runs[r], key, maxCount, plans);
    }
    assert runs[..|runs|] == runs;
  }
}
