/** The requests put on the wire do not depend on the order the targets are listed in. */
module PlannerOrder {
  import opened Numbers
  import opened RegisterTypes
  import opened ReadCoalescer

  /** What a plan puts on the wire; its slices are bookkeeping on this side. */
  datatype Request = Request(unitId: u8, registerType: RegisterType, startAddress: u16, quantity: u16)

  function RequestOf(plan: ReadRequestPlan): Request {
    Request(plan.unitId, plan.registerType, plan.startAddress, plan.quantity)
  }

  function Requests(plans: seq<ReadRequestPlan>): seq<Request> {
    seq(|plans|, i requires 0 <= i < |plans| => RequestOf(plans[i]))
  }

  // ----- merging, seen only through the address ranges -----

  datatype Extent = Extent(startAddress: int, endAddressExclusive: int)

  function Extents(runs: seq<MergedRun>): seq<Extent> {
    seq(|runs|, i requires 0 <= i < |runs| => Extent(runs[i].startAddress, runs[i].endAddressExclusive))
  }

  function AddExtent(extents: seq<Extent>, target: PollTarget, gap: int): seq<Extent> {
    if extents == [] || target.startAddress - extents[|extents| - 1].endAddressExclusive > gap then
      extents + [Extent(target.startAddress, target.EndExclusive())]
    else
      var current := extents[|extents| - 1];
      extents[..|extents| - 1]
      + [Extent(current.startAddress, Max(current.endAddressExclusive, target.EndExclusive()))]
  }

  function MergedExtents(listed: seq<PollTarget>, gap: int): seq<Extent> {
    if listed == [] then []
    else AddExtent(MergedExtents(listed[..|listed| - 1], gap), listed[|listed| - 1], gap)
  }

  function Picked(targets: seq<PollTarget>, indices: seq<nat>): seq<PollTarget>
    requires IndicesInto(targets, indices)
  {
    seq(|indices|, i requires 0 <= i < |indices| => targets[indices[i]])
  }

  lemma {:induction false} ExtentsOfMergedRuns(targets: seq<PollTarget>, indices: seq<nat>, gap: int)
    requires IndicesInto(targets, indices)
    ensures Extents(MergedRuns(targets, indices, gap)) == MergedExtents(Picked(targets, indices), gap)
  {
    if indices != [] {
      var last := |indices| - 1;
      ExtentsOfMergedRuns(targets, indices[..last], gap);
      assert Picked(targets, indices)[..last] == Picked(targets, indices[..last]);
      ExtentsOfAdd(targets, MergedRuns(targets, indices[..last], gap), indices[last], gap);
    }
  }

  lemma ExtentsOfAdd(targets: seq<PollTarget>, runs: seq<MergedRun>, index: nat, gap: int)
    requires index < |targets|
    ensures Extents(AddToRuns(targets, runs, index, gap)) == AddExtent(Extents(runs), targets[index], gap)
  {
  }

  // ----- targets that start at the same address commute -----

  lemma AddExtentCommutes(extents: seq<Extent>, a: PollTarget, b: PollTarget, gap: int)
    requires gap >= 0 && a.startAddress == b.startAddress
    ensures AddExtent(AddExtent(extents, a, gap), b, gap) == AddExtent(AddExtent(extents, b, gap), a, gap)
  {
    if extents == [] || a.startAddress - extents[|extents| - 1].endAddressExclusive > gap {
      var ea, eb := AddExtent(extents, a, gap), AddExtent(extents, b, gap);
      assert ea[..|ea| - 1] == extents == eb[..|eb| - 1];
    }
  }

  lemma MergedExtentsSnoc(listed: seq<PollTarget>, target: PollTarget, gap: int)
    ensures MergedExtents(listed + [target], gap) == AddExtent(MergedExtents(listed, gap), target, gap)
  {
    assert (listed + [target])[..|listed|] == listed;
  }

  /** A target may be moved behind others that start where it starts. */
  lemma {:induction false} MoveToEnd(front: seq<PollTarget>, moved: PollTarget, back: seq<PollTarget>, gap: int)
    requires gap >= 0
    requires forall i :: 0 <= i < |back| ==> back[i].startAddress == moved.startAddress
    ensures MergedExtents(front + [moved] + back, gap) == MergedExtents(front + back + [moved], gap)
  {
    if back == [] {
      assert front + [moved] + back == front + back + [moved];
    } else {
      var rest, b := back[..|back| - 1], back[|back| - 1];
      assert front + [moved] + back == (front + [moved] + rest) + [b];
      assert front + back == (front + rest) + [b];
      MoveToEnd(front, moved, rest, gap);
      MergedExtentsSnoc(front + [moved] + rest, b, gap);
      MergedExtentsSnoc(front + rest, moved, gap);
      MergedExtentsSnoc(front + rest, b, gap);
      MergedExtentsSnoc(front + back, moved, gap);
      AddExtentCommutes(MergedExtents(front + rest, gap), moved, b, gap);
    }
  }

  predicate StartsAscend(listed: seq<PollTarget>) {
    forall i, j :: 0 <= i < j < |listed| ==> listed[i].startAddress <= listed[j].startAddress
  }

  lemma RemoveKeepsAscending(listed: seq<PollTarget>, j: nat)
    requires StartsAscend(listed) && j < |listed|
    ensures StartsAscend(listed[..j] + listed[j + 1..])
    ensures multiset(listed[..j] + listed[j + 1..]) == multiset(listed) - multiset{listed[j]}
  {
    assert listed == listed[..j] + [listed[j]] + listed[j + 1..];
    var r := listed[..j] + listed[j + 1..];
    forall a, b | 0 <= a < b < |r|
      ensures r[a].startAddress <= r[b].startAddress
    {
      var a', b' := if a < j then a else a + 1, if b < j then b else b + 1;
      assert r[a] == listed[a'] && r[b] == listed[b'];
    }
  }

  /** Two address-sorted listings of the same targets merge to the same ranges. */
  lemma {:induction false} MergedExtentsOfPermutation(a: seq<PollTarget>, b: seq<PollTarget>, gap: int)
    requires gap >= 0
    requires StartsAscend(a) && StartsAscend(b)
    requires multiset(a) == multiset(b)
    ensures MergedExtents(a, gap) == MergedExtents(b, gap)
    decreases |a|
  {
    assert |a| == |multiset(a)| == |b|;
    if a != [] {
      var b' := TakeOutLast(a, b, gap);
      MergedExtentsOfPermutation(a[..|a| - 1], b', gap);
    }
  }

  /** Takes the last target of one listing out of another. */
  lemma TakeOutLast(a: seq<PollTarget>, b: seq<PollTarget>, gap: int) returns (b': seq<PollTarget>)
    requires gap >= 0
    requires StartsAscend(a) && StartsAscend(b) && multiset(a) == multiset(b) && a != []
    ensures StartsAscend(b') && multiset(b') == multiset(a[..|a| - 1])
    ensures MergedExtents(b, gap) == AddExtent(MergedExtents(b', gap), a[|a| - 1], gap)
  {
    var j := IndexOf(a, b, |a| - 1);
    b' := b[..j] + b[j + 1..];
    MoveLastStart(a, b, j, gap);
    RemoveKeepsAscending(b, j);
    DropLastMultiset(a);
  }

  lemma DropLastMultiset(a: seq<PollTarget>)
    requires a != []
    ensures multiset(a[..|a| - 1]) == multiset(a) - multiset{a[|a| - 1]}
  {
    assert a == a[..|a| - 1] + [a[|a| - 1]];
  }

  /** A target that starts where the last one of the listing starts may be merged last. */
  lemma MoveLastStart(a: seq<PollTarget>, b: seq<PollTarget>, j: nat, gap: int)
    requires gap >= 0
    requires StartsAscend(a) && StartsAscend(b) && multiset(a) == multiset(b)
    requires a != [] && j < |b| && b[j] == a[|a| - 1]
    ensures MergedExtents(b, gap) == AddExtent(MergedExtents(b[..j] + b[j + 1..], gap), b[j], gap)
  {
    var front, back := b[..j], b[j + 1..];
    assert b == front + [b[j]] + back;
    forall i | 0 <= i < |back|
      ensures back[i].startAddress == b[j].startAddress
    {
      LastStartsLast(a, b, |a| - 1, j + 1 + i);
    }
    MoveToEnd(front, b[j], back, gap);
    MergedExtentsSnoc(front + back, b[j], gap);
  }

  lemma IndexOf(a: seq<PollTarget>, b: seq<PollTarget>, k: nat) returns (j: nat)
    requires k < |a| && multiset(a) == multiset(b)
    ensures j < |b| && b[j] == a[k]
  {
    assert a[k] in multiset(b);
    j :| 0 <= j < |b| && b[j] == a[k];
  }

  lemma LastStartsLast(a: seq<PollTarget>, b: seq<PollTarget>, last: nat, k: nat)
    requires StartsAscend(a) && last == |a| - 1 && multiset(a) == multiset(b) && k < |b|
    ensures b[k].startAddress <= a[last].startAddress
  {
    var i := IndexOf(b, a, k);
  }

  // ----- the sorted group is a listing of the group's targets -----

  lemma PickedSnoc(targets: seq<PollTarget>, indices: seq<nat>, index: nat)
    requires IndicesInto(targets, indices) && index < |targets|
    ensures Picked(targets, indices + [index]) == Picked(targets, indices) + [targets[index]]
    ensures multiset(Picked(targets, indices + [index])) == multiset(Picked(targets, indices)) + multiset{targets[index]}
  {
  }

  lemma {:induction false} PickedInsert(targets: seq<PollTarget>, sorted: seq<nat>, index: nat)
    requires IndicesInto(targets, sorted) && index < |targets|
    ensures multiset(Picked(targets, InsertIndex(targets, sorted, index)))
         == multiset(Picked(targets, sorted)) + multiset{targets[index]}
  {
    var last := |sorted| - 1;
    var r := InsertIndex(targets, sorted, index);
    assert Picked(targets, r) == Picked(targets, r[..|r| - 1]) + [targets[r[|r| - 1]]];
    if sorted == [] || targets[sorted[last]].startAddress <= targets[index].startAddress {
      assert r[..|r| - 1] == sorted;
    } else {
      PickedInsert(targets, sorted[..last], index);
      assert Picked(targets, sorted) == Picked(targets, sorted[..last]) + [targets[sorted[last]]];
      assert r[..|r| - 1] == InsertIndex(targets, sorted[..last], index);
    }
  }

  lemma {:induction false} PickedSort(targets: seq<PollTarget>, indices: seq<nat>)
    requires IndicesInto(targets, indices)
    ensures multiset(Picked(targets, StableSortedByStart(targets, indices))) == multiset(Picked(targets, indices))
  {
    if indices != [] {
      var last := |indices| - 1;
      PickedSort(targets, indices[..last]);
      assert indices == indices[..last] + [indices[last]];
      PickedSnoc(targets, indices[..last], indices[last]);
      PickedInsert(targets, StableSortedByStart(targets, indices[..last]), indices[last]);
    }
  }

  function Multiplicity(listed: seq<PollTarget>, t: PollTarget): nat {
    if listed == [] then 0
    else Multiplicity(listed[..|listed| - 1], t) + if listed[|listed| - 1] == t then 1 else 0
  }

  lemma {:induction false} MultiplicityIsMultiset(listed: seq<PollTarget>, t: PollTarget)
    ensures Multiplicity(listed, t) == multiset(listed)[t]
  {
    if listed != [] {
      MultiplicityIsMultiset(listed[..|listed| - 1], t);
      DropLastMultiset(listed);
    }
  }

  lemma {:induction false} PickedGroup(targets: seq<PollTarget>, key: GroupKey, bound: nat, t: PollTarget)
    requires bound <= |targets|
    ensures Multiplicity(Picked(targets, GroupIndices(targets, key, bound)), t)
         == if t.Key() == key then Multiplicity(targets[..bound], t) else 0
  {
    if bound > 0 {
      PickedGroup(targets, key, bound - 1, t);
      assert targets[..bound][..bound - 1] == targets[..bound - 1];
      if targets[bound - 1].Key() == key {
        var picked := Picked(targets, GroupIndices(targets, key, bound));
        assert picked[..|picked| - 1] == Picked(targets, GroupIndices(targets, key, bound - 1));
      }
    }
  }

  lemma GroupMultiplicity(a: seq<PollTarget>, key: GroupKey, t: PollTarget)
    ensures multiset(Picked(a, GroupIndices(a, key, |a|)))[t] == if t.Key() == key then multiset(a)[t] else 0
  {
    PickedGroup(a, key, |a|, t);
    assert a[..|a|] == a;
    MultiplicityIsMultiset(a, t);
    MultiplicityIsMultiset(Picked(a, GroupIndices(a, key, |a|)), t);
  }

  lemma SortedGroupsPermute(a: seq<PollTarget>, b: seq<PollTarget>, key: GroupKey)
    requires multiset(a) == multiset(b)
    ensures multiset(Picked(a, SortedGroup(a, key))) == multiset(Picked(b, SortedGroup(b, key)))
  {
    PickedSort(a, GroupIndices(a, key, |a|));
    PickedSort(b, GroupIndices(b, key, |b|));
    var pa, pb := multiset(Picked(a, GroupIndices(a, key, |a|))), multiset(Picked(b, GroupIndices(b, key, |b|)));
    forall t: PollTarget
      ensures pa[t] == pb[t]
    {
      GroupMultiplicity(a, key, t);
      GroupMultiplicity(b, key, t);
    }
    assert pa == pb;
  }

  lemma SortedPicksAscend(targets: seq<PollTarget>, indices: seq<nat>)
    requires IndicesInto(targets, indices) && SortedByStart(targets, indices)
    ensures StartsAscend(Picked(targets, indices))
  {
  }

  lemma GroupExtentsAgree(a: seq<PollTarget>, b: seq<PollTarget>, key: GroupKey, gap: int)
    requires gap >= 0 && multiset(a) == multiset(b)
    ensures Extents(GroupRuns(a, key, gap)) == Extents(GroupRuns(b, key, gap))
  {
    var ia, ib := SortedGroup(a, key), SortedGroup(b, key);
    ExtentsOfMergedRuns(a, ia, gap);
    ExtentsOfMergedRuns(b, ib, gap);
    SortedGroupsPermute(a, b, key);
    SortedPicksAscend(a, ia);
    SortedPicksAscend(b, ib);
    MergedExtentsOfPermutation(Picked(a, ia), Picked(b, ib), gap);
  }

  // ----- from ranges to requests -----

  lemma {:induction false} RunRequestsAgree(a: seq<PollTarget>, ra: MergedRun, b: seq<PollTarget>, rb: MergedRun,
                                            key: GroupKey, maxCount: int, chunkStart: int)
    requires IndicesInto(a, ra.targetIndices) && IndicesInto(b, rb.targetIndices) && maxCount >= 1
    requires ra.endAddressExclusive == rb.endAddressExclusive
    ensures Requests(RunPlans(a, ra, key, maxCount, chunkStart)) == Requests(RunPlans(b, rb, key, maxCount, chunkStart))
    decreases ra.endAddressExclusive - chunkStart
  {
    if chunkStart < ra.endAddressExclusive {
      RunRequestsAgree(a, ra, b, rb, key, maxCount, chunkStart + maxCount);
      RequestsAppend([ChunkPlan(a, ra, key, maxCount, chunkStart)], RunPlans(a, ra, key, maxCount, chunkStart + maxCount));
      RequestsAppend([ChunkPlan(b, rb, key, maxCount, chunkStart)], RunPlans(b, rb, key, maxCount, chunkStart + maxCount));
      assert RequestOf(ChunkPlan(a, ra, key, maxCount, chunkStart)) == RequestOf(ChunkPlan(b, rb, key, maxCount, chunkStart));
    }
  }

  lemma RequestsAppend(a: seq<ReadRequestPlan>, b: seq<ReadRequestPlan>)
    ensures Requests(a + b) == Requests(a) + Requests(b)
  {
  }

  lemma {:induction false} RunsRequestsAgree(a: seq<PollTarget>, ra: seq<MergedRun>, b: seq<PollTarget>,
                                             rb: seq<MergedRun>, key: GroupKey, maxCount: int)
    requires RunsInto(a, ra) && RunsInto(b, rb) && maxCount >= 1
    requires Extents(ra) == Extents(rb)
    ensures Requests(PlansOfRuns(a, ra, key, maxCount)) == Requests(PlansOfRuns(b, rb, key, maxCount))
    decreases |ra|
  {
    assert |ra| == |Extents(ra)| == |rb|;
    if ra != [] {
      var last := |ra| - 1;
      assert Extents(ra[..last]) == Extents(ra)[..last] == Extents(rb[..last]);
      assert Extents(ra)[last] == Extents(rb)[last];
      RunsRequestsAgree(a, ra[..last], b, rb[..last], key, maxCount);
      RunRequestsAgree(a, ra[last], b, rb[last], key, maxCount, ra[last].startAddress);
      RequestsAppend(PlansOfRuns(a, ra[..last], key, maxCount), RunPlans(a, ra[last], key, maxCount, ra[last].startAddress));
      RequestsAppend(PlansOfRuns(b, rb[..last], key, maxCount), RunPlans(b, rb[last], key, maxCount, rb[last].startAddress));
    }
  }

  lemma {:induction false} KeysRequestsAgree(a: seq<PollTarget>, b: seq<PollTarget>, keys: seq<GroupKey>,
                                             options: CoalescingOptions)
    requires options.Usable() && options.maxGapToBridge >= 0
    requires multiset(a) == multiset(b)
    ensures Requests(PlansOfKeys(a, keys, options)) == Requests(PlansOfKeys(b, keys, options))
  {
    if keys != [] {
      var last := |keys| - 1;
      var key := keys[last];
      KeysRequestsAgree(a, b, keys[..last], options);
      GroupExtentsAgree(a, b, key, options.maxGapToBridge);
      RunsRequestsAgree(a, GroupRuns(a, key, options.maxGapToBridge), b, GroupRuns(b, key, options.maxGapToBridge),
                        key, options.MaxCountFor(key.registerType));
      RequestsAppend(PlansOfKeys(a, keys[..last], options), GroupPlans(a, key, options));
      RequestsAppend(PlansOfKeys(b, keys[..last], options), GroupPlans(b, key, options));
    }
  }

  /** A strictly increasing key list is determined by its members. */
  lemma {:induction false} IncreasingKeysUnique(a: seq<GroupKey>, b: seq<GroupKey>)
    requires KeysIncrease(a) && KeysIncrease(b)
    requires forall k :: k in a <==> k in b
    ensures a == b
  {
    if a == [] {
      FirstIsMember(b);
    } else {
      FirstKeysEqual(a, b);
      TailMembers(a);
      TailMembers(b);
      IncreasingKeysUnique(a[1..], b[1..]);
      assert a == [a[0]] + a[1..] && b == [b[0]] + b[1..];
    }
  }

  lemma FirstIsMember(keys: seq<GroupKey>)
    ensures keys != [] ==> keys[0] in keys
  {
  }

  lemma FirstKeysEqual(a: seq<GroupKey>, b: seq<GroupKey>)
    requires KeysIncrease(a) && KeysIncrease(b) && a != []
    requires forall k :: k in a <==> k in b
    ensures b != [] && a[0] == b[0]
  {
    assert a[0] in a;
    var j :| 0 <= j < |b| && b[j] == a[0];
    assert b[0] in b;
    var i :| 0 <= i < |a| && a[i] == b[0];
    assert i > 0 ==> a[0].LessThan(a[i]);
    assert j > 0 ==> b[0].LessThan(b[j]);
  }

  lemma TailMembers(a: seq<GroupKey>)
    requires KeysIncrease(a) && a != []
    ensures forall k :: k in a[1..] <==> k in a && k != a[0]
  {
    forall i | 0 < i < |a|
      ensures a[i] != a[0]
    {
      assert a[0].LessThan(a[i]);
    }
    assert a == [a[0]] + a[1..];
  }

  lemma KeysAgree(a: seq<PollTarget>, b: seq<PollTarget>)
    requires multiset(a) == multiset(b)
    ensures SortedKeys(DistinctKeys(a)) == SortedKeys(DistinctKeys(b))
  {
    forall k
      ensures k in DistinctKeys(a) <==> k in DistinctKeys(b)
    {
      if k in DistinctKeys(a) {
        var i :| 0 <= i < |a| && a[i].Key() == k;
        var j := IndexOf(a, b, i);
      }
      if k in DistinctKeys(b) {
        var i :| 0 <= i < |b| && b[i].Key() == k;
        var j := IndexOf(b, a, i);
      }
    }
    IncreasingKeysUnique(SortedKeys(DistinctKeys(a)), SortedKeys(DistinctKeys(b)));
  }

  /** Permuting the targets leaves the sequence of wire requests unchanged. */
  lemma OrderIndependence(a: seq<PollTarget>, b: seq<PollTarget>, options: CoalescingOptions)
    requires options.Usable() && options.maxGapToBridge >= 0
    requires multiset(a) == multiset(b)
    ensures Requests(Plans(a, options)) == Requests(Plans(b, options))
  {
    KeysAgree(a, b);
    KeysRequestsAgree(a, b, SortedKeys(DistinctKeys(a)), options);
  }
}
