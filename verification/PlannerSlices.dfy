/** From an address back to the slice that reads it: every plan belongs to its group, an address
    is read by one plan of a group at most, and no plan is without a slice. */
module PlannerSlices {
  import opened Numbers
  import opened RegisterTypes
  import opened ReadCoalescer
  import opened PlannerCoverage
  import opened PlannerOptimality

  /** Every plan of the list is one of its group's plans. */
  lemma {:induction false} PlanOfItsGroup(targets: seq<PollTarget>, keys: seq<GroupKey>, options: CoalescingOptions, p: nat)
    returns (g: nat)
    requires options.Usable() && p < |PlansOfKeys(targets, keys, options)|
    ensures var plan := PlansOfKeys(targets, keys, options)[p];
            var key := GroupKey(plan.unitId, plan.registerType);
            g < |GroupPlans(targets, key, options)| && GroupPlans(targets, key, options)[g] == plan
  {
    hide GroupPlans;
    var last := |keys| - 1;
    var before := |PlansOfKeys(targets, keys[..last], options)|;
    if p < before {
      g := PlanOfItsGroup(targets, keys[..last], options, p);
    } else {
      g := p - before;
      GroupPlansKeyed(targets, keys[last], options, g);
      assert GroupKey(GroupPlans(targets, keys[last], options)[g].unitId,
                      GroupPlans(targets, keys[last], options)[g].registerType) == keys[last];
    }
  }

  /** Two plans of one unit and type that read one address are the same plan. */
  lemma SharedAddressSamePlan(targets: seq<PollTarget>, options: CoalescingOptions, p: nat, q: nat, address: int)
    requires options.Usable() && options.maxGapToBridge >= 0 && NonEmptyTargets(targets) && Placed(targets)
    requires p < |Plans(targets, options)| && q < |Plans(targets, options)|
    requires var a, b := Plans(targets, options)[p], Plans(targets, options)[q];
             && a.unitId == b.unitId && a.registerType == b.registerType
             && a.startAddress <= address < EndOf(a) && b.startAddress <= address < EndOf(b)
    ensures Plans(targets, options)[p] == Plans(targets, options)[q]
  {
    hide GroupPlans, PlansOfKeys;
    var keys := SortedKeys(DistinctKeys(targets));
    var i := PlanOfItsGroup(targets, keys, options, p);
    var j := PlanOfItsGroup(targets, keys, options, q);
    var key := GroupKey(Plans(targets, options)[p].unitId, Plans(targets, options)[p].registerType);
    if i < j {
      PlansAscendDisjoint(targets, key, options, i, j);
    } else if j < i {
      PlansAscendDisjoint(targets, key, options, j, i);
    }
  }

  /** Some slice of some plan carries the value, and ends behind it. */
  lemma CarryingSlice(covered: seq<CoveredTarget>, index: nat, offset: int) returns (k: nat)
    requires CarriersInPlan(covered, index, offset) > 0
    ensures k < |covered| && CarriesOffset(covered[k], index, offset)
  {
    var last := |covered| - 1;
    if CarriesOffset(covered[last], index, offset) {
      k := last;
    } else {
      k := CarryingSlice(covered[..last], index, offset);
    }
  }

  /** A slice that carries a value lies in a plan that reads the value's address, and ends
      behind it. */
  lemma SliceReaches(targets: seq<PollTarget>, options: CoalescingOptions, q: nat, k: nat, i: nat, offset: nat)
    requires options.Usable() && Placed(targets) && q < |Plans(targets, options)|
    requires k < |Plans(targets, options)[q].covered| && CarriesOffset(Plans(targets, options)[q].covered[k], i, offset)
    ensures i < |targets|
    ensures var plan := Plans(targets, options)[q];
            && targets[i].Key() == GroupKey(plan.unitId, plan.registerType)
            && plan.startAddress <= targets[i].startAddress + offset < EndOf(plan)
            && plan.covered[k].offsetInPlan + plan.covered[k].count > targets[i].startAddress + offset - plan.startAddress
  {
    hide Plans;
    PlansFit(targets, options);
    var plan := Plans(targets, options)[q];
    assert PlanFits(targets, options, plan) && PlanAligned(targets, plan);
    assert SliceFits(targets, plan, plan.covered[k]) && SliceAligned(targets, plan, plan.covered[k]);
  }

  /** With a gap shorter than a request, every plan of the list has a slice: no request is
      sent whose answer nobody takes. */
  lemma EveryPlanHasASlice(targets: seq<PollTarget>, options: CoalescingOptions, p: nat)
    requires options.Usable() && options.maxGapToBridge >= 0 && NonEmptyTargets(targets) && Placed(targets)
    requires p < |Plans(targets, options)|
    requires options.maxGapToBridge < options.MaxCountFor(Plans(targets, options)[p].registerType)
    ensures Plans(targets, options)[p].covered != []
  {
    hide GroupPlans, CarriersInPlan, Carriers, PlansOfKeys;
    var plans := Plans(targets, options);
    var key := GroupKey(plans[p].unitId, plans[p].registerType);
    var g := PlanOfItsGroup(targets, SortedKeys(DistinctKeys(targets)), options, p);
    var address := EveryPlanReadsSomethingWanted(targets, key, options, g);
    var i :| 0 <= i < |targets| && Wants(targets[i], key, address);
    var offset: nat := address - targets[i].startAddress;
    ExactCoverage(targets, options, i, offset);
    var q := SomePlanCarries(plans, i, offset);
    var k := CarryingSlice(plans[q].covered, i, offset);
    SliceReaches(targets, options, q, k, i, offset);
    SharedAddressSamePlan(targets, options, p, q, address);
  }

  // ----- the order of the whole list -----

  /** Coils, discrete inputs, holding registers, input registers. */
  function TypeRank(t: RegisterType): nat {
    match t
    case Coil => 0
    case DiscreteInput => 1
    case HoldingRegister => 2
    case InputRegister => 3
  }

  /** Units ascend, within a unit the types, and within both the addresses, none read twice. */
  predicate Precedes(a: ReadRequestPlan, b: ReadRequestPlan) {
    if a.unitId != b.unitId then a.unitId < b.unitId
    else if a.registerType != b.registerType then TypeRank(a.registerType) < TypeRank(b.registerType)
    else EndOf(a) <= b.startAddress
  }

  lemma {:induction false} KeyIsListed(targets: seq<PollTarget>, keys: seq<GroupKey>, options: CoalescingOptions, p: nat)
    returns (k: nat)
    requires options.Usable() && p < |PlansOfKeys(targets, keys, options)|
    ensures var plan := PlansOfKeys(targets, keys, options)[p];
            k < |keys| && keys[k] == GroupKey(plan.unitId, plan.registerType)
  {
    hide GroupPlans;
    var last := |keys| - 1;
    var before := |PlansOfKeys(targets, keys[..last], options)|;
    if p < before {
      k := KeyIsListed(targets, keys[..last], options, p);
    } else {
      GroupPlansKeyed(targets, keys[last], options, p - before);
      k := last;
    }
  }

  lemma {:induction false} KeysPlansAscend(targets: seq<PollTarget>, keys: seq<GroupKey>, options: CoalescingOptions,
                                           p: nat, q: nat)
    requires options.Usable() && options.maxGapToBridge >= 0 && NonEmptyTargets(targets) && Placed(targets)
    requires KeysIncrease(keys) && p < q < |PlansOfKeys(targets, keys, options)|
    ensures Precedes(PlansOfKeys(targets, keys, options)[p], PlansOfKeys(targets, keys, options)[q])
  {
    hide GroupPlans;
    var last := |keys| - 1;
    var before := |PlansOfKeys(targets, keys[..last], options)|;
    if q < before {
      KeysPlansAscend(targets, keys[..last], options, p, q);
    } else if p < before {
      var k := KeyIsListed(targets, keys[..last], options, p);
      GroupPlansKeyed(targets, keys[last], options, q - before);
      assert keys[k].LessThan(keys[last]);
    } else {
      GroupPlansKeyed(targets, keys[last], options, p - before);
      GroupPlansKeyed(targets, keys[last], options, q - before);
      PlansAscendDisjoint(targets, keys[last], options, p - before, q - before);
    }
  }

  /** The requests of a cycle go out in the order of units, types and addresses. */
  lemma PlansAscend(targets: seq<PollTarget>, options: CoalescingOptions, p: nat, q: nat)
    requires options.Usable() && options.maxGapToBridge >= 0 && NonEmptyTargets(targets) && Placed(targets)
    requires p < q < |Plans(targets, options)|
    ensures Precedes(Plans(targets, options)[p], Plans(targets, options)[q])
  {
    hide PlansOfKeys, Precedes;
    KeysPlansAscend(targets, SortedKeys(DistinctKeys(targets)), options, p, q);
  }
}
