/** Which replies are long enough for the slices of their plan. The decoder of registers is
    not told how many were asked for, so it accepts replies that are too short. */
module ReplyLengths {
  import opened Numbers
  import opened RegisterTypes
  import opened ReadCoalescer
  import opened PlannerCoverage
  import opened PlannerOptimality
  import opened PlannerSlices
  import opened PduCodec
  import opened Caches
  import PlannerBridging

  /** Where the last value lies that some slice reads: the greatest slice end. */
  function LastNeeded(covered: seq<CoveredTarget>): (end: int)
    ensures end >= 0
  {
    if covered == [] then 0
    else Max(LastNeeded(covered[..|covered| - 1]), covered[|covered| - 1].offsetInPlan + covered[|covered| - 1].count)
  }

  lemma {:induction false} EnoughIffLastNeeded(covered: seq<CoveredTarget>, count: nat)
    ensures EnoughFor(covered, count) <==> count >= LastNeeded(covered)
  {
    if covered != [] {
      var rest, last := covered[..|covered| - 1], covered[|covered| - 1];
      EnoughIffLastNeeded(rest, count);
      assert EnoughFor(covered, count) <==> EnoughFor(rest, count) && last.offsetInPlan + last.count <= count by {
        assert forall k :: 0 <= k < |rest| ==> covered[k] == rest[k];
        if EnoughFor(covered, count) {
          assert covered[|covered| - 1] == last;
        }
      }
    }
  }

  lemma AcceptedWords(plan: ReadRequestPlan, pdu: seq<byte>)
    requires !IsBitType(plan.registerType) && DecodePlanResponse(plan, pdu).Ok?
    ensures DecodePlanResponse(plan, pdu).value.Words? && |pdu| >= 2
    ensures FromByte(pdu[1]) == 2 * |DecodePlanResponse(plan, pdu).value.words|
  {
    hide FromByte;
  }

  /** An accepted register reply has a value for every slice of its plan if and only if the
      byte count in the reply reaches the last value that is needed. */
  lemma WordReplySufficesIff(targets: seq<PollTarget>, options: CoalescingOptions, p: nat, pdu: seq<byte>)
    requires options.Usable() && p < |Plans(targets, options)|
    requires !IsBitType(Plans(targets, options)[p].registerType)
    requires DecodePlanResponse(Plans(targets, options)[p], pdu).Ok?
    ensures DecodePlanResponse(Plans(targets, options)[p], pdu).value.Words? && |pdu| >= 2
    ensures EnoughFor(Plans(targets, options)[p].covered, |DecodePlanResponse(Plans(targets, options)[p], pdu).value.words|)
       <==> FromByte(pdu[1]) >= 2 * LastNeeded(Plans(targets, options)[p].covered)
  {
    hide Plans, DecodePlanResponse, EnoughFor, FromByte;
    var plan := Plans(targets, options)[p];
    AcceptedWords(plan, pdu);
    EnoughIffLastNeeded(plan.covered, |DecodePlanResponse(plan, pdu).value.words|);
  }

  /** Never more is needed than was asked for. */
  lemma NeededIsAskedFor(targets: seq<PollTarget>, options: CoalescingOptions, p: nat)
    requires options.Usable() && p < |Plans(targets, options)|
    ensures LastNeeded(Plans(targets, options)[p].covered) <= Plans(targets, options)[p].quantity
  {
    hide Plans;
    PlansFit(targets, options);
    var plan := Plans(targets, options)[p];
    assert PlanFits(targets, options, plan);
    assert EnoughFor(plan.covered, plan.quantity) by {
      forall k | 0 <= k < |plan.covered|
        ensures plan.covered[k].offsetInPlan + plan.covered[k].count <= plan.quantity
      {
        assert SliceFits(targets, plan, plan.covered[k]);
      }
    }
    EnoughIffLastNeeded(plan.covered, plan.quantity);
  }

  /** A bit reply that is accepted always suffices: its decoder checks the quantity. */
  lemma AcceptedBitsSuffice(targets: seq<PollTarget>, options: CoalescingOptions, p: nat, pdu: seq<byte>)
    requires options.Usable() && p < |Plans(targets, options)|
    requires IsBitType(Plans(targets, options)[p].registerType)
    requires DecodePlanResponse(Plans(targets, options)[p], pdu).Ok?
    ensures DecodePlanResponse(Plans(targets, options)[p], pdu).value.Flags?
    ensures EnoughFor(Plans(targets, options)[p].covered, |DecodePlanResponse(Plans(targets, options)[p], pdu).value.flags|)
  {
    hide Plans, EnoughFor, FromByte;
    NeededIsAskedFor(targets, options, p);
    EnoughIffLastNeeded(Plans(targets, options)[p].covered, Plans(targets, options)[p].quantity);
  }

  // ----- without bridging everything asked for is needed -----

  /** Without bridging, the last value a plan asks for is needed, so an accepted register
      reply suffices if and only if it carries all that was asked for. */
  lemma AllAskedForIsNeeded(targets: seq<PollTarget>, options: CoalescingOptions, p: nat)
    requires options.Usable() && options.maxGapToBridge == 0 && NonEmptyTargets(targets) && Placed(targets)
    requires p < |Plans(targets, options)|
    ensures LastNeeded(Plans(targets, options)[p].covered) == Plans(targets, options)[p].quantity
  {
    hide Plans, GroupPlans, CarriersInPlan, Carriers;
    var plans := Plans(targets, options);
    var plan := plans[p];
    var address := EndOf(plan) - 1;
    NeededIsAskedFor(targets, options, p);
    var i := LastIsWanted(targets, options, p);
    var offset: nat := address - targets[i].startAddress;
    ExactCoverage(targets, options, i, offset);
    var q := SomePlanCarries(plans, i, offset);
    var k := CarryingSlice(plans[q].covered, i, offset);
    SliceReaches(targets, options, q, k, i, offset);
    SharedAddressSamePlan(targets, options, p, q, address);
    EnoughIffLastNeeded(plan.covered, LastNeeded(plan.covered));
    assert plan.covered[k].offsetInPlan + plan.covered[k].count <= LastNeeded(plan.covered);
  }

  lemma LastIsWanted(targets: seq<PollTarget>, options: CoalescingOptions, p: nat) returns (i: nat)
    requires options.Usable() && options.maxGapToBridge == 0 && NonEmptyTargets(targets) && Placed(targets)
    requires p < |Plans(targets, options)|
    ensures var plan := Plans(targets, options)[p];
            && plan.quantity >= 1
            && i < |targets| && Wants(targets[i], GroupKey(plan.unitId, plan.registerType), EndOf(plan) - 1)
  {
    hide GroupPlans, PlansOfKeys;
    var plan := Plans(targets, options)[p];
    var key := GroupKey(plan.unitId, plan.registerType);
    PlansFit(targets, options);
    assert PlanFits(targets, options, plan);
    var g := PlanOfItsGroup(targets, SortedKeys(DistinctKeys(targets)), options, p);
    assert Reads(GroupPlans(targets, key, options), EndOf(plan) - 1) by {
      assert GroupPlans(targets, key, options)[g] == plan;
    }
    ReadIffWanted(targets, key, options, EndOf(plan) - 1);
    i :| 0 <= i < |targets| && Wants(targets[i], key, EndOf(plan) - 1);
  }

  // ----- a reply that is accepted and too short -----

  const TWO_REGISTERS: PollTarget := PollTarget(1, HoldingRegister, 0, 2)

  /** A reply with one register, whose value is 7. */
  const ONE_REGISTER: seq<byte> := [0x03, 0x02, 0x00, 0x07]

  /** One target of two registers, with any options that allow reading it at once: its one
      plan asks for both, and accepts a reply with one although a slice reads behind it. */
  lemma ShortWordReplyIsAccepted(options: CoalescingOptions)
    requires options.Usable() && options.maxRegistersPerRequest >= 2
    ensures |Plans([TWO_REGISTERS], options)| == 1
    ensures var plan := Plans([TWO_REGISTERS], options)[0];
            && DecodePlanResponse(plan, ONE_REGISTER).Ok? && DecodePlanResponse(plan, ONE_REGISTER).value.Words?
            && !EnoughFor(plan.covered, |DecodePlanResponse(plan, ONE_REGISTER).value.words|)
  {
    hide Plans;
    PlannerBridging.SingleTargetPlan(TWO_REGISTERS, options);
    ShortReplyDecodes(Plans([TWO_REGISTERS], options)[0]);
  }

  lemma ShortReplyDecodes(plan: ReadRequestPlan)
    requires plan == ReadRequestPlan(1, HoldingRegister, 0, 2, [CoveredTarget(0, 0, 0, 2)])
    ensures DecodePlanResponse(plan, ONE_REGISTER).Ok? && DecodePlanResponse(plan, ONE_REGISTER).value.Words?
    ensures !EnoughFor(plan.covered, |DecodePlanResponse(plan, ONE_REGISTER).value.words|)
  {
    FromToByte(2);
    assert FromByte(ONE_REGISTER[1]) == 2;
    assert |RegistersIn(ONE_REGISTER, 1)| == 1;
    assert plan.covered[0].offsetInPlan + plan.covered[0].count == 2;
  }
}
