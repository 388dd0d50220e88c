/** Coalesced polling refines polling every target by itself: whatever the device holds and
    however the targets are merged and split, once every plan has been answered - in any
    order - each target's cache is the device's memory over that target's range. */
module CoalescedPolling {
  import opened Numbers
  import opened RegisterTypes
  import opened ReadCoalescer
  import opened PlannerCoverage
  import opened RtuFramer
  import opened PduCodec
  import opened Caches

  /** What a bus of devices holds, by unit, region and address. */
  datatype Memory = Memory(words: (u8, RegisterType, int) -> int, flags: (u8, RegisterType, int) -> bool)

  /** Registers hold 16 bits. */
  function WordAt(memory: Memory, unitId: u8, region: RegisterType, address: int): u16 {
    Truncate16(memory.words(unitId, region, address))
  }

  function RegionOf(functionCode: byte): RegisterType {
    if functionCode == READ_COILS then Coil
    else if functionCode == READ_DISCRETE_INPUTS then DiscreteInput
    else if functionCode == READ_HOLDING_REGISTERS then HoldingRegister
    else InputRegister
  }

  function WordsIn(memory: Memory, unitId: u8, region: RegisterType, startAddress: int, quantity: nat): seq<u16> {
    seq<u16>(quantity, k requires 0 <= k < quantity => WordAt(memory, unitId, region, startAddress + k))
  }

  function FlagsIn(memory: Memory, unitId: u8, region: RegisterType, startAddress: int, quantity: nat): seq<bool> {
    seq(quantity, k requires 0 <= k < quantity => memory.flags(unitId, region, startAddress + k))
  }

  /** A read request that a device can answer. */
  predicate Serviceable(requestPdu: seq<byte>) {
    var request := DeviceParseRead(requestPdu);
    request.Some? && request.value.quantity <= MaxQuantity(RegionOf(request.value.functionCode))
  }

  /** How a well-formed device answers a read request: with exactly the values asked for. */
  function DeviceAnswer(memory: Memory, unitId: u8, requestPdu: seq<byte>): seq<byte>
    requires Serviceable(requestPdu)
  {
    var request := DeviceParseRead(requestPdu).value;
    var region := RegionOf(request.functionCode);
    if IsBitType(region) then
      DeviceBitsResponse(request.functionCode, FlagsIn(memory, unitId, region, request.startAddress, request.quantity))
    else
      DeviceRegistersResponse(request.functionCode, WordsIn(memory, unitId, region, request.startAddress, request.quantity))
  }

  /** The protocol's own ceilings. */
  function MaxQuantity(region: RegisterType): int {
    if IsBitType(region) then MAX_BITS_PER_READ_REQUEST else MAX_REGISTERS_PER_READ_REQUEST
  }

  predicate WithinProtocol(options: CoalescingOptions) {
    && 1 <= options.maxBitsPerRequest <= MAX_BITS_PER_READ_REQUEST
    && 1 <= options.maxRegistersPerRequest <= MAX_REGISTERS_PER_READ_REQUEST
  }

  function MemoryValues(memory: Memory, plan: ReadRequestPlan): Values {
    if IsBitType(plan.registerType) then
      Flags(FlagsIn(memory, plan.unitId, plan.registerType, plan.startAddress, plan.quantity))
    else Words(WordsIn(memory, plan.unitId, plan.registerType, plan.startAddress, plan.quantity))
  }

  lemma RegionRoundTrip(region: RegisterType)
    ensures RegionOf(ReadFunctionCodeFor(region)) == region && IsReadCode(ReadFunctionCodeFor(region))
  {
  }

  /** Request out, answer back, decoded: the plan receives exactly the memory it covers. */
  lemma PlanAnswered(memory: Memory, plan: ReadRequestPlan)
    requires plan.quantity <= MaxQuantity(plan.registerType)
    ensures Serviceable(PlanPdu(plan))
    ensures DecodePlanResponse(plan, DeviceAnswer(memory, plan.unitId, PlanPdu(plan)))
         == Ok(MemoryValues(memory, plan))
  {
    var code := ReadFunctionCodeFor(plan.registerType);
    ReadRequestArrives(plan.registerType, plan.startAddress, plan.quantity);
    RegionRoundTrip(plan.registerType);
    if IsBitType(plan.registerType) {
      BitsRoundTrip(code, FlagsIn(memory, plan.unitId, plan.registerType, plan.startAddress, plan.quantity));
    } else {
      RegistersRoundTrip(code, WordsIn(memory, plan.unitId, plan.registerType, plan.startAddress, plan.quantity));
    }
  }

  // ----- one cell of one cache -----

  datatype Cell = Word(word: u16) | Flag(flag: bool)

  function CellOf(target: PollTarget, cache: TargetCache, offset: nat): Cell
    requires CacheFits(target, cache) && offset < target.quantity
  {
    if IsBitType(target.registerType) then Flag(cache.bitValues[offset]) else Word(cache.registerValues[offset])
  }

  function MemoryCell(memory: Memory, target: PollTarget, offset: nat): Cell {
    var address := target.startAddress + offset;
    if IsBitType(target.registerType) then Flag(memory.flags(target.unitId, target.registerType, address))
    else Word(WordAt(memory, target.unitId, target.registerType, address))
  }

  predicate GoodSlices(targets: seq<PollTarget>, plan: ReadRequestPlan, covered: seq<CoveredTarget>) {
    forall k :: 0 <= k < |covered| ==> SliceFits(targets, plan, covered[k]) && SliceAligned(targets, plan, covered[k])
  }

  predicate AllGood(targets: seq<PollTarget>, plans: seq<ReadRequestPlan>) {
    forall p :: 0 <= p < |plans| ==> GoodSlices(targets, plans[p], plans[p].covered)
  }

  lemma SliceCell(memory: Memory, targets: seq<PollTarget>, caches: seq<TargetCache>, plan: ReadRequestPlan,
                  c: CoveredTarget, index: nat, offset: nat)
    requires CachesFit(targets, caches) && SliceFits(targets, plan, c) && SliceAligned(targets, plan, c)
    requires index < |targets| && offset < targets[index].quantity
    ensures CachesFit(targets, ApplySlice(caches, c, MemoryValues(memory, plan)))
    ensures CellOf(targets[index], ApplySlice(caches, c, MemoryValues(memory, plan))[index], offset)
         == if CarriesOffset(c, index, offset) then MemoryCell(memory, targets[index], offset)
            else CellOf(targets[index], caches[index], offset)
  {
    OverwriteFits(targets[c.targetIndex], caches[c.targetIndex], c, MemoryValues(memory, plan));
    if CarriesOffset(c, index, offset) {
      var k := c.offsetInPlan + (offset - c.offsetInTarget);
      if IsBitType(plan.registerType) {
        assert At(MemoryValues(memory, plan).flags, k, false)
            == memory.flags(plan.unitId, plan.registerType, plan.startAddress + k);
      } else {
        assert At(MemoryValues(memory, plan).words, k, 0)
            == WordAt(memory, plan.unitId, plan.registerType, plan.startAddress + k);
      }
    }
  }

  /** Applying a plan's memory sets exactly the cells its slices carry, and sets them right. */
  lemma {:induction false} SlicesCell(memory: Memory, targets: seq<PollTarget>, caches: seq<TargetCache>,
                                      plan: ReadRequestPlan, covered: seq<CoveredTarget>, index: nat, offset: nat)
    requires CachesFit(targets, caches) && GoodSlices(targets, plan, covered)
    requires index < |targets| && offset < targets[index].quantity
    ensures CachesFit(targets, ApplySlices(caches, covered, MemoryValues(memory, plan)))
    ensures CellOf(targets[index], ApplySlices(caches, covered, MemoryValues(memory, plan))[index], offset)
         == if CarriersInPlan(covered, index, offset) > 0 then MemoryCell(memory, targets[index], offset)
            else CellOf(targets[index], caches[index], offset)
  {
    if covered != [] {
      var rest := covered[..|covered| - 1];
      SlicesCell(memory, targets, caches, plan, rest, index, offset);
      SliceCell(memory, targets, ApplySlices(caches, rest, MemoryValues(memory, plan)), plan, covered[|covered| - 1],
                index, offset);
    }
  }

  // ----- a whole round of polling -----

  /** One request sent, answered by the device, decoded and scattered over the caches. */
  function Polled(memory: Memory, plan: ReadRequestPlan, caches: seq<TargetCache>): seq<TargetCache>
    requires plan.quantity <= MaxQuantity(plan.registerType)
  {
    PlanAnswered(memory, plan);
    match DecodePlanResponse(plan, DeviceAnswer(memory, plan.unitId, PlanPdu(plan)))
    case Ok(values) => ApplySlices(caches, plan.covered, values)
    case _ => caches
  }

  lemma PolledIsScatter(memory: Memory, plan: ReadRequestPlan, caches: seq<TargetCache>)
    requires plan.quantity <= MaxQuantity(plan.registerType)
    ensures Polled(memory, plan, caches) == ApplySlices(caches, plan.covered, MemoryValues(memory, plan))
  {
    PlanAnswered(memory, plan);
  }

  /** A list of plan indices, in any order and with repetitions. */
  predicate Orders(order: seq<nat>, plans: seq<ReadRequestPlan>) {
    forall k :: 0 <= k < |order| ==> order[k] < |plans|
  }

  /** No plan asks for more than the protocol allows. */
  predicate Answerable(plans: seq<ReadRequestPlan>) {
    forall p :: 0 <= p < |plans| ==> plans[p].quantity <= MaxQuantity(plans[p].registerType)
  }

  predicate AnswersAll(order: seq<nat>, plans: seq<ReadRequestPlan>) {
    forall p: nat :: p < |plans| ==> p in order
  }

  /** The caches after the plans have been answered in the given order. */
  function PolledInOrder(memory: Memory, plans: seq<ReadRequestPlan>, order: seq<nat>, caches: seq<TargetCache>)
    : seq<TargetCache>
    requires Orders(order, plans) && Answerable(plans)
  {
    if order == [] then caches
    else
      Polled(memory, plans[order[|order| - 1]], PolledInOrder(memory, plans, order[..|order| - 1], caches))
  }

  predicate Answers(plans: seq<ReadRequestPlan>, order: seq<nat>, index: nat, offset: int) {
    exists k :: 0 <= k < |order| && order[k] < |plans| && CarriersInPlan(plans[order[k]].covered, index, offset) > 0
  }

  lemma {:induction false} PolledCell(memory: Memory, targets: seq<PollTarget>, plans: seq<ReadRequestPlan>,
                                      order: seq<nat>, caches: seq<TargetCache>, index: nat, offset: nat)
    requires Orders(order, plans) && Answerable(plans)
    requires AllGood(targets, plans)
    requires CachesFit(targets, caches)
    requires index < |targets| && offset < targets[index].quantity
    ensures CachesFit(targets, PolledInOrder(memory, plans, order, caches))
    ensures CellOf(targets[index], PolledInOrder(memory, plans, order, caches)[index], offset)
         == if Answers(plans, order, index, offset) then MemoryCell(memory, targets[index], offset)
            else CellOf(targets[index], caches[index], offset)
  {
    if order != [] {
      var last := |order| - 1;
      var plan := plans[order[last]];
      PolledCell(memory, targets, plans, order[..last], caches, index, offset);
      PolledIsScatter(memory, plan, PolledInOrder(memory, plans, order[..last], caches));
      SlicesCell(memory, targets, PolledInOrder(memory, plans, order[..last], caches), plan, plan.covered, index, offset);
      AnswersSnoc(plans, order, index, offset);
    }
  }

  lemma AnswersSnoc(plans: seq<ReadRequestPlan>, order: seq<nat>, index: nat, offset: int)
    requires order != [] && order[|order| - 1] < |plans|
    ensures Answers(plans, order, index, offset) <==>
              || Answers(plans, order[..|order| - 1], index, offset)
              || CarriersInPlan(plans[order[|order| - 1]].covered, index, offset) > 0
  {
    var rest := order[..|order| - 1];
    if Answers(plans, rest, index, offset) {
      var k :| 0 <= k < |rest| && rest[k] < |plans| && CarriersInPlan(plans[rest[k]].covered, index, offset) > 0;
      assert order[k] == rest[k];
    }
    if Answers(plans, order, index, offset) {
      var k :| 0 <= k < |order| && order[k] < |plans| && CarriersInPlan(plans[order[k]].covered, index, offset) > 0;
      if k < |rest| {
        assert rest[k] == order[k];
      }
    }
  }

  lemma PlansAreGood(targets: seq<PollTarget>, options: CoalescingOptions)
    requires Placed(targets) && WithinProtocol(options)
    ensures var plans := Plans(targets, options);
            && Answerable(plans)
            && AllGood(targets, plans)
  {
    PlansFit(targets, options);
    var plans := Plans(targets, options);
    forall p | 0 <= p < |plans|
      ensures plans[p].quantity <= MaxQuantity(plans[p].registerType)
      ensures GoodSlices(targets, plans[p], plans[p].covered)
    {
      assert PlanFits(targets, options, plans[p]) && PlanAligned(targets, plans[p]);
    }
  }

  /** What polling every target by itself would leave in its cache. */
  predicate HoldsMemory(memory: Memory, target: PollTarget, cache: TargetCache) {
    if IsBitType(target.registerType) then
      cache.bitValues == FlagsIn(memory, target.unitId, target.registerType, target.startAddress, target.quantity)
    else
      cache.registerValues == WordsIn(memory, target.unitId, target.registerType, target.startAddress, target.quantity)
  }

  /** The refinement: after every plan has been answered, in any order and possibly more
      than once, every target holds the device's memory over its own range. */
  lemma CoalescedRefinesNaive(memory: Memory, targets: seq<PollTarget>, options: CoalescingOptions, order: seq<nat>,
                              caches: seq<TargetCache>, index: nat)
    requires Placed(targets) && WithinProtocol(options) && CachesFit(targets, caches)
    requires Orders(order, Plans(targets, options)) && AnswersAll(order, Plans(targets, options))
    requires index < |targets|
    ensures Answerable(Plans(targets, options))
    ensures index < |PolledInOrder(memory, Plans(targets, options), order, caches)|
    ensures HoldsMemory(memory, targets[index], PolledInOrder(memory, Plans(targets, options), order, caches)[index])
  {
    var plans, target := Plans(targets, options), targets[index];
    PlansAreGood(targets, options);
    PolledFits(memory, targets, plans, order, caches);
    forall offset: nat | offset < target.quantity
      ensures CellOf(target, PolledInOrder(memory, plans, order, caches)[index], offset)
           == MemoryCell(memory, target, offset)
    {
      EveryOffsetAnswered(targets, options, order, index, offset);
      PolledCell(memory, targets, plans, order, caches, index, offset);
    }
    CellsAreMemory(memory, target, PolledInOrder(memory, plans, order, caches)[index]);
  }

  lemma EveryOffsetAnswered(targets: seq<PollTarget>, options: CoalescingOptions, order: seq<nat>, index: nat, offset: nat)
    requires Placed(targets) && WithinProtocol(options)
    requires AnswersAll(order, Plans(targets, options))
    requires index < |targets| && offset < targets[index].quantity
    ensures Answers(Plans(targets, options), order, index, offset)
  {
    var plans := Plans(targets, options);
    ExactCoverage(targets, options, index, offset);
    var p := SomePlanCarries(plans, index, offset);
    assert p in order;
    PlanAnswers(plans, order, p, index, offset);
  }

  lemma PlanAnswers(plans: seq<ReadRequestPlan>, order: seq<nat>, p: nat, index: nat, offset: int)
    requires p < |plans| && p in order && CarriersInPlan(plans[p].covered, index, offset) > 0
    ensures Answers(plans, order, index, offset)
  {
    var k :| 0 <= k < |order| && order[k] == p;
  }

  lemma {:induction false} PolledFits(memory: Memory, targets: seq<PollTarget>, plans: seq<ReadRequestPlan>,
                                      order: seq<nat>, caches: seq<TargetCache>)
    requires Orders(order, plans) && Answerable(plans)
    requires CachesFit(targets, caches)
    ensures CachesFit(targets, PolledInOrder(memory, plans, order, caches))
  {
    if order != [] {
      hide Polled, CachesFit, Answerable;
      var last := |order| - 1;
      PolledFits(memory, targets, plans, order[..last], caches);
      PolledOnceFits(memory, targets, plans[order[last]], PolledInOrder(memory, plans, order[..last], caches));
    }
  }

  lemma PolledOnceFits(memory: Memory, targets: seq<PollTarget>, plan: ReadRequestPlan, caches: seq<TargetCache>)
    requires plan.quantity <= MaxQuantity(plan.registerType) && CachesFit(targets, caches)
    ensures CachesFit(targets, Polled(memory, plan, caches))
  {
    PolledIsScatter(memory, plan, caches);
    ApplySlicesFit(targets, caches, plan.covered, MemoryValues(memory, plan));
  }

  lemma CellsAreMemory(memory: Memory, target: PollTarget, cache: TargetCache)
    requires CacheFits(target, cache)
    requires forall offset: nat :: offset < target.quantity ==>
               CellOf(target, cache, offset) == MemoryCell(memory, target, offset)
    ensures HoldsMemory(memory, target, cache)
  {
    if IsBitType(target.registerType) {
      forall k: nat | k < target.quantity
        ensures cache.bitValues[k] == memory.flags(target.unitId, target.registerType, target.startAddress + k)
      {
        assert CellOf(target, cache, k) == MemoryCell(memory, target, k);
      }
    } else {
      forall k: nat | k < target.quantity
        ensures cache.registerValues[k] == WordAt(memory, target.unitId, target.registerType, target.startAddress + k)
      {
        assert CellOf(target, cache, k) == MemoryCell(memory, target, k);
      }
    }
  }
}
