/** The poll engine as a value, linked to the manager it sends through. The `Record` part
    is what only the proofs read. */
module Polling {
  import opened Numbers
  import opened RegisterTypes
  import opened ReadCoalescer
  import opened PduCodec
  import opened Caches
  import opened Transactions

  datatype Signal =
    | RegistersUpdated(targetIndex: nat, startAddress: u16, registers: seq<u16>)
    | BitsUpdated(targetIndex: nat, startAddress: u16, bits: seq<bool>)
    | PollFailed
    | TargetFailed(targetIndex: nat)
    | CycleCompleted

  /** A finished cycle: how many plans it had, which ones settled in which order, and how
      often a request of the cycle went out. */
  datatype Cycle = Cycle(planCount: nat, settled: seq<nat>, transmissions: int)

  /** `settled`: plans settled in this cycle. `mark`: poll transmissions when it began.
      `immediate`: what an engine would have emitted that does so on every response, since
      the last retarget. `since`: length of the signal log at the last retarget.
      `retargetedAt`: requests sent before it. */
  datatype Record = Record(
    settled: seq<nat>,
    mark: nat,
    completed: seq<Cycle>,
    immediate: seq<Signal>,
    since: nat,
    retargetedAt: nat)

  datatype Engine = Engine(
    options: CoalescingOptions,
    maxInFlight: int,
    targets: seq<PollTarget>,
    plans: seq<ReadRequestPlan>,
    caches: seq<TargetCache>,
    running: bool,
    generation: u32,
    nextPlan: nat,
    outstanding: nat,
    intervalArmed: bool,
    flushArmed: bool,
    signals: seq<Signal>,
    record: Record)

  datatype Link = Link(m: Manager, e: Engine)

  // ----- correlation ids -----

  const GENERATION_UNIT: nat := 0x1_0000_0000

  function CorrelationId(generation: u32, planIndex: nat): nat {
    generation * GENERATION_UNIT + Truncate32(planIndex)
  }

  predicate IsGeneration(correlationId: nat, generation: u32) {
    Truncate32(correlationId / GENERATION_UNIT) == generation
  }

  /** The low half, read back as a signed 32-bit integer. */
  function PlanIndexOf(correlationId: nat): int {
    var low := correlationId % GENERATION_UNIT;
    if low < 0x8000_0000 then low else low - GENERATION_UNIT
  }

  // ----- issuing requests -----

  /** Serial lines cannot pipeline. */
  function WindowSize(mode: FramingMode, maxInFlight: int): int {
    if mode == Tcp then maxInFlight else 1
  }

  function Window(l: Link): int {
    WindowSize(l.m.mode, l.e.maxInFlight)
  }

  function IssueNext(l: Link): Link
    requires l.e.nextPlan < |l.e.plans|
  {
    var plan := l.e.plans[l.e.nextPlan];
    Link(Send(l.m, plan.unitId, PlanPdu(plan), CorrelationId(l.e.generation, l.e.nextPlan)),
         l.e.(outstanding := l.e.outstanding + 1, nextPlan := l.e.nextPlan + 1))
  }

  predicate CanIssue(l: Link) {
    l.e.running && l.e.nextPlan < |l.e.plans| && l.e.outstanding < Window(l)
  }

  function Pump(l: Link): (r: Link)
    ensures r.m.receiveBuffer == l.m.receiveBuffer
    decreases |l.e.plans| - l.e.nextPlan
  {
    if CanIssue(l) then Pump(IssueNext(l)) else l
  }

  /** Transmissions so far that belong to polls of this generation. */
  function PollTransmissions(wire: seq<Transmission>, generation: u32): nat {
    if wire == [] then 0
    else
      PollTransmissions(wire[..|wire| - 1], generation)
      + if IsGeneration(wire[|wire| - 1].correlationId, generation) then 1 else 0
  }

  function Rewound(l: Link): Link {
    l.(e := l.e.(nextPlan := 0, outstanding := 0,
                 record := l.e.record.(settled := [], mark := PollTransmissions(l.m.wire, l.e.generation))))
  }

  function BeginCycle(l: Link): Link {
    if !l.e.running || l.e.plans == [] then l else Pump(Rewound(l))
  }

  // ----- settling requests -----

  /** `planIndex` only feeds the record. */
  function Settle(e: Engine, planIndex: int): Engine {
    e.(outstanding := Max(0, e.outstanding - 1),
       record := if planIndex < 0 then e.record else e.record.(settled := e.record.settled + [planIndex]))
  }

  predicate CycleFinished(l: Link) {
    l.e.nextPlan >= |l.e.plans| && l.e.outstanding == 0
  }

  function FinishCycle(l: Link): Link {
    var cycle := Cycle(|l.e.plans|, l.e.record.settled,
                       PollTransmissions(l.m.wire, l.e.generation) - l.e.record.mark);
    l.(e := l.e.(signals := l.e.signals + [CycleCompleted],
                 intervalArmed := l.e.running || l.e.intervalArmed,
                 record := l.e.record.(completed := l.e.record.completed + [cycle])))
  }

  function NoteRequestSettled(l: Link, planIndex: int): Link {
    var pumped := Pump(l.(e := Settle(l.e, planIndex)));
    if CycleFinished(pumped) then FinishCycle(pumped) else pumped
  }

  // ----- what a response or a failure does to the caches -----

  function UpdateOf(targets: seq<PollTarget>, caches: seq<TargetCache>, i: nat): Signal
    requires i < |targets| && i < |caches|
  {
    if IsBitType(targets[i].registerType) then BitsUpdated(i, targets[i].startAddress, caches[i].bitValues)
    else RegistersUpdated(i, targets[i].startAddress, caches[i].registerValues)
  }

  /** One update for every slice, as an engine without batching would emit them. */
  function ImmediateUpdates(targets: seq<PollTarget>, caches: seq<TargetCache>, covered: seq<CoveredTarget>): seq<Signal> {
    if covered == [] then []
    else
      var last := covered[|covered| - 1];
      ImmediateUpdates(targets, caches, covered[..|covered| - 1])
      + if last.targetIndex < |targets| && last.targetIndex < |caches| then [UpdateOf(targets, caches, last.targetIndex)]
        else []
  }

  function FailedTargets(covered: seq<CoveredTarget>): seq<Signal> {
    seq(|covered|, k requires 0 <= k < |covered| => TargetFailed(covered[k].targetIndex))
  }

  function ReportFailure(e: Engine, covered: seq<CoveredTarget>): Engine {
    e.(signals := e.signals + [PollFailed] + FailedTargets(covered))
  }

  function StoreValues(e: Engine, covered: seq<CoveredTarget>, values: Values): Engine {
    var caches := ApplySlices(e.caches, covered, values);
    e.(caches := caches,
       flushArmed := e.flushArmed || covered != [],
       record := e.record.(immediate := e.record.immediate + ImmediateUpdates(e.targets, caches, covered)))
  }

  function ApplyPlanResponse(e: Engine, plan: ReadRequestPlan, pdu: seq<byte>): Engine {
    match DecodePlanResponse(plan, pdu)
    case Ok(values) => StoreValues(e, plan.covered, values)
    case _ => ReportFailure(e, plan.covered)
  }

  function UseReply(e: Engine, planIndex: int, pdu: seq<byte>): Engine {
    if 0 <= planIndex < |e.plans| then ApplyPlanResponse(e, e.plans[planIndex], pdu) else e
  }

  function HandleResponse(l: Link, correlationId: nat, pdu: seq<byte>): Link {
    if !l.e.running || !IsGeneration(correlationId, l.e.generation) then l
    else
      var index := PlanIndexOf(correlationId);
      NoteRequestSettled(l.(e := UseReply(l.e, index, pdu)), index)
  }

  function HandleFailure(l: Link, correlationId: nat): Link {
    if !l.e.running || !IsGeneration(correlationId, l.e.generation) then l
    else
      var index := PlanIndexOf(correlationId);
      var covered := if 0 <= index < |l.e.plans| then l.e.plans[index].covered else [];
      NoteRequestSettled(l.(e := ReportFailure(l.e, covered)), index)
  }

  // ----- the flush -----

  /** One update for each dirty target among the first n. */
  function DirtyUpdates(targets: seq<PollTarget>, caches: seq<TargetCache>, n: nat): seq<Signal>
    requires n <= |caches| <= |targets|
  {
    if n == 0 then []
    else
      DirtyUpdates(targets, caches, n - 1)
      + if caches[n - 1].dirty then [UpdateOf(targets, caches, n - 1)] else []
  }

  function Cleaned(caches: seq<TargetCache>): (r: seq<TargetCache>)
    ensures |r| == |caches|
  {
    seq(|caches|, i requires 0 <= i < |caches| => caches[i].(dirty := false))
  }

  function Flush(e: Engine): Engine
    requires |e.caches| == |e.targets|
  {
    e.(flushArmed := false,
       caches := Cleaned(e.caches),
       signals := e.signals + DirtyUpdates(e.targets, e.caches, |e.caches|))
  }

  // ----- user calls -----

  /** A new configuration: old requests dropped, plans and caches built anew. */
  function Configure(l: Link, targets: seq<PollTarget>): Link
    requires l.e.options.Usable()
  {
    Link(CancelAll(l.m),
         l.e.(targets := targets,
              generation := Truncate32(l.e.generation + 1),
              intervalArmed := false,
              plans := Plans(targets, l.e.options),
              caches := FreshCaches(targets),
              record := l.e.record.(immediate := [], since := |l.e.signals|, retargetedAt := l.m.sent)))
  }

  function SetTargets(l: Link, targets: seq<PollTarget>): Link
    requires l.e.options.Usable()
  {
    if l.e.running then BeginCycle(Configure(l, targets)) else Configure(l, targets)
  }

  function SetCoalescingOptions(e: Engine, options: CoalescingOptions): Engine
    requires options.Usable()
  {
    e.(options := options, plans := Plans(e.targets, options))
  }

  function Start(l: Link): Link {
    if l.e.running then l else BeginCycle(l.(e := l.e.(running := true)))
  }

  function Stop(l: Link): Link {
    Link(CancelAll(l.m), l.e.(running := false, intervalArmed := false, flushArmed := false, outstanding := 0))
  }

  function IntervalFires(l: Link): Link {
    BeginCycle(l.(e := l.e.(intervalArmed := false)))
  }
}
