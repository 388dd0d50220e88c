/** The last values read for each target, and how a plan's response is scattered over them. */
module Caches {
  import opened Numbers
  import opened RegisterTypes
  import opened ReadCoalescer
  import opened PduCodec

  datatype TargetCache = TargetCache(registerValues: seq<u16>, bitValues: seq<bool>, dirty: bool)

  /** What a response decodes to. */
  datatype Values = Words(words: seq<u16>) | Flags(flags: seq<bool>)

  function FreshCache(target: PollTarget): TargetCache {
    if IsBitType(target.registerType) then TargetCache([], seq(target.quantity, _ => false), false)
    else TargetCache(seq(target.quantity, _ => 0), [], false)
  }

  function FreshCaches(targets: seq<PollTarget>): seq<TargetCache> {
    seq(|targets|, i requires 0 <= i < |targets| => FreshCache(targets[i]))
  }

  /** Each target has its cache, with room for exactly its values. */
  predicate CachesFit(targets: seq<PollTarget>, caches: seq<TargetCache>) {
    && |caches| == |targets|
    && forall i :: 0 <= i < |targets| ==> CacheFits(targets[i], caches[i])
  }

  predicate CacheFits(target: PollTarget, cache: TargetCache) {
    if IsBitType(target.registerType) then |cache.bitValues| == target.quantity
    else |cache.registerValues| == target.quantity
  }

  /** The request a plan is sent as. */
  function PlanPdu(plan: ReadRequestPlan): seq<byte> {
    EncodeReadRequest(ReadFunctionCodeFor(plan.registerType), plan.startAddress, plan.quantity)
  }

  /** The response decoder a plan's register type asks for. */
  function DecodePlanResponse(plan: ReadRequestPlan, pdu: seq<byte>): DecodeResult<Values> {
    if IsBitType(plan.registerType) then
      match DecodedBits(pdu, ReadFunctionCodeFor(plan.registerType), plan.quantity)
      case Ok(flags) => Ok(Flags(flags))
      case Malformed(reason) => Malformed(reason)
      case ExceptionResponse(original, code) => ExceptionResponse(original, code)
    else
      match DecodedRegisters(pdu, ReadFunctionCodeFor(plan.registerType))
      case Ok(words) => Ok(Words(words))
      case Malformed(reason) => Malformed(reason)
      case ExceptionResponse(original, code) => ExceptionResponse(original, code)
  }

  /** Element k of a decoded list. The register decoder is not told how many values were
      asked for, so a reply can be too short for its plan; reading behind its end is
      undefined in the program, and stands here as the filler. `EnoughFor` says exactly
      when it does not happen. */
  function At<T>(values: seq<T>, k: int, filler: T): T {
    if 0 <= k < |values| then values[k] else filler
  }

  function Overwrite<T>(destination: seq<T>, c: CoveredTarget, source: seq<T>, filler: T): (r: seq<T>)
    ensures |r| == |destination|
  {
    seq(|destination|, k requires 0 <= k < |destination| =>
          if c.offsetInTarget <= k < c.offsetInTarget + c.count
          then At(source, c.offsetInPlan + (k - c.offsetInTarget), filler)
          else destination[k])
  }

  function StoreSlice(cache: TargetCache, c: CoveredTarget, values: Values): TargetCache {
    match values
    case Words(words) => cache.(registerValues := Overwrite(cache.registerValues, c, words, 0), dirty := true)
    case Flags(flags) => cache.(bitValues := Overwrite(cache.bitValues, c, flags, false), dirty := true)
  }

  function ApplySlice(caches: seq<TargetCache>, c: CoveredTarget, values: Values): (r: seq<TargetCache>)
    ensures |r| == |caches|
  {
    if c.targetIndex < |caches| then caches[c.targetIndex := StoreSlice(caches[c.targetIndex], c, values)] else caches
  }

  function ApplySlices(caches: seq<TargetCache>, covered: seq<CoveredTarget>, values: Values): (r: seq<TargetCache>)
    ensures |r| == |caches|
  {
    if covered == [] then caches
    else ApplySlice(ApplySlices(caches, covered[..|covered| - 1], values), covered[|covered| - 1], values)
  }

  /** All reads of the slices fall inside the decoded list. */
  predicate EnoughFor(covered: seq<CoveredTarget>, count: int) {
    forall k :: 0 <= k < |covered| ==> covered[k].offsetInPlan + covered[k].count <= count
  }

  lemma OverwriteFits(target: PollTarget, cache: TargetCache, c: CoveredTarget, values: Values)
    requires CacheFits(target, cache)
    ensures CacheFits(target, StoreSlice(cache, c, values))
  {
  }

  lemma {:induction false} ApplySlicesFit(targets: seq<PollTarget>, caches: seq<TargetCache>, covered: seq<CoveredTarget>,
                                          values: Values)
    requires CachesFit(targets, caches)
    ensures CachesFit(targets, ApplySlices(caches, covered, values))
  {
    if covered != [] {
      ApplySlicesFit(targets, caches, covered[..|covered| - 1], values);
      var before, c := ApplySlices(caches, covered[..|covered| - 1], values), covered[|covered| - 1];
      if c.targetIndex < |before| {
        OverwriteFits(targets[c.targetIndex], before[c.targetIndex], c, values);
      }
    }
  }

  lemma FreshCachesFit(targets: seq<PollTarget>)
    ensures CachesFit(targets, FreshCaches(targets))
  {
  }
}
