/** The transaction manager as a value: outstanding requests, the receive buffer, and two
    records that only the proofs read: what went out on the wire, and how every request
    ended. */
module Transactions {
  import opened Numbers
  import opened TcpFramer
  import opened RtuFramer

  datatype FramingMode = Tcp | Rtu

  /** `serial` counts the requests ever sent, without wrapping; the code has no such field
      and never decides by it. Deadlines are left to the environment, which says which
      requests have expired. */
  datatype PendingRequest = PendingRequest(
    serial: nat,
    transactionId: u16,
    unitId: u8,
    requestPdu: seq<byte>,
    correlationId: nat,
    attemptsSoFar: int)

  /** How a request ended; an answer is kept together with what had been asked. */
  datatype Outcome = Answered(unitId: u8, requestPdu: seq<byte>, responsePdu: seq<byte>) | TimedOut | Cancelled

  datatype Transmission = Transmission(serial: nat, correlationId: nat, frame: seq<byte>)

  datatype Manager = Manager(
    mode: FramingMode,
    retryCount: int,
    nextTransactionId: u16,
    pending: seq<PendingRequest>,
    receiveBuffer: seq<byte>,
    timeoutArmed: bool,
    sent: nat,
    wire: seq<Transmission>,
    outcomes: map<nat, Outcome>)

  function FrameFor(mode: FramingMode, request: PendingRequest): seq<byte> {
    if mode == Tcp then MbapFrame(request.transactionId, ToByte(request.unitId), request.requestPdu)
    else RtuFrame(ToByte(request.unitId), request.requestPdu)
  }

  function NewRequest(m: Manager, unitId: u8, pdu: seq<byte>, correlationId: nat): PendingRequest {
    PendingRequest(m.sent + 1, Truncate16(m.nextTransactionId + 1), unitId, pdu, correlationId, 1)
  }

  function Send(m: Manager, unitId: u8, pdu: seq<byte>, correlationId: nat): Manager {
    var request := NewRequest(m, unitId, pdu, correlationId);
    m.(nextTransactionId := request.transactionId,
       pending := m.pending + [request],
       timeoutArmed := true,
       sent := m.sent + 1,
       wire := m.wire + [Transmission(request.serial, correlationId, FrameFor(m.mode, request))])
  }

  /** Whether the request with this serial is among the listed ones. */
  predicate Listed(requests: seq<PendingRequest>, serial: nat) {
    exists i :: 0 <= i < |requests| && requests[i].serial == serial
  }

  function EndAll(outcomes: map<nat, Outcome>, requests: seq<PendingRequest>, outcome: Outcome): map<nat, Outcome>
    decreases |requests|
  {
    if requests == [] then outcomes
    else EndAll(outcomes[requests[0].serial := outcome], requests[1..], outcome)
  }

  function CancelAll(m: Manager): Manager {
    m.(pending := [], receiveBuffer := [], timeoutArmed := false,
       outcomes := EndAll(m.outcomes, m.pending, Cancelled))
  }

  function Without(pending: seq<PendingRequest>, i: nat): seq<PendingRequest>
    requires i < |pending|
  {
    pending[..i] + pending[i + 1..]
  }

  function AnswerTo(r: PendingRequest, responsePdu: seq<byte>): Outcome {
    Answered(r.unitId, r.requestPdu, responsePdu)
  }

  /** The bookkeeping half of `completeRequest`; the signal is sent by the stack. */
  function Complete(m: Manager, i: nat, responsePdu: seq<byte>): Manager
    requires i < |m.pending|
  {
    m.(pending := Without(m.pending, i),
       timeoutArmed := |m.pending| > 1,
       outcomes := m.outcomes[m.pending[i].serial := AnswerTo(m.pending[i], responsePdu)])
  }

  /** Position of the first request with this transaction id, or the length if there is none. */
  function FindTransaction(pending: seq<PendingRequest>, transactionId: u16): (i: nat)
    ensures i <= |pending|
    ensures i < |pending| ==> pending[i].transactionId == transactionId
  {
    if pending == [] then 0
    else if pending[0].transactionId == transactionId then 0
    else 1 + FindTransaction(pending[1..], transactionId)
  }

  // ----- the timeout sweep -----

  datatype Swept = Swept(kept: seq<PendingRequest>, resent: seq<PendingRequest>, exhausted: seq<PendingRequest>)

  /** The sweep visits the requests from the last to the first: an expired one is sent
      again while it has attempts left, and otherwise given up. */
  function Sweep(pending: seq<PendingRequest>, expired: set<nat>, retryCount: int): Swept {
    if pending == [] then Swept([], [], [])
    else
      var last := pending[|pending| - 1];
      var before := Sweep(pending[..|pending| - 1], expired, retryCount);
      if last.serial !in expired then before.(kept := before.kept + [last])
      else if last.attemptsSoFar <= retryCount then
        var again := last.(attemptsSoFar := last.attemptsSoFar + 1);
        before.(kept := before.kept + [again], resent := [again] + before.resent)
      else before.(exhausted := [last] + before.exhausted)
  }

  function Transmissions(mode: FramingMode, requests: seq<PendingRequest>): seq<Transmission> {
    seq(|requests|, i requires 0 <= i < |requests| =>
          Transmission(requests[i].serial, requests[i].correlationId, FrameFor(mode, requests[i])))
  }

  /** The state when the failures are about to be reported. */
  function AfterSweep(m: Manager, expired: set<nat>): Manager {
    var swept := Sweep(m.pending, expired, m.retryCount);
    m.(pending := swept.kept,
       timeoutArmed := swept.kept != [],
       wire := m.wire + Transmissions(m.mode, swept.resent),
       outcomes := EndAll(m.outcomes, swept.exhausted, TimedOut))
  }

  // ----- what every state keeps -----

  function MaxAttempts(retryCount: int): int {
    Max(1, retryCount + 1)
  }

  predicate SerialsAscend(pending: seq<PendingRequest>) {
    forall i, j :: 0 <= i < j < |pending| ==> pending[i].serial < pending[j].serial
  }

  predicate Numbered(pending: seq<PendingRequest>, sent: nat) {
    forall i :: 0 <= i < |pending| ==>
      1 <= pending[i].serial <= sent && pending[i].transactionId == Truncate16(pending[i].serial)
  }

  predicate AttemptsBounded(pending: seq<PendingRequest>, retryCount: int) {
    forall i :: 0 <= i < |pending| ==> 1 <= pending[i].attemptsSoFar <= MaxAttempts(retryCount)
  }

  /** Every request ever sent is either pending or has exactly one outcome. */
  ghost predicate Accounted(m: Manager) {
    forall serial: nat :: serial in m.outcomes <==> 1 <= serial <= m.sent && !Listed(m.pending, serial)
  }

  // ----- the wire -----

  /** How often the request with this serial has been transmitted. */
  function SentTimes(wire: seq<Transmission>, serial: nat): nat {
    if wire == [] then 0
    else SentTimes(wire[..|wire| - 1], serial) + if wire[|wire| - 1].serial == serial then 1 else 0
  }

  /** The attempts that the listed requests with this serial have counted. */
  function Attempts(requests: seq<PendingRequest>, serial: nat): int {
    if requests == [] then 0
    else
      var last := requests[|requests| - 1];
      Attempts(requests[..|requests| - 1], serial) + if last.serial == serial then last.attemptsSoFar else 0
  }

  /** A pending request has been transmitted as often as its counter says, every request at
      least once and at most as often as allowed, and one that timed out exactly that often. */
  predicate OnWire(wire: seq<Transmission>, pending: seq<PendingRequest>, outcomes: map<nat, Outcome>, sent: nat,
                   maxAttempts: int, serial: nat) {
    var n := SentTimes(wire, serial);
    && (Listed(pending, serial) ==> n == Attempts(pending, serial))
    && n <= maxAttempts
    && (n > 0 <==> 1 <= serial <= sent)
    && (serial in outcomes && outcomes[serial] == TimedOut ==> n == maxAttempts)
  }

  ghost predicate WireAccounted(m: Manager) {
    forall serial: nat :: OnWire(m.wire, m.pending, m.outcomes, m.sent, MaxAttempts(m.retryCount), serial)
  }

  /** Over TCP a frame begins with the id of its request. */
  predicate FrameNumbered(mode: FramingMode, t: Transmission) {
    mode == Tcp ==> |t.frame| >= HEADER_BYTE_COUNT && ReadBigEndian16(t.frame, 0) == Truncate16(t.serial)
  }

  /** The transmission is of this request. */
  predicate Carries(mode: FramingMode, t: Transmission, r: PendingRequest) {
    t.frame == FrameFor(mode, r) && t.correlationId == r.correlationId
  }

  /** Every transmission is of a numbered request, and each transmission with the number of a
      pending request is of that request. */
  predicate FaithfulTo(mode: FramingMode, wire: seq<Transmission>, pending: seq<PendingRequest>, sent: nat) {
    && (forall k :: 0 <= k < |wire| ==> 1 <= wire[k].serial <= sent && FrameNumbered(mode, wire[k]))
    && (forall k, i :: 0 <= k < |wire| && 0 <= i < |pending| && wire[k].serial == pending[i].serial ==>
          Carries(mode, wire[k], pending[i]))
  }

  ghost predicate ManagerValid(m: Manager) {
    && m.nextTransactionId == Truncate16(m.sent)
    && SerialsAscend(m.pending)
    && Numbered(m.pending, m.sent)
    && AttemptsBounded(m.pending, m.retryCount)
    && Accounted(m) && WireAccounted(m) && FaithfulTo(m.mode, m.wire, m.pending, m.sent)
    && m.timeoutArmed == (m.pending != [])
  }

  lemma ListedAppend(a: seq<PendingRequest>, b: seq<PendingRequest>, serial: nat)
    ensures Listed(a + b, serial) <==> Listed(a, serial) || Listed(b, serial)
  {
    if Listed(a, serial) {
      var i :| 0 <= i < |a| && a[i].serial == serial;
      assert (a + b)[i] == a[i];
    }
    if Listed(b, serial) {
      var i :| 0 <= i < |b| && b[i].serial == serial;
      assert (a + b)[|a| + i] == b[i];
    }
  }

  lemma ListedOne(request: PendingRequest, serial: nat)
    ensures Listed([request], serial) <==> request.serial == serial
  {
    if request.serial == serial {
      assert [request][0].serial == serial;
    }
  }

  lemma {:induction false} EndAllKeys(outcomes: map<nat, Outcome>, requests: seq<PendingRequest>, outcome: Outcome,
                                      serial: nat)
    ensures serial in EndAll(outcomes, requests, outcome) <==> serial in outcomes || Listed(requests, serial)
    decreases |requests|
  {
    if requests != [] {
      EndAllKeys(outcomes[requests[0].serial := outcome], requests[1..], outcome, serial);
      assert requests == [requests[0]] + requests[1..];
      ListedAppend([requests[0]], requests[1..], serial);
      ListedOne(requests[0], serial);
    }
  }

  lemma SentTimesSnoc(wire: seq<Transmission>, t: Transmission, serial: nat)
    ensures SentTimes(wire + [t], serial) == SentTimes(wire, serial) + if t.serial == serial then 1 else 0
  {
    assert (wire + [t])[..|wire|] == wire;
  }

  lemma {:induction false} SentTimesAppend(a: seq<Transmission>, b: seq<Transmission>, serial: nat)
    ensures SentTimes(a + b, serial) == SentTimes(a, serial) + SentTimes(b, serial)
  {
    if b == [] {
      assert a + b == a;
    } else {
      SentTimesAppend(a, b[..|b| - 1], serial);
      assert (a + b)[..|a + b| - 1] == a + b[..|b| - 1];
    }
  }

  lemma {:induction false} AttemptsAppend(a: seq<PendingRequest>, b: seq<PendingRequest>, serial: nat)
    ensures Attempts(a + b, serial) == Attempts(a, serial) + Attempts(b, serial)
  {
    if b == [] {
      assert a + b == a;
    } else {
      AttemptsAppend(a, b[..|b| - 1], serial);
      assert (a + b)[..|a + b| - 1] == a + b[..|b| - 1];
    }
  }

  lemma AttemptsOne(r: PendingRequest, serial: nat)
    ensures Attempts([r], serial) == if r.serial == serial then r.attemptsSoFar else 0
  {
    assert [r][..0] == [];
  }

  lemma {:induction false} UnlistedAttempts(requests: seq<PendingRequest>, serial: nat)
    requires !Listed(requests, serial)
    ensures Attempts(requests, serial) == 0
  {
    if requests != [] {
      var rest, last := requests[..|requests| - 1], requests[|requests| - 1];
      assert requests == rest + [last];
      ListedAppend(rest, [last], serial);
      ListedOne(last, serial);
      UnlistedAttempts(rest, serial);
    }
  }

  /** With distinct serials, the sum is the one request's counter. */
  lemma {:induction false} ListedAttempts(requests: seq<PendingRequest>, serial: nat, retryCount: int)
    requires SerialsAscend(requests) && AttemptsBounded(requests, retryCount) && Listed(requests, serial)
    ensures 1 <= Attempts(requests, serial) <= MaxAttempts(retryCount)
  {
    var rest, last := requests[..|requests| - 1], requests[|requests| - 1];
    assert requests == rest + [last];
    ListedAppend(rest, [last], serial);
    ListedOne(last, serial);
    if last.serial == serial {
      UnlistedAttempts(rest, serial);
    } else {
      ListedAttempts(rest, serial, retryCount);
    }
  }

  lemma SendOnWire(m: Manager, unitId: u8, pdu: seq<byte>, correlationId: nat)
    requires ManagerValid(m)
    ensures WireAccounted(Send(m, unitId, pdu, correlationId))
  {
    var request, after := NewRequest(m, unitId, pdu, correlationId), Send(m, unitId, pdu, correlationId);
    hide FrameFor;
    forall serial: nat
      ensures OnWire(after.wire, after.pending, after.outcomes, after.sent, MaxAttempts(after.retryCount), serial)
    {
      assert OnWire(m.wire, m.pending, m.outcomes, m.sent, MaxAttempts(m.retryCount), serial);
      SentTimesSnoc(m.wire, Transmission(request.serial, correlationId, FrameFor(m.mode, request)), serial);
      ListedAppend(m.pending, [request], serial);
      ListedOne(request, serial);
      AttemptsAppend(m.pending, [request], serial);
      AttemptsOne(request, serial);
      if serial == request.serial {
        ListedNumbered(m, serial);
        UnlistedAttempts(m.pending, serial);
      }
    }
  }

  lemma RequestFrameNumbered(mode: FramingMode, r: PendingRequest)
    requires r.transactionId == Truncate16(r.serial)
    ensures FrameNumbered(mode, Transmission(r.serial, r.correlationId, FrameFor(mode, r)))
  {
    if mode == Tcp {
      var frame := FrameFor(mode, r);
      assert frame[0..2] == BigEndian16(r.transactionId);
      BigEndianRoundTrip(frame, 0, r.transactionId);
    }
  }

  lemma SendFaithful(m: Manager, unitId: u8, pdu: seq<byte>, correlationId: nat)
    requires FaithfulTo(m.mode, m.wire, m.pending, m.sent) && Numbered(m.pending, m.sent)
    requires m.nextTransactionId == Truncate16(m.sent)
    ensures var after := Send(m, unitId, pdu, correlationId);
            FaithfulTo(after.mode, after.wire, after.pending, after.sent)
  {
    hide FrameFor, FrameNumbered;
    var r := NewRequest(m, unitId, pdu, correlationId);
    RequestFrameNumbered(m.mode, r);
  }

  lemma SendValid(m: Manager, unitId: u8, pdu: seq<byte>, correlationId: nat)
    requires ManagerValid(m)
    ensures ManagerValid(Send(m, unitId, pdu, correlationId))
  {
    hide FrameFor, WireAccounted, FaithfulTo;
    var request := NewRequest(m, unitId, pdu, correlationId);
    assert request.transactionId == Truncate16(request.serial);
    SendOnWire(m, unitId, pdu, correlationId);
    SendFaithful(m, unitId, pdu, correlationId);
    forall serial: nat
      ensures serial in m.outcomes <==> 1 <= serial <= m.sent + 1 && !Listed(m.pending + [request], serial)
    {
      ListedAppend(m.pending, [request], serial);
      ListedOne(request, serial);
    }
  }

  lemma ListedNumbered(m: Manager, serial: nat)
    requires Numbered(m.pending, m.sent)
    ensures Listed(m.pending, serial) ==> 1 <= serial <= m.sent
  {
  }

  lemma CancelAllOnWire(m: Manager)
    requires ManagerValid(m)
    ensures WireAccounted(CancelAll(m))
  {
    var after := CancelAll(m);
    forall serial: nat
      ensures OnWire(after.wire, after.pending, after.outcomes, after.sent, MaxAttempts(after.retryCount), serial)
    {
      assert OnWire(m.wire, m.pending, m.outcomes, m.sent, MaxAttempts(m.retryCount), serial);
      EndAllKeys(m.outcomes, m.pending, Cancelled, serial);
      if Listed(m.pending, serial) {
        EndAllEnds(m.outcomes, m.pending, Cancelled, serial);
      } else if serial in m.outcomes {
        EndAllKeepsOthers(m.outcomes, m.pending, Cancelled, serial);
      }
    }
  }

  lemma CancelAllValid(m: Manager)
    requires ManagerValid(m)
    ensures ManagerValid(CancelAll(m))
  {
    CancelAllOnWire(m);
    forall serial: nat
      ensures serial in CancelAll(m).outcomes <==> 1 <= serial <= m.sent
    {
      EndAllKeys(m.outcomes, m.pending, Cancelled, serial);
      ListedNumbered(m, serial);
    }
  }

  lemma WithoutAt(pending: seq<PendingRequest>, i: nat)
    requires i < |pending|
    ensures forall k :: 0 <= k < |Without(pending, i)| ==> Without(pending, i)[k] == pending[if k < i then k else k + 1]
  {
  }

  lemma WithoutKeeps(pending: seq<PendingRequest>, i: nat, sent: nat, retryCount: int)
    requires SerialsAscend(pending) && Numbered(pending, sent) && AttemptsBounded(pending, retryCount)
    requires i < |pending|
    ensures SerialsAscend(Without(pending, i)) && Numbered(Without(pending, i), sent)
    ensures AttemptsBounded(Without(pending, i), retryCount)
  {
    WithoutAt(pending, i);
  }

  lemma OthersStayListed(pending: seq<PendingRequest>, i: nat, k: nat)
    requires i < |pending| && k < |pending| && k != i
    ensures Listed(Without(pending, i), pending[k].serial)
  {
    WithoutAt(pending, i);
    assert Without(pending, i)[if k < i then k else k - 1] == pending[k];
  }

  lemma ListedElsewhere(pending: seq<PendingRequest>, i: nat, serial: nat) returns (k: nat)
    requires i < |pending| && Listed(Without(pending, i), serial)
    ensures k < |pending| && k != i && pending[k].serial == serial
  {
    WithoutAt(pending, i);
    var j :| 0 <= j < |Without(pending, i)| && Without(pending, i)[j].serial == serial;
    k := if j < i then j else j + 1;
  }

  /** In an ascending list, removing one entry removes exactly its serial. */
  lemma WithoutListed(pending: seq<PendingRequest>, i: nat, serial: nat)
    requires SerialsAscend(pending) && i < |pending|
    ensures Listed(Without(pending, i), serial) <==> Listed(pending, serial) && serial != pending[i].serial
  {
    hide Without;
    if Listed(Without(pending, i), serial) {
      var k := ListedElsewhere(pending, i, serial);
      assert pending[k].serial != pending[i].serial;
    }
    if Listed(pending, serial) && serial != pending[i].serial {
      var k :| 0 <= k < |pending| && pending[k].serial == serial;
      OthersStayListed(pending, i, k);
    }
  }

  lemma CompleteOnWire(m: Manager, i: nat, responsePdu: seq<byte>)
    requires ManagerValid(m) && i < |m.pending|
    ensures WireAccounted(Complete(m, i, responsePdu))
  {
    var after, r := Complete(m, i, responsePdu), m.pending[i];
    forall serial: nat
      ensures OnWire(after.wire, after.pending, after.outcomes, after.sent, MaxAttempts(after.retryCount), serial)
    {
      assert OnWire(m.wire, m.pending, m.outcomes, m.sent, MaxAttempts(m.retryCount), serial);
      WithoutListed(m.pending, i, serial);
      assert m.pending == (m.pending[..i] + [r]) + m.pending[i + 1..];
      AttemptsAppend(m.pending[..i] + [r], m.pending[i + 1..], serial);
      AttemptsAppend(m.pending[..i], [r], serial);
      AttemptsAppend(m.pending[..i], m.pending[i + 1..], serial);
      AttemptsOne(r, serial);
    }
  }

  lemma FewerStillFaithful(mode: FramingMode, wire: seq<Transmission>, pending: seq<PendingRequest>, i: nat, sent: nat)
    requires FaithfulTo(mode, wire, pending, sent) && i < |pending|
    ensures FaithfulTo(mode, wire, Without(pending, i), sent)
  {
    hide FrameFor, FrameNumbered;
    WithoutAt(pending, i);
  }

  lemma CompleteValid(m: Manager, i: nat, responsePdu: seq<byte>)
    requires ManagerValid(m) && i < |m.pending|
    ensures ManagerValid(Complete(m, i, responsePdu))
  {
    WithoutKeeps(m.pending, i, m.sent, m.retryCount);
    CompleteOnWire(m, i, responsePdu);
    FewerStillFaithful(m.mode, m.wire, m.pending, i, m.sent);
    forall serial: nat
      ensures serial in Complete(m, i, responsePdu).outcomes
         <==> 1 <= serial <= m.sent && !Listed(Without(m.pending, i), serial)
    {
      WithoutListed(m.pending, i, serial);
      ListedNumbered(m, serial);
    }
  }

  // ----- the sweep keeps the accounts -----

  predicate SerialsBelow(requests: seq<PendingRequest>, serial: nat) {
    forall i :: 0 <= i < |requests| ==> requests[i].serial < serial
  }

  lemma {:induction false} SweptBelow(pending: seq<PendingRequest>, expired: set<nat>, retryCount: int, serial: nat)
    requires SerialsBelow(pending, serial)
    ensures SerialsBelow(Sweep(pending, expired, retryCount).kept, serial)
  {
    if pending != [] {
      SweptBelow(pending[..|pending| - 1], expired, retryCount, serial);
    }
  }

  lemma {:induction false} SweepKept(pending: seq<PendingRequest>, expired: set<nat>, retryCount: int, sent: nat)
    requires SerialsAscend(pending) && Numbered(pending, sent) && AttemptsBounded(pending, retryCount)
    ensures SerialsAscend(Sweep(pending, expired, retryCount).kept)
    ensures Numbered(Sweep(pending, expired, retryCount).kept, sent)
    ensures AttemptsBounded(Sweep(pending, expired, retryCount).kept, retryCount)
  {
    if pending != [] {
      var rest, last := pending[..|pending| - 1], pending[|pending| - 1];
      SweepKept(rest, expired, retryCount, sent);
      SweptBelow(rest, expired, retryCount, last.serial);
    }
  }

  /** The sweep splits the requests: each is kept or given up, and none is both. */
  lemma {:induction false} SweepSplits(pending: seq<PendingRequest>, expired: set<nat>, retryCount: int, serial: nat)
    requires SerialsAscend(pending)
    ensures Listed(pending, serial) <==>
              || Listed(Sweep(pending, expired, retryCount).kept, serial)
              || Listed(Sweep(pending, expired, retryCount).exhausted, serial)
    ensures !(Listed(Sweep(pending, expired, retryCount).kept, serial)
              && Listed(Sweep(pending, expired, retryCount).exhausted, serial))
  {
    if pending != [] {
      var rest, last := pending[..|pending| - 1], pending[|pending| - 1];
      var before := Sweep(rest, expired, retryCount);
      SweepSplits(rest, expired, retryCount, serial);
      assert pending == rest + [last];
      ListedAppend(rest, [last], serial);
      ListedOne(last, serial);
      var again := last.(attemptsSoFar := last.attemptsSoFar + 1);
      ListedOne(again, serial);
      ListedAppend(before.kept, [last], serial);
      ListedAppend(before.kept, [again], serial);
      ListedAppend([last], before.exhausted, serial);
    }
  }

  lemma {:induction false} TransmittedListed(mode: FramingMode, requests: seq<PendingRequest>, serial: nat)
    ensures SentTimes(Transmissions(mode, requests), serial) > 0 ==> Listed(requests, serial)
  {
    hide FrameFor;
    if requests != [] {
      var rest, last := requests[..|requests| - 1], requests[|requests| - 1];
      TransmittedListed(mode, rest, serial);
      assert Transmissions(mode, requests)[..|rest|] == Transmissions(mode, rest);
      assert requests == rest + [last];
      ListedAppend(rest, [last], serial);
      ListedOne(last, serial);
    }
  }

  lemma TransmissionsAppend(mode: FramingMode, a: seq<PendingRequest>, b: seq<PendingRequest>)
    ensures Transmissions(mode, a + b) == Transmissions(mode, a) + Transmissions(mode, b)
  {
    hide FrameFor;
  }

  lemma TransmittedOne(mode: FramingMode, r: PendingRequest, serial: nat)
    ensures SentTimes(Transmissions(mode, [r]), serial) == if r.serial == serial then 1 else 0
  {
    hide FrameFor;
    assert Transmissions(mode, [r]) == [] + [Transmission(r.serial, r.correlationId, FrameFor(mode, r))];
    SentTimesSnoc([], Transmission(r.serial, r.correlationId, FrameFor(mode, r)), serial);
  }

  /** What is sent again is kept, and counted. */
  lemma {:induction false} SweepTransmits(mode: FramingMode, pending: seq<PendingRequest>, expired: set<nat>,
                                          retryCount: int, serial: nat)
    ensures var swept := Sweep(pending, expired, retryCount);
            && Attempts(swept.kept, serial) + Attempts(swept.exhausted, serial)
               == Attempts(pending, serial) + SentTimes(Transmissions(mode, swept.resent), serial)
            && (Listed(swept.resent, serial) ==> Listed(swept.kept, serial))
  {
    hide Transmissions, FrameFor, Attempts, SentTimes, Listed;
    if pending == [] {
      NothingTransmitted(mode, serial);
    } else {
      var rest, last := pending[..|pending| - 1], pending[|pending| - 1];
      var before := Sweep(rest, expired, retryCount);
      var again := last.(attemptsSoFar := last.attemptsSoFar + 1);
      SweepTransmits(mode, rest, expired, retryCount, serial);
      assert pending == rest + [last];
      AttemptsAppend(rest, [last], serial);
      AttemptsOne(last, serial);
      AttemptsOne(again, serial);
      ListedOne(again, serial);
      if last.serial !in expired {
        AttemptsAppend(before.kept, [last], serial);
        ListedAppend(before.kept, [last], serial);
      } else if last.attemptsSoFar <= retryCount {
        AttemptsAppend(before.kept, [again], serial);
        ListedAppend(before.kept, [again], serial);
        ListedAppend([again], before.resent, serial);
        TransmissionsAppend(mode, [again], before.resent);
        SentTimesAppend(Transmissions(mode, [again]), Transmissions(mode, before.resent), serial);
        TransmittedOne(mode, again, serial);
      } else {
        AttemptsAppend([last], before.exhausted, serial);
      }
    }
  }

  lemma NothingTransmitted(mode: FramingMode, serial: nat)
    ensures SentTimes(Transmissions(mode, []), serial) == 0 && Attempts([], serial) == 0 && !Listed([], serial)
  {
  }

  lemma {:induction false} ExhaustedAttempts(pending: seq<PendingRequest>, expired: set<nat>, retryCount: int)
    requires AttemptsBounded(pending, retryCount)
    ensures forall i :: 0 <= i < |Sweep(pending, expired, retryCount).exhausted| ==>
              Sweep(pending, expired, retryCount).exhausted[i].attemptsSoFar == MaxAttempts(retryCount)
  {
    if pending != [] {
      ExhaustedAttempts(pending[..|pending| - 1], expired, retryCount);
    }
  }

  /** A request that is given up has used all its attempts. */
  lemma {:induction false} SumOfExhausted(exhausted: seq<PendingRequest>, serial: nat, attempts: int)
    requires forall i :: 0 <= i < |exhausted| ==> exhausted[i].attemptsSoFar == attempts
    requires attempts >= 1 && Listed(exhausted, serial)
    ensures Attempts(exhausted, serial) >= attempts
  {
    var rest, last := exhausted[..|exhausted| - 1], exhausted[|exhausted| - 1];
    assert exhausted == rest + [last];
    ListedAppend(rest, [last], serial);
    ListedOne(last, serial);
    if Listed(rest, serial) {
      SumOfExhausted(rest, serial, attempts);
    } else {
      UnlistedAttempts(rest, serial);
    }
  }

  lemma SweepOnWire(m: Manager, expired: set<nat>, serial: nat)
    requires ManagerValid(m)
    ensures var after := AfterSweep(m, expired);
            OnWire(after.wire, after.pending, after.outcomes, after.sent, MaxAttempts(after.retryCount), serial)
  {
    hide Sweep, EndAll, Transmissions, FrameFor, SentTimes, Attempts;
    var swept := Sweep(m.pending, expired, m.retryCount);
    assert OnWire(m.wire, m.pending, m.outcomes, m.sent, MaxAttempts(m.retryCount), serial);
    SentTimesAppend(m.wire, Transmissions(m.mode, swept.resent), serial);
    SweepTransmits(m.mode, m.pending, expired, m.retryCount, serial);
    TransmittedListed(m.mode, swept.resent, serial);
    SweepSplits(m.pending, expired, m.retryCount, serial);
    SweepKept(m.pending, expired, m.retryCount, m.sent);
    EndAllKeys(m.outcomes, swept.exhausted, TimedOut, serial);
    ListedNumbered(m, serial);
    if Listed(swept.kept, serial) {
      UnlistedAttempts(swept.exhausted, serial);
      ListedAttempts(swept.kept, serial, m.retryCount);
      assert serial !in m.outcomes;
    } else if Listed(swept.exhausted, serial) {
      UnlistedAttempts(swept.kept, serial);
      ExhaustedAttempts(m.pending, expired, m.retryCount);
      SumOfExhausted(swept.exhausted, serial, MaxAttempts(m.retryCount));
      ListedAttempts(m.pending, serial, m.retryCount);
    } else if serial in m.outcomes {
      EndAllKeepsOthers(m.outcomes, swept.exhausted, TimedOut, serial);
    }
  }

  lemma {:induction false} ResentBelow(pending: seq<PendingRequest>, expired: set<nat>, retryCount: int, serial: nat)
    requires SerialsBelow(pending, serial)
    ensures SerialsBelow(Sweep(pending, expired, retryCount).resent, serial)
  {
    if pending != [] {
      ResentBelow(pending[..|pending| - 1], expired, retryCount, serial);
    }
  }

  lemma FaithfulSnoc(mode: FramingMode, wire: seq<Transmission>, pending: seq<PendingRequest>, r: PendingRequest, sent: nat)
    requires FaithfulTo(mode, wire, pending, sent)
    requires forall k :: 0 <= k < |wire| && wire[k].serial == r.serial ==> Carries(mode, wire[k], r)
    ensures FaithfulTo(mode, wire, pending + [r], sent)
  {
    hide FrameFor, FrameNumbered;
  }

  lemma FaithfulCons(mode: FramingMode, t: Transmission, wire: seq<Transmission>, pending: seq<PendingRequest>, sent: nat)
    requires FaithfulTo(mode, wire, pending, sent) && 1 <= t.serial <= sent && FrameNumbered(mode, t)
    requires forall i :: 0 <= i < |pending| && pending[i].serial == t.serial ==> Carries(mode, t, pending[i])
    ensures FaithfulTo(mode, [t] + wire, pending, sent)
  {
    hide FrameFor, FrameNumbered;
  }

  lemma FaithfulBoth(mode: FramingMode, a: seq<Transmission>, b: seq<Transmission>, pending: seq<PendingRequest>, sent: nat)
    requires FaithfulTo(mode, a, pending, sent) && FaithfulTo(mode, b, pending, sent)
    ensures FaithfulTo(mode, a + b, pending, sent)
  {
    hide FrameFor, FrameNumbered;
  }

  /** What was transmitted is the frame of whatever request the sweep keeps under its number. */
  lemma {:induction false} KeptFaithful(mode: FramingMode, wire: seq<Transmission>, pending: seq<PendingRequest>,
                                        expired: set<nat>, retryCount: int, sent: nat)
    requires FaithfulTo(mode, wire, pending, sent)
    ensures FaithfulTo(mode, wire, Sweep(pending, expired, retryCount).kept, sent)
  {
    hide FrameNumbered;
    if pending != [] {
      var rest, last := pending[..|pending| - 1], pending[|pending| - 1];
      var before, again := Sweep(rest, expired, retryCount), last.(attemptsSoFar := last.attemptsSoFar + 1);
      KeptFaithful(mode, wire, rest, expired, retryCount, sent);
      FaithfulSnoc(mode, wire, before.kept, last, sent);
      assert FrameFor(mode, again) == FrameFor(mode, last);
      FaithfulSnoc(mode, wire, before.kept, again, sent);
    }
  }

  lemma TransmissionsBelow(mode: FramingMode, requests: seq<PendingRequest>, serial: nat)
    requires SerialsBelow(requests, serial)
    ensures forall k :: 0 <= k < |Transmissions(mode, requests)| ==> Transmissions(mode, requests)[k].serial < serial
  {
    hide FrameFor;
  }

  /** And so is what it transmits again. */
  lemma {:induction false} ResentFaithful(mode: FramingMode, pending: seq<PendingRequest>, expired: set<nat>,
                                          retryCount: int, sent: nat)
    requires SerialsAscend(pending) && Numbered(pending, sent)
    ensures var swept := Sweep(pending, expired, retryCount);
            FaithfulTo(mode, Transmissions(mode, swept.resent), swept.kept, sent)
  {
    hide FrameFor, FrameNumbered, Transmissions, FaithfulTo;
    if pending == [] {
      NothingFaithful(mode, sent);
    } else {
      var rest, last := pending[..|pending| - 1], pending[|pending| - 1];
      var before, again := Sweep(rest, expired, retryCount), last.(attemptsSoFar := last.attemptsSoFar + 1);
      ResentFaithful(mode, rest, expired, retryCount, sent);
      SweptBelow(rest, expired, retryCount, last.serial);
      ResentBelow(rest, expired, retryCount, last.serial);
      TransmissionsBelow(mode, before.resent, last.serial);
      FaithfulSnoc(mode, Transmissions(mode, before.resent), before.kept, last, sent);
      FaithfulSnoc(mode, Transmissions(mode, before.resent), before.kept, again, sent);
      var t := Transmission(again.serial, again.correlationId, FrameFor(mode, again));
      RequestFrameNumbered(mode, again);
      FaithfulCons(mode, t, Transmissions(mode, before.resent), before.kept + [again], sent);
      TransmissionsCons(mode, again, before.resent);
    }
  }

  lemma NothingFaithful(mode: FramingMode, sent: nat)
    ensures FaithfulTo(mode, Transmissions(mode, []), [], sent)
  {
  }

  lemma TransmissionsCons(mode: FramingMode, r: PendingRequest, requests: seq<PendingRequest>)
    ensures Transmissions(mode, [r] + requests)
         == [Transmission(r.serial, r.correlationId, FrameFor(mode, r))] + Transmissions(mode, requests)
  {
    hide FrameFor;
  }

  lemma SweepFaithful(m: Manager, expired: set<nat>)
    requires SerialsAscend(m.pending) && Numbered(m.pending, m.sent) && FaithfulTo(m.mode, m.wire, m.pending, m.sent)
    ensures var after := AfterSweep(m, expired);
            FaithfulTo(after.mode, after.wire, after.pending, after.sent)
  {
    hide Sweep, Transmissions, FaithfulTo, EndAll;
    KeptFaithful(m.mode, m.wire, m.pending, expired, m.retryCount, m.sent);
    ResentFaithful(m.mode, m.pending, expired, m.retryCount, m.sent);
    var swept := Sweep(m.pending, expired, m.retryCount);
    FaithfulBoth(m.mode, m.wire, Transmissions(m.mode, swept.resent), swept.kept, m.sent);
  }

  lemma AfterSweepValid(m: Manager, expired: set<nat>)
    requires ManagerValid(m)
    ensures ManagerValid(AfterSweep(m, expired))
  {
    hide FaithfulTo;
    SweepKept(m.pending, expired, m.retryCount, m.sent);
    SweepFaithful(m, expired);
    var swept := Sweep(m.pending, expired, m.retryCount);
    forall serial: nat
      ensures var after := AfterSweep(m, expired);
              OnWire(after.wire, after.pending, after.outcomes, after.sent, MaxAttempts(after.retryCount), serial)
    {
      SweepOnWire(m, expired, serial);
    }
    forall serial: nat
      ensures serial in AfterSweep(m, expired).outcomes <==> 1 <= serial <= m.sent && !Listed(swept.kept, serial)
    {
      SweepSplits(m.pending, expired, m.retryCount, serial);
      EndAllKeys(m.outcomes, swept.exhausted, TimedOut, serial);
      ListedNumbered(m, serial);
    }
  }

  /** Outstanding 16-bit ids are pairwise distinct as long as every outstanding request is
      among the last 65536 sent. */
  lemma TransactionIdsDistinct(m: Manager, i: nat, j: nat)
    requires ManagerValid(m) && i < j < |m.pending|
    requires m.sent - m.pending[i].serial < 0x1_0000
    ensures m.pending[i].transactionId != m.pending[j].transactionId
  {
    assert m.pending[i].serial < m.pending[j].serial;
  }

  /** A reply to request `serial`, one of the last 65536 sent, is matched to that request
      or, if that one has already ended, to none: never to another. */
  lemma ReplyMatchesItsRequest(m: Manager, serial: nat, transactionId: u16)
    requires ManagerValid(m)
    requires 1 <= serial <= m.sent && m.sent - serial < 0x1_0000
    requires transactionId == Truncate16(serial)
    requires forall i :: 0 <= i < |m.pending| ==> m.sent - m.pending[i].serial < 0x1_0000
    ensures var i := FindTransaction(m.pending, transactionId);
            if Listed(m.pending, serial) then i < |m.pending| && m.pending[i].serial == serial
            else i == |m.pending|
  {
    var i := FindTransaction(m.pending, transactionId);
    if i < |m.pending| {
      SameIdSameSerial(m.pending[i].serial, serial, m.sent);
    } else if Listed(m.pending, serial) {
      var k :| 0 <= k < |m.pending| && m.pending[k].serial == serial;
      FindTransactionFinds(m.pending, transactionId, k);
    }
  }

  lemma {:induction false} FindTransactionFinds(pending: seq<PendingRequest>, transactionId: u16, k: nat)
    requires k < |pending| && pending[k].transactionId == transactionId
    ensures FindTransaction(pending, transactionId) <= k
  {
    if pending[0].transactionId != transactionId {
      FindTransactionFinds(pending[1..], transactionId, k - 1);
    }
  }

  lemma SameIdSameSerial(a: nat, b: nat, sent: nat)
    requires a <= sent && sent - a < 0x1_0000
    requires b <= sent && sent - b < 0x1_0000
    requires Truncate16(a) == Truncate16(b)
    ensures a == b
  {
  }

  // ----- an outcome is final -----

  ghost predicate OutcomesKept(before: Manager, after: Manager) {
    forall serial: nat :: serial in before.outcomes ==>
      serial in after.outcomes && after.outcomes[serial] == before.outcomes[serial]
  }

  lemma {:induction false} EndAllKeepsOthers(outcomes: map<nat, Outcome>, requests: seq<PendingRequest>, outcome: Outcome,
                                             serial: nat)
    requires serial in outcomes && !Listed(requests, serial)
    ensures serial in EndAll(outcomes, requests, outcome) && EndAll(outcomes, requests, outcome)[serial] == outcomes[serial]
    decreases |requests|
  {
    if requests != [] {
      assert requests[0].serial != serial;
      assert requests == [requests[0]] + requests[1..];
      ListedAppend([requests[0]], requests[1..], serial);
      EndAllKeepsOthers(outcomes[requests[0].serial := outcome], requests[1..], outcome, serial);
    }
  }

  lemma {:induction false} EndAllEnds(outcomes: map<nat, Outcome>, requests: seq<PendingRequest>, outcome: Outcome,
                                      serial: nat)
    requires Listed(requests, serial)
    ensures serial in EndAll(outcomes, requests, outcome) && EndAll(outcomes, requests, outcome)[serial] == outcome
    decreases |requests|
  {
    var rest, ended := requests[1..], outcomes[requests[0].serial := outcome];
    assert requests == [requests[0]] + rest;
    ListedAppend([requests[0]], rest, serial);
    ListedOne(requests[0], serial);
    if Listed(rest, serial) {
      EndAllEnds(ended, rest, outcome, serial);
    } else {
      EndAllKeepsOthers(ended, rest, outcome, serial);
    }
  }

  /** None of the manager's steps changes how an ended request ended. */
  lemma OutcomesAreFinal(m: Manager, i: nat, responsePdu: seq<byte>, expired: set<nat>)
    requires ManagerValid(m)
    ensures OutcomesKept(m, CancelAll(m)) && OutcomesKept(m, AfterSweep(m, expired))
    ensures i < |m.pending| ==> OutcomesKept(m, Complete(m, i, responsePdu))
  {
    var swept := Sweep(m.pending, expired, m.retryCount);
    forall serial: nat | serial in m.outcomes
      ensures serial in CancelAll(m).outcomes && CancelAll(m).outcomes[serial] == m.outcomes[serial]
      ensures serial in AfterSweep(m, expired).outcomes && AfterSweep(m, expired).outcomes[serial] == m.outcomes[serial]
    {
      SweepSplits(m.pending, expired, m.retryCount, serial);
      EndAllKeepsOthers(m.outcomes, m.pending, Cancelled, serial);
      EndAllKeepsOthers(m.outcomes, swept.exhausted, TimedOut, serial);
    }
    if i < |m.pending| {
      assert Listed(m.pending, m.pending[i].serial);
    }
  }
}
