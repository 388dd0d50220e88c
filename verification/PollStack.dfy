/** Manager, poll engine and controller together: what every external event does to all
    three, and runs of such events. A reply or a failure reaches the engine first and the
    controller after it, in the order in which they were connected. */
module PollStack {
  import opened Numbers
  import opened RegisterTypes
  import opened ReadCoalescer
  import opened TcpFramer
  import opened RtuFramer
  import opened Transactions
  import opened Polling
  import opened OneShots
  import opened Caches

  datatype Stack = Stack(link: Link, c: Controller)

  // ----- replies -----

  /** The pending request at `i` is answered. */
  function Answer(s: Stack, i: nat, pdu: seq<byte>): (r: Stack)
    requires i < |s.link.m.pending|
    ensures r.link.m.receiveBuffer == s.link.m.receiveBuffer
  {
    var correlationId := s.link.m.pending[i].correlationId;
    Stack(HandleResponse(s.link.(m := Complete(s.link.m, i, pdu)), correlationId, pdu),
          ControllerResponse(s.c, correlationId, pdu))
  }

  /** A frame taken off the buffer: its size and what it carries. RTU has no transaction
      ids, and drops a frame whose checksum is wrong. */
  datatype Arrival = Reply(size: nat, transactionId: Option<u16>, pdu: seq<byte>) | Garbled(size: nat)

  function NextArrival(mode: FramingMode, buffer: seq<byte>): (r: Option<Arrival>)
    ensures r.Some? ==> 0 < r.value.size <= |buffer|
  {
    if mode == Tcp then
      match DecodeMbapFrame(buffer)
      case None => None
      case Some(frame) => Some(Reply(frame.frameByteCount, Some(frame.transactionId), frame.pdu))
    else
      var expectedLength := ExpectedRtuResponseLength(buffer);
      if expectedLength == 0 || |buffer| < expectedLength then None
      else
        match DecodeRtuFrame(buffer[..expectedLength])
        case None => Some(Garbled(expectedLength))
        case Some(frame) => Some(Reply(expectedLength, None, frame.pdu))
  }

  /** The pending request a reply answers: found by transaction id, or the oldest one. */
  function MatchOf(pending: seq<PendingRequest>, transactionId: Option<u16>): (i: nat)
    ensures i <= |pending|
  {
    match transactionId
    case Some(id) => FindTransaction(pending, id)
    case None => 0
  }

  function Deliver(s: Stack, a: Arrival): (r: Stack)
    ensures r.link.m.receiveBuffer == s.link.m.receiveBuffer
  {
    match a
    case Garbled(_) => s
    case Reply(_, transactionId, pdu) =>
      var i := MatchOf(s.link.m.pending, transactionId);
      if i < |s.link.m.pending| then Answer(s, i, pdu) else s
  }

  function WithBuffer(s: Stack, buffer: seq<byte>): Stack {
    s.(link := s.link.(m := s.link.m.(receiveBuffer := buffer)))
  }

  function Consume(s: Stack): Stack
    decreases |s.link.m.receiveBuffer|
  {
    var m := s.link.m;
    if m.pending == [] then s
    else
      match NextArrival(m.mode, m.receiveBuffer)
      case None => s
      case Some(a) => Consume(Deliver(WithBuffer(s, m.receiveBuffer[a.size..]), a))
  }

  function Receive(s: Stack, data: seq<byte>): Stack {
    if s.link.m.pending == [] then s else Consume(WithBuffer(s, s.link.m.receiveBuffer + data))
  }

  // ----- timeouts -----

  function Fail(s: Stack, correlationId: nat): Stack {
    Stack(HandleFailure(s.link, correlationId), ControllerFailure(s.c, correlationId))
  }

  function FailAll(s: Stack, requests: seq<PendingRequest>): Stack
    decreases |requests|
  {
    if requests == [] then s else FailAll(Fail(s, requests[0].correlationId), requests[1..])
  }

  function Expire(s: Stack, expired: set<nat>): Stack {
    FailAll(s.(link := s.link.(m := AfterSweep(s.link.m, expired))),
            Sweep(s.link.m.pending, expired, s.link.m.retryCount).exhausted)
  }

  // ----- events and runs -----

  datatype Event =
    | DataArrives(data: seq<byte>)
    | DeadlinesPass(expired: set<nat>)
    | IntervalTimeout
    | FlushTimeout
    | Retarget(targets: seq<PollTarget>)
    | Reconfigure(options: CoalescingOptions)
    | StartPolling
    | StopPolling
    | SendOneShot(request: Request)

  /** What the environment and the callers keep to. The engine is started only after it was
      given targets, as the controller does it; options change only while stopped; timers
      fire only when armed; the 32-bit generation and the one-shot counter have not
      overflowed; plan indices fit in an int. */
  predicate Allowed(s: Stack, event: Event)
    requires s.link.e.options.Usable()
  {
    match event
    case IntervalTimeout => s.link.e.intervalArmed
    case FlushTimeout => s.link.e.flushArmed
    case Retarget(targets) => s.link.e.generation < 0xFFFF_FFFF && |Plans(targets, s.link.e.options)| < 0x8000_0000
    case Reconfigure(options) =>
      !s.link.e.running && options.Usable() && |Plans(s.link.e.targets, options)| < 0x8000_0000
    case StartPolling => s.link.e.generation > 0
    case SendOneShot(_) => s.c.correlationId + 1 < GENERATION_UNIT
    case _ => true
  }

  predicate Shaped(e: Engine) {
    e.options.Usable() && |e.caches| == |e.targets|
  }

  function Step(s: Stack, event: Event): Stack
    requires Shaped(s.link.e) && Allowed(s, event)
  {
    match event
    case DataArrives(data) => Receive(s, data)
    case DeadlinesPass(expired) => Expire(s, expired)
    case IntervalTimeout => s.(link := Polling.IntervalFires(s.link))
    case FlushTimeout => s.(link := s.link.(e := Flush(s.link.e)))
    case Retarget(targets) => s.(link := SetTargets(s.link, targets))
    case Reconfigure(options) => s.(link := s.link.(e := SetCoalescingOptions(s.link.e, options)))
    case StartPolling => s.(link := Polling.Start(s.link))
    case StopPolling => s.(link := Polling.Stop(s.link))
    case SendOneShot(request) => OneShot(s, request)
  }

  function OneShot(s: Stack, request: Request): Stack {
    Stack(s.link.(m := Send(s.link.m, UnitByte(s.c), RequestPdu(request), s.c.correlationId + 1)),
          Remember(s.c, request))
  }

  function InitialManager(mode: FramingMode, retryCount: int): Manager {
    Manager(mode, retryCount, 0, [], [], false, 0, [], map[])
  }

  function InitialEngine(options: CoalescingOptions, maxInFlight: int): Engine {
    Engine(options, maxInFlight, [], [], [], false, 0, 0, 0, false, false, [], Record([], 0, [], [], 0, 0))
  }

  function InitialStack(mode: FramingMode, retryCount: int, options: CoalescingOptions, maxInFlight: int,
                        unitId: int): Stack {
    Stack(Link(InitialManager(mode, retryCount), InitialEngine(options, maxInFlight)),
          Controller(unitId, NoOperation, 0, 0, 0, []))
  }
}
