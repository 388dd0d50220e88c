/** The life of a session: connecting, losing the connection, retrying, and picking the poll
    loop up again; as functions on a state. */
module Session {
  import opened Numbers
  import opened RegisterTypes
  import opened ReadCoalescer
  import opened Favorites
  import opened ValueFormatter

  datatype ConnectionState = Disconnected | Connecting | Connected | ConnectionLost | Failed

  datatype Happening = Opened | Closed | Lost | Restored

  /** `favorites`: the entries of the favorites lists. `polledEntries` and `polledUnit`: what
      polling began with, which the program does not remember. `attempting`: the
      transport was opened and has not reported the outcome; closing does not take that
      back, since a socket that is still connecting first connects and then closes. `log`
      records what was done to the transport and announced to the user. */
  datatype State = State(
    state: ConnectionState,
    reconnectArmed: bool,
    resume: bool,
    unitId: int,
    pollRegisterType: RegisterType,
    pollStartAddress: int,
    pollQuantity: int,
    activeFavorites: Option<nat>,
    favorites: map<nat, seq<Definition>>,
    polling: bool,
    targets: seq<PollTarget>,
    polledEntries: seq<Definition>,
    polledUnit: u8,
    attempting: bool,
    log: seq<Happening>)

  /** What the transport reports. */
  datatype TransportSignal = Up | Down | Error

  datatype Event =
    | Transport(signal: TransportSignal)
    | ReconnectTimeout(synchronous: seq<TransportSignal>)
    | Connect(synchronous: seq<TransportSignal>)
    | Disconnect(synchronous: seq<TransportSignal>)
    | PollRegisters(registerType: RegisterType, startAddress: int, quantity: int)
    | PollFavorites(model: nat)
    | StopPolling
    | SetUnitId(unitId: int)
    | EditFavorites(model: nat, edit: Edit)

  // ----- polling -----

  function SingleTarget(s: State): PollTarget {
    PollTarget(UnitByte(s), s.pollRegisterType, Truncate16(s.pollStartAddress), Truncate16(s.pollQuantity))
  }

  function UnitByte(s: State): u8 {
    s.unitId % 0x100
  }

  /** The entries of a favorites list as they are now. */
  function EntriesOf(s: State, model: nat): seq<Definition> {
    if model in s.favorites then s.favorites[model] else []
  }

  /** The entries polled in the mode in force. */
  function ActiveEntries(s: State): seq<Definition> {
    match s.activeFavorites
    case Some(model) => EntriesOf(s, model)
    case None => []
  }

  /** The targets of the mode in force. */
  function TargetsFor(s: State): seq<PollTarget> {
    match s.activeFavorites
    case Some(model) => TargetsOf(EntriesOf(s, model), UnitByte(s))
    case None => [SingleTarget(s)]
  }

  function BeginPolling(s: State, favorites: Option<nat>): State {
    var chosen := s.(activeFavorites := favorites);
    chosen.(targets := TargetsFor(chosen), polling := true,
            polledEntries := ActiveEntries(chosen), polledUnit := UnitByte(chosen))
  }

  function StartPolling(s: State, registerType: RegisterType, startAddress: int, quantity: int): State {
    BeginPolling(s.(pollRegisterType := registerType, pollStartAddress := startAddress, pollQuantity := quantity), None)
  }

  function ResumePolling(s: State): State {
    match s.activeFavorites
    case Some(model) => BeginPolling(s, Some(model))
    case None => StartPolling(s, s.pollRegisterType, s.pollStartAddress, s.pollQuantity)
  }

  // ----- transport signals -----

  function HandleUp(s: State): State {
    var connected := s.(reconnectArmed := false, state := Connected, attempting := false,
                        log := if s.state == ConnectionLost then s.log + [Restored] else s.log);
    if s.resume then ResumePolling(connected.(resume := false)) else connected
  }

  function HandleDown(s: State): State {
    if s.state == Connected || s.state == ConnectionLost then
      s.(resume := s.resume || s.polling, polling := false, state := ConnectionLost, reconnectArmed := true,
         attempting := false, log := if s.state == Connected then s.log + [Lost] else s.log)
    else s.(attempting := false)
  }

  function HandleError(s: State): State {
    if s.state == Connected then HandleDown(s)
    else if s.state == ConnectionLost then s.(reconnectArmed := true, attempting := false)
    else s.(state := Failed, attempting := false)
  }

  function HandleSignal(s: State, signal: TransportSignal): State {
    match signal
    case Up => HandleUp(s)
    case Down => HandleDown(s)
    case Error => HandleError(s)
  }

  function HandleAll(s: State, signals: seq<TransportSignal>): State
    decreases |signals|
  {
    if signals == [] then s else HandleAll(HandleSignal(s, signals[0]), signals[1..])
  }

  // ----- opening and closing -----

  /** Opening first gives up whatever the transport was doing, which may be reported before
      the new attempt begins. */
  function Opening(s: State, synchronous: seq<TransportSignal>): State {
    var aborted := HandleAll(s.(attempting := false), synchronous);
    aborted.(attempting := true, log := aborted.log + [Opened])
  }

  function ConnectToDevice(s: State, synchronous: seq<TransportSignal>): State {
    Opening(s.(resume := false, state := Connecting), synchronous)
  }

  function BeginReconnectAttempt(s: State, synchronous: seq<TransportSignal>): State {
    if s.state != ConnectionLost then s else Opening(s, synchronous)
  }

  function Closing(s: State): State {
    s.(reconnectArmed := false, resume := false, polling := false, activeFavorites := None, log := s.log + [Closed])
  }

  /** `synchronous`: what closing the transport reports before it returns. */
  function DisconnectFromDevice(s: State, synchronous: seq<TransportSignal>): State {
    HandleAll(Closing(s), synchronous).(state := Disconnected)
  }

  // ----- runs -----

  predicate OnlyLosses(signals: seq<TransportSignal>) {
    forall k :: 0 <= k < |signals| ==> signals[k] != Up
  }

  /** A transport comes up only while an attempt is under way; opening and closing report
      losses at most; a timer fires only when armed. */
  predicate Allowed(s: State, event: Event) {
    match event
    case Transport(signal) => signal == Up ==> s.attempting
    case ReconnectTimeout(synchronous) => s.reconnectArmed && OnlyLosses(synchronous)
    case Connect(synchronous) => OnlyLosses(synchronous)
    case Disconnect(synchronous) => OnlyLosses(synchronous)
    case _ => true
  }

  function Step(s: State, event: Event): State {
    match event
    case Transport(signal) => HandleSignal(s, signal)
    case ReconnectTimeout(synchronous) => BeginReconnectAttempt(s.(reconnectArmed := false), synchronous)
    case Connect(synchronous) => ConnectToDevice(s, synchronous)
    case Disconnect(synchronous) => DisconnectFromDevice(s, synchronous)
    case PollRegisters(registerType, startAddress, quantity) => StartPolling(s, registerType, startAddress, quantity)
    case PollFavorites(model) => BeginPolling(s, Some(model))
    case StopPolling => s.(polling := false)
    case SetUnitId(unitId) => s.(unitId := unitId)
    case EditFavorites(model, edit) => s.(favorites := s.favorites[model := Edited(EntriesOf(s, model), edit)])
  }

  function Run(s: State, events: seq<Event>): State {
    if events == [] then s else Step(Run(s, events[..|events| - 1]), events[|events| - 1])
  }

  predicate AllAllowed(s: State, events: seq<Event>) {
    events == []
    || (AllAllowed(s, events[..|events| - 1]) && Allowed(Run(s, events[..|events| - 1]), events[|events| - 1]))
  }

  predicate IsInitial(s: State) {
    s.state == Disconnected && !s.reconnectArmed && !s.resume && !s.polling && !s.attempting && s.log == []
  }

  // ----- losses and recoveries -----

  function Happened(log: seq<Happening>, h: Happening): nat {
    if log == [] then 0 else Happened(log[..|log| - 1], h) + if log[|log| - 1] == h then 1 else 0
  }

  lemma CountSnoc(log: seq<Happening>, more: Happening, h: Happening)
    ensures Happened(log + [more], h) == Happened(log, h) + if more == h then 1 else 0
  {
    assert (log + [more])[..|log|] == log;
  }

  /** No more recoveries than losses, and fewer while a loss is being waited out. */
  predicate RecoveriesCovered(s: State) {
    Happened(s.log, Restored) + (if s.state == ConnectionLost then 1 else 0) <= Happened(s.log, Lost)
  }

  lemma SignalBalanced(s: State, signal: TransportSignal)
    requires RecoveriesCovered(s)
    ensures RecoveriesCovered(HandleSignal(s, signal))
  {
    hide Happened;
    CountSnoc(s.log, Restored, Restored);
    CountSnoc(s.log, Restored, Lost);
    CountSnoc(s.log, Lost, Restored);
    CountSnoc(s.log, Lost, Lost);
  }

  lemma {:induction false} SignalsBalanced(s: State, signals: seq<TransportSignal>)
    requires RecoveriesCovered(s)
    ensures RecoveriesCovered(HandleAll(s, signals))
    decreases |signals|
  {
    if signals != [] {
      SignalBalanced(s, signals[0]);
      SignalsBalanced(HandleSignal(s, signals[0]), signals[1..]);
    }
  }

  lemma OpeningBalanced(s: State, synchronous: seq<TransportSignal>)
    requires RecoveriesCovered(s)
    ensures RecoveriesCovered(Opening(s, synchronous))
  {
    hide Happened, HandleAll;
    SignalsBalanced(s.(attempting := false), synchronous);
    var aborted := HandleAll(s.(attempting := false), synchronous);
    CountSnoc(aborted.log, Opened, Restored);
    CountSnoc(aborted.log, Opened, Lost);
  }

  lemma StepBalanced(s: State, event: Event)
    requires RecoveriesCovered(s)
    ensures RecoveriesCovered(Step(s, event))
  {
    hide Happened, Opening, HandleAll, HandleSignal;
    match event
    case Transport(signal) => SignalBalanced(s, signal);
    case Connect(synchronous) => OpeningBalanced(s.(resume := false, state := Connecting), synchronous);
    case ReconnectTimeout(synchronous) => OpeningBalanced(s.(reconnectArmed := false), synchronous);
    case Disconnect(synchronous) =>
      CountSnoc(s.log, Closed, Restored);
      CountSnoc(s.log, Closed, Lost);
      SignalsBalanced(Closing(s), synchronous);
    case _ =>
  }

  /** In every run, recoveries never exceed losses, and a lost connection means that there is
      a loss without its recovery. */
  lemma {:induction false} RecoveriesMatchLosses(s: State, events: seq<Event>)
    requires IsInitial(s)
    ensures var now := Run(s, events);
            && Happened(now.log, Restored) <= Happened(now.log, Lost)
            && (now.state == ConnectionLost ==> Happened(now.log, Restored) < Happened(now.log, Lost))
    ensures RecoveriesCovered(Run(s, events))
  {
    if events != [] {
      RecoveriesMatchLosses(s, events[..|events| - 1]);
      StepBalanced(Run(s, events[..|events| - 1]), events[|events| - 1]);
    }
  }

  /** However often, and in whatever order, one loss is reported as an error and as a
      disconnect: it is announced once, and polling is marked for resuming. */
  lemma {:induction false} OneLossCountsOnce(s: State, signals: seq<TransportSignal>)
    requires s.state == Connected || s.state == ConnectionLost
    requires signals != [] && OnlyLosses(signals)
    ensures var lost := HandleAll(s, signals);
            && lost.state == ConnectionLost && lost.reconnectArmed
            && lost.log == (if s.state == Connected then s.log + [Lost] else s.log)
            && (s.state == Connected || !s.polling ==> lost.resume == (s.resume || s.polling) && !lost.polling)
    decreases |signals|
  {
    var after := HandleSignal(s, signals[0]);
    assert signals[0] != Up;
    if |signals| == 1 {
      assert signals[1..] == [];
    } else {
      assert forall k :: 0 <= k < |signals[1..]| ==> signals[1..][k] == signals[k + 1];
      OneLossCountsOnce(after, signals[1..]);
    }
  }

  // ----- after the user has disconnected -----

  /** No connection, none under way, and nothing that could start one. */
  predicate Ended(s: State) {
    (s.state == Disconnected || s.state == Failed) && !s.attempting
  }

  lemma {:induction false} LossesOpenNothing(s: State, signals: seq<TransportSignal>)
    requires OnlyLosses(signals)
    ensures HandleAll(s, signals).attempting <==> s.attempting && signals == []
    ensures Happened(HandleAll(s, signals).log, Opened) == Happened(s.log, Opened)
    decreases |signals|
  {
    hide Happened;
    if signals != [] {
      assert signals[0] != Up;
      assert forall k :: 0 <= k < |signals[1..]| ==> signals[1..][k] == signals[k + 1];
      CountSnoc(s.log, Lost, Opened);
      LossesOpenNothing(HandleSignal(s, signals[0]), signals[1..]);
    }
  }

  lemma DisconnectOpensNothing(s: State, synchronous: seq<TransportSignal>)
    requires OnlyLosses(synchronous)
    ensures var ended := DisconnectFromDevice(s, synchronous);
            && ended.state == Disconnected && !ended.resume
            && (ended.attempting <==> s.attempting && synchronous == [])
            && Happened(ended.log, Opened) == Happened(s.log, Opened)
  {
    hide Happened;
    CountSnoc(s.log, Closed, Opened);
    LossesOpenNothing(Closing(s), synchronous);
    LossesResumeNothing(Closing(s), synchronous);
  }

  lemma {:induction false} LossesResumeNothing(s: State, signals: seq<TransportSignal>)
    requires OnlyLosses(signals) && !s.polling && !s.resume
    ensures !HandleAll(s, signals).polling && !HandleAll(s, signals).resume
    ensures HandleAll(s, signals).activeFavorites == s.activeFavorites
    decreases |signals|
  {
    if signals != [] {
      assert signals[0] != Up;
      assert forall k :: 0 <= k < |signals[1..]| ==> signals[1..][k] == signals[k + 1];
      LossesResumeNothing(HandleSignal(s, signals[0]), signals[1..]);
    }
  }

  predicate NoConnect(events: seq<Event>) {
    forall k :: 0 <= k < |events| ==> !events[k].Connect?
  }

  lemma StaysEnded(s: State, event: Event)
    requires Ended(s) && Allowed(s, event) && !event.Connect?
    ensures Ended(Step(s, event)) && Happened(Step(s, event).log, Opened) == Happened(s.log, Opened)
  {
    hide Happened, HandleAll;
    if event.Disconnect? {
      DisconnectOpensNothing(s, event.synchronous);
    }
  }

  lemma {:induction false} EndedRuns(s: State, events: seq<Event>)
    requires Ended(s) && AllAllowed(s, events) && NoConnect(events)
    ensures Ended(Run(s, events)) && Happened(Run(s, events).log, Opened) == Happened(s.log, Opened)
  {
    if events != [] {
      EndedRuns(s, events[..|events| - 1]);
      StaysEnded(Run(s, events[..|events| - 1]), events[|events| - 1]);
    }
  }

  /** Whatever the transport still reports and whatever timers fire, the transport is not
      opened again before the user connects. */
  ghost predicate NeverReopens(s: State) {
    forall events: seq<Event> :: AllAllowed(s, events) && NoConnect(events) ==>
      Happened(Run(s, events).log, Opened) == Happened(s.log, Opened)
  }

  /** The attempt completes, its connection is then closed as had been asked for, and the
      handlers take that for a loss to be retried. */
  const LATE_SUCCESS: seq<Event> := [Transport(Up), Transport(Down), ReconnectTimeout([])]

  lemma RunSnoc(s: State, events: seq<Event>, event: Event)
    ensures Run(s, events + [event]) == Step(Run(s, events), event)
    ensures AllAllowed(s, events + [event]) <==> AllAllowed(s, events) && Allowed(Run(s, events), event)
  {
    assert (events + [event])[..|events|] == events;
  }

  lemma LateSuccessRun(s: State)
    ensures Run(s, LATE_SUCCESS) == Step(Step(Step(s, Transport(Up)), Transport(Down)), ReconnectTimeout([]))
    ensures AllAllowed(s, LATE_SUCCESS)
       <==> && Allowed(s, Transport(Up))
            && Allowed(Step(Step(s, Transport(Up)), Transport(Down)), ReconnectTimeout([]))
  {
    hide Run, AllAllowed, Step, Allowed;
    var up, lost: seq<Event> := [] + [Transport(Up)], ([] + [Transport(Up)]) + [Transport(Down)];
    RunSnoc(s, [], Transport(Up));
    RunSnoc(s, up, Transport(Down));
    RunSnoc(s, lost, ReconnectTimeout([]));
    assert LATE_SUCCESS == lost + [ReconnectTimeout([])];
    NothingRun(s);
    DownIsAllowed(Step(s, Transport(Up)));
  }

  lemma NothingRun(s: State)
    ensures Run(s, []) == s && AllAllowed(s, [])
  {
  }

  lemma DownIsAllowed(s: State)
    ensures Allowed(s, Transport(Down))
  {
  }

  lemma LateSuccessReopens(s: State)
    requires s.state == Disconnected && s.attempting && !s.resume
    ensures AllAllowed(s, LATE_SUCCESS) && NoConnect(LATE_SUCCESS)
    ensures Happened(Run(s, LATE_SUCCESS).log, Opened) == Happened(s.log, Opened) + 1
  {
    hide Happened;
    LateSuccessRun(s);
    CountSnoc(s.log, Lost, Opened);
    CountSnoc(s.log + [Lost], Opened, Opened);
  }

  /** A disconnect is final if and only if no attempt was under way, or closing reported its
      end at once. */
  lemma DisconnectIsFinalIff(s: State, synchronous: seq<TransportSignal>)
    requires OnlyLosses(synchronous)
    ensures NeverReopens(DisconnectFromDevice(s, synchronous)) <==> !s.attempting || synchronous != []
  {
    var ended := DisconnectFromDevice(s, synchronous);
    DisconnectOpensNothing(s, synchronous);
    if ended.attempting {
      LateSuccessReopens(ended);
    } else {
      forall events: seq<Event> | AllAllowed(ended, events) && NoConnect(events)
        ensures Happened(Run(ended, events).log, Opened) == Happened(ended.log, Opened)
      {
        EndedRuns(ended, events);
      }
    }
  }

  /** The failing case from a fresh start: the user connects and gives up before the outcome
      is known. */
  lemma GivingUpWhileConnectingReopens(s: State)
    requires IsInitial(s)
    ensures var given := Step(Step(s, Connect([])), Disconnect([]));
            && AllAllowed(given, LATE_SUCCESS) && NoConnect(LATE_SUCCESS)
            && Happened(Run(given, LATE_SUCCESS).log, Opened) == Happened(given.log, Opened) + 1
            && Run(given, LATE_SUCCESS).state == ConnectionLost
  {
    var given := Step(Step(s, Connect([])), Disconnect([]));
    LateSuccessReopens(given);
    LateSuccessRun(given);
  }

  predicate SettledWhenConnected(s: State) {
    s.state == Connected ==> !s.attempting
  }

  lemma {:induction false} LossesKeepSettled(s: State, signals: seq<TransportSignal>)
    requires OnlyLosses(signals) && SettledWhenConnected(s)
    ensures SettledWhenConnected(HandleAll(s, signals))
    ensures s.state != Connected ==> HandleAll(s, signals).state != Connected
    decreases |signals|
  {
    if signals != [] {
      assert signals[0] != Up;
      assert forall k :: 0 <= k < |signals[1..]| ==> signals[1..][k] == signals[k + 1];
      LossesKeepSettled(HandleSignal(s, signals[0]), signals[1..]);
    }
  }

  lemma StepKeepsSettled(s: State, event: Event)
    requires SettledWhenConnected(s) && Allowed(s, event)
    ensures SettledWhenConnected(Step(s, event))
  {
    hide HandleAll;
    match event
    case Connect(synchronous) =>
      LossesKeepSettled(s.(resume := false, state := Connecting, attempting := false), synchronous);
    case ReconnectTimeout(synchronous) =>
      LossesKeepSettled(s.(reconnectArmed := false, attempting := false), synchronous);
    case _ =>
  }

  lemma {:induction false} RunsKeepSettled(s: State, events: seq<Event>)
    requires SettledWhenConnected(s) && AllAllowed(s, events)
    ensures SettledWhenConnected(Run(s, events))
  {
    if events != [] {
      RunsKeepSettled(s, events[..|events| - 1]);
      StepKeepsSettled(Run(s, events[..|events| - 1]), events[|events| - 1]);
    }
  }

  /** So in every run, disconnecting from an established connection is final. */
  lemma EstablishedDisconnectIsFinal(s: State, events: seq<Event>, synchronous: seq<TransportSignal>)
    requires IsInitial(s) && AllAllowed(s, events) && OnlyLosses(synchronous)
    requires Run(s, events).state == Connected
    ensures NeverReopens(DisconnectFromDevice(Run(s, events), synchronous))
  {
    RunsKeepSettled(s, events);
    DisconnectIsFinalIff(Run(s, events), synchronous);
  }

  // ----- resuming -----

  /** While the connection is lost and the user does nothing: refused attempts, repeated
      reports and retry timeouts. */
  predicate IsRetry(event: Event) {
    || (event.ReconnectTimeout? && OnlyLosses(event.synchronous))
    || (event.Transport? && event.signal != Up)
  }

  predicate OnlyRetries(events: seq<Event>) {
    forall k :: 0 <= k < |events| ==> IsRetry(events[k])
  }

  /** What the pause keeps: the mode and its parameters. */
  ghost predicate SameMode(a: State, b: State) {
    && b.unitId == a.unitId && b.pollRegisterType == a.pollRegisterType
    && b.pollStartAddress == a.pollStartAddress && b.pollQuantity == a.pollQuantity
    && b.activeFavorites == a.activeFavorites && b.favorites == a.favorites && b.targets == a.targets
    && b.polledEntries == a.polledEntries && b.polledUnit == a.polledUnit
  }

  ghost predicate WaitingToResume(before: State, s: State) {
    s.state == ConnectionLost && s.resume && !s.polling && SameMode(before, s)
  }

  lemma {:induction false} LossesKeepWaiting(before: State, s: State, signals: seq<TransportSignal>)
    requires WaitingToResume(before, s) && OnlyLosses(signals)
    ensures WaitingToResume(before, HandleAll(s, signals)) && HandleAll(s, signals).log == s.log
    decreases |signals|
  {
    if signals != [] {
      assert signals[0] != Up;
      assert forall k :: 0 <= k < |signals[1..]| ==> signals[1..][k] == signals[k + 1];
      LossesKeepWaiting(before, HandleSignal(s, signals[0]), signals[1..]);
    }
  }

  lemma {:induction false} RetriesKeepWaiting(before: State, s: State, events: seq<Event>)
    requires WaitingToResume(before, s) && OnlyRetries(events)
    ensures WaitingToResume(before, Run(s, events))
    ensures Happened(Run(s, events).log, Lost) == Happened(s.log, Lost)
    ensures Happened(Run(s, events).log, Restored) == Happened(s.log, Restored)
  {
    if events != [] {
      var last := |events| - 1;
      assert forall k :: 0 <= k < last ==> events[..last][k] == events[k];
      RetriesKeepWaiting(before, s, events[..last]);
      assert IsRetry(events[last]);
      RetryKeepsWaiting(before, Run(s, events[..last]), events[last]);
    }
  }

  lemma RetryKeepsWaiting(before: State, s: State, event: Event)
    requires WaitingToResume(before, s) && IsRetry(event)
    ensures WaitingToResume(before, Step(s, event))
    ensures Happened(Step(s, event).log, Lost) == Happened(s.log, Lost)
    ensures Happened(Step(s, event).log, Restored) == Happened(s.log, Restored)
  {
    hide Happened, HandleAll;
    if event.ReconnectTimeout? {
      LossesKeepWaiting(before, s.(reconnectArmed := false, attempting := false), event.synchronous);
    }
    CountSnoc(s.log, Opened, Lost);
    CountSnoc(s.log, Opened, Restored);
  }

  /** A connection lost while polling, any number of failed retries, then success, with no
      user call in between: the session polls again in the same mode, with the targets of
      that mode, and one loss and one recovery were announced. */
  lemma LossThenRecoveryResumes(s: State, signal: TransportSignal, retries: seq<Event>)
    requires s.state == Connected && s.polling && signal != Up && OnlyRetries(retries)
    ensures var back := HandleUp(Run(HandleSignal(s, signal), retries));
            && back.state == Connected && back.polling && !back.resume && !back.reconnectArmed
            && back.activeFavorites == s.activeFavorites
            && back.targets == TargetsFor(s)
            && Happened(back.log, Lost) == Happened(s.log, Lost) + 1
            && Happened(back.log, Restored) == Happened(s.log, Restored) + 1
  {
    hide Happened, Run, TargetsFor;
    var lost := HandleSignal(s, signal);
    CountSnoc(s.log, Lost, Lost);
    CountSnoc(s.log, Lost, Restored);
    RetriesKeepWaiting(s, lost, retries);
    var waiting := Run(lost, retries);
    CountSnoc(waiting.log, Restored, Lost);
    CountSnoc(waiting.log, Restored, Restored);
    ResumedTargets(s, waiting);
  }

  /** Resuming polls the targets of the mode that was kept. */
  lemma ResumedTargets(s: State, waiting: State)
    requires WaitingToResume(s, waiting)
    ensures var back := HandleUp(waiting);
            back.targets == TargetsFor(s) && back.polling && back.activeFavorites == s.activeFavorites
    ensures HandleUp(waiting).log == waiting.log + [Restored]
  {
  }

  // ----- when the resumed targets are those polled before -----

  /** The targets polled, or to be polled again, are those of the mode. */
  predicate TargetsMatchMode(s: State) {
    s.polling || s.resume ==> s.targets == TargetsFor(s)
  }

  /** The user changes neither the unit nor a favorites list. */
  predicate NoEdits(events: seq<Event>) {
    forall k :: 0 <= k < |events| ==> !events[k].SetUnitId? && !events[k].EditFavorites?
  }

  lemma {:induction false} SignalsKeepMatch(s: State, signals: seq<TransportSignal>)
    requires TargetsMatchMode(s)
    ensures TargetsMatchMode(HandleAll(s, signals))
    decreases |signals|
  {
    if signals != [] {
      SignalKeepsMatch(s, signals[0]);
      SignalsKeepMatch(HandleSignal(s, signals[0]), signals[1..]);
    }
  }

  lemma SignalKeepsMatch(s: State, signal: TransportSignal)
    requires TargetsMatchMode(s)
    ensures TargetsMatchMode(HandleSignal(s, signal))
  {
  }

  lemma StepKeepsMatch(s: State, event: Event)
    requires TargetsMatchMode(s) && !event.SetUnitId? && !event.EditFavorites?
    ensures TargetsMatchMode(Step(s, event))
  {
    hide HandleAll, HandleSignal;
    match event
    case Transport(signal) => SignalKeepsMatch(s, signal);
    case Connect(synchronous) =>
      SignalsKeepMatch(s.(resume := false, state := Connecting, attempting := false), synchronous);
    case ReconnectTimeout(synchronous) =>
      SignalsKeepMatch(s.(reconnectArmed := false, attempting := false), synchronous);
    case Disconnect(synchronous) => SignalsKeepMatch(Closing(s), synchronous);
    case _ =>
  }

  /** Over every run without such edits the targets stay those of the mode. */
  lemma {:induction false} UneditedRunsKeepMatch(s: State, events: seq<Event>)
    requires TargetsMatchMode(s) && NoEdits(events)
    ensures TargetsMatchMode(Run(s, events))
  {
    if events != [] {
      assert NoEdits(events[..|events| - 1]);
      UneditedRunsKeepMatch(s, events[..|events| - 1]);
      StepKeepsMatch(Run(s, events[..|events| - 1]), events[|events| - 1]);
    }
  }

  /** A loss and a recovery at the end of any run without edits resume the very targets that
      were polled. */
  lemma UneditedRunsResumeTheSame(s: State, events: seq<Event>, signal: TransportSignal, retries: seq<Event>)
    requires IsInitial(s) && NoEdits(events) && signal != Up && OnlyRetries(retries)
    requires Run(s, events).state == Connected && Run(s, events).polling
    ensures HandleUp(Run(HandleSignal(Run(s, events), signal), retries)).targets == Run(s, events).targets
  {
    UneditedRunsKeepMatch(s, events);
    LossThenRecoveryResumes(Run(s, events), signal, retries);
  }

  /** In register mode one target is polled: that of the remembered parameters, for the unit
      that was set when polling began. */
  predicate OneTargetInRegisterMode(s: State) {
    (s.polling || s.resume) && s.activeFavorites == None ==>
      |s.targets| == 1 && s.targets[0] == SingleTarget(s).(unitId := s.targets[0].unitId)
  }

  lemma {:induction false} SignalsKeepOneTarget(s: State, signals: seq<TransportSignal>)
    requires OneTargetInRegisterMode(s)
    ensures OneTargetInRegisterMode(HandleAll(s, signals))
    decreases |signals|
  {
    if signals != [] {
      SignalKeepsOneTarget(s, signals[0]);
      SignalsKeepOneTarget(HandleSignal(s, signals[0]), signals[1..]);
    }
  }

  lemma SignalKeepsOneTarget(s: State, signal: TransportSignal)
    requires OneTargetInRegisterMode(s)
    ensures OneTargetInRegisterMode(HandleSignal(s, signal))
  {
  }

  lemma StepKeepsOneTarget(s: State, event: Event)
    requires OneTargetInRegisterMode(s)
    ensures OneTargetInRegisterMode(Step(s, event))
  {
    hide HandleAll, HandleSignal;
    match event
    case Transport(signal) => SignalKeepsOneTarget(s, signal);
    case Connect(synchronous) =>
      SignalsKeepOneTarget(s.(resume := false, state := Connecting, attempting := false), synchronous);
    case ReconnectTimeout(synchronous) =>
      SignalsKeepOneTarget(s.(reconnectArmed := false, attempting := false), synchronous);
    case Disconnect(synchronous) => SignalsKeepOneTarget(Closing(s), synchronous);
    case _ =>
  }

  lemma {:induction false} RunsKeepOneTarget(s: State, events: seq<Event>)
    requires OneTargetInRegisterMode(s)
    ensures OneTargetInRegisterMode(Run(s, events))
  {
    if events != [] {
      RunsKeepOneTarget(s, events[..|events| - 1]);
      StepKeepsOneTarget(Run(s, events[..|events| - 1]), events[|events| - 1]);
    }
  }

  /** In every run, in register mode, what is resumed is what was polled if and only if the
      unit set at the loss is the one being polled. */
  lemma RegistersResumeTheSameIff(s: State, events: seq<Event>, signal: TransportSignal, retries: seq<Event>)
    requires IsInitial(s) && signal != Up && OnlyRetries(retries)
    requires Run(s, events).state == Connected && Run(s, events).polling && Run(s, events).activeFavorites == None
    ensures |Run(s, events).targets| == 1
    ensures HandleUp(Run(HandleSignal(Run(s, events), signal), retries)).targets == Run(s, events).targets
       <==> Run(s, events).unitId % 0x100 == Run(s, events).targets[0].unitId
  {
    hide Run, HandleSignal, HandleUp;
    var now := Run(s, events);
    RunsKeepOneTarget(s, events);
    LossThenRecoveryResumes(now, signal, retries);
    assert TargetsFor(now) == [SingleTarget(now)];
    assert now.targets == [now.targets[0]];
  }

  /** The failing case: the unit is changed under a running poll, and after a loss and a
      recovery another device is polled. */
  lemma UnitChangeResumesElsewhere(s: State)
    requires s.state == Connected && s.unitId == 1
    ensures var polled := Step(s, PollRegisters(HoldingRegister, 0, 10));
            var back := Step(Step(Step(polled, SetUnitId(2)), Transport(Down)), Transport(Up));
            && back.polling && back.targets != polled.targets
            && polled.targets == [PollTarget(1, HoldingRegister, 0, 10)]
            && back.targets == [PollTarget(2, HoldingRegister, 0, 10)]
  {
  }

  /** In favorites mode the targets are those built from the entries, and for the unit, that
      polling began with. */
  predicate EntriesArePolled(s: State) {
    (s.polling || s.resume) && s.activeFavorites.Some? ==> s.targets == TargetsOf(s.polledEntries, s.polledUnit)
  }

  lemma {:induction false} SignalsKeepEntries(s: State, signals: seq<TransportSignal>)
    requires EntriesArePolled(s)
    ensures EntriesArePolled(HandleAll(s, signals))
    decreases |signals|
  {
    if signals != [] {
      SignalKeepsEntries(s, signals[0]);
      SignalsKeepEntries(HandleSignal(s, signals[0]), signals[1..]);
    }
  }

  lemma SignalKeepsEntries(s: State, signal: TransportSignal)
    requires EntriesArePolled(s)
    ensures EntriesArePolled(HandleSignal(s, signal))
  {
  }

  lemma StepKeepsEntries(s: State, event: Event)
    requires EntriesArePolled(s)
    ensures EntriesArePolled(Step(s, event))
  {
    hide HandleAll, HandleSignal, TargetsOf;
    match event
    case Transport(signal) => SignalKeepsEntries(s, signal);
    case Connect(synchronous) =>
      SignalsKeepEntries(s.(resume := false, state := Connecting, attempting := false), synchronous);
    case ReconnectTimeout(synchronous) =>
      SignalsKeepEntries(s.(reconnectArmed := false, attempting := false), synchronous);
    case Disconnect(synchronous) => SignalsKeepEntries(Closing(s), synchronous);
    case _ =>
  }

  lemma {:induction false} RunsKeepEntries(s: State, events: seq<Event>)
    requires EntriesArePolled(s)
    ensures EntriesArePolled(Run(s, events))
  {
    if events != [] {
      RunsKeepEntries(s, events[..|events| - 1]);
      StepKeepsEntries(Run(s, events[..|events| - 1]), events[|events| - 1]);
    }
  }

  /** In every run, in favorites mode, what is resumed is what was polled if and only if the
      list still names the registers it named when polling began, and the unit is still the
      one set then unless the list is empty. */
  lemma FavoritesResumeTheSameIff(s: State, events: seq<Event>, signal: TransportSignal, retries: seq<Event>)
    requires IsInitial(s) && signal != Up && OnlyRetries(retries)
    requires Run(s, events).state == Connected && Run(s, events).polling && Run(s, events).activeFavorites.Some?
    ensures HandleUp(Run(HandleSignal(Run(s, events), signal), retries)).targets == Run(s, events).targets
       <==> && SameRegisters(ActiveEntries(Run(s, events)), Run(s, events).polledEntries)
            && (UnitByte(Run(s, events)) == Run(s, events).polledUnit || ActiveEntries(Run(s, events)) == [])
  {
    hide Run, HandleSignal, HandleUp, TargetsOf;
    var now := Run(s, events);
    RunsKeepEntries(s, events);
    LossThenRecoveryResumes(now, signal, retries);
    SameTargetsIff(ActiveEntries(now), UnitByte(now), now.polledEntries, now.polledUnit);
  }

  /** One edit of the polled list, then a loss and a recovery: the same targets are resumed if
      and only if the edit missed the list, cleared an empty one, or changed a format to one
      of the same span. */
  lemma OneEditResumesTheSameIff(s: State, model: nat, edit: Edit)
    requires s.state == Connected
    ensures var polled := Step(s, PollFavorites(model));
            var back := Step(Step(Step(polled, EditFavorites(model, edit)), Transport(Down)), Transport(Up));
            && polled.targets == TargetsOf(EntriesOf(s, model), UnitByte(s))
            && back.polling && (back.targets == polled.targets <==> KeepsTargets(EntriesOf(s, model), edit))
  {
    hide TargetsOf, Edited, KeepsTargets;
    EditKeepsTargetsIff(EntriesOf(s, model), edit, UnitByte(s));
  }

  /** The failing case: the one entry of the list is given a format of two registers while it
      is polled. */
  lemma EditedFavoritesResumeDifferently(s: State, model: nat)
    requires s.state == Connected && EntriesOf(s, model) == [Definition(HoldingRegister, 0, UnsignedDecimal)]
    ensures var polled := Step(s, PollFavorites(model));
            var back := Step(Step(Step(polled, EditFavorites(model, SetFormatAt(0, Float32))), Transport(Down)), Transport(Up));
            && back.polling && back.targets != polled.targets
            && polled.targets == [PollTarget(UnitByte(s), HoldingRegister, 0, 1)]
            && back.targets == [PollTarget(UnitByte(s), HoldingRegister, 0, 2)]
  {
    hide TargetsOf, Edited;
    SingleTargets(Definition(HoldingRegister, 0, UnsignedDecimal), UnitByte(s));
    SingleTargets(Definition(HoldingRegister, 0, Float32), UnitByte(s));
    OneFormatEdited();
  }

  lemma OneFormatEdited()
    ensures Edited([Definition(HoldingRegister, 0, UnsignedDecimal)], SetFormatAt(0, Float32))
         == [Definition(HoldingRegister, 0, Float32)]
  {
  }

  lemma SingleTargets(definition: Definition, unitId: u8)
    ensures TargetsOf([definition], unitId) == [TargetOf(definition, unitId)]
  {
    var one := [definition];
    assert one[..0] == [] && TargetsOf(one[..0], unitId) == [];
  }
}
