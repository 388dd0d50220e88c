/** Which state a session is in after any events, and whether it polls: told from what was
    reported and called last. */
module SessionStates {
  import opened Numbers
  import opened RegisterTypes
  import opened ReadCoalescer
  import opened Favorites
  import opened Session

  // ----- the state after one event -----

  /** Once up, a connection is only ever lost. */
  predicate Established(state: ConnectionState) {
    state == Connected || state == ConnectionLost
  }

  function NextState(state: ConnectionState, event: Event): ConnectionState {
    match event
    case Connect(synchronous) => if Error in synchronous then Failed else Connecting
    case Disconnect(_) => Disconnected
    case Transport(Up) => Connected
    case Transport(Down) => if Established(state) then ConnectionLost else state
    case Transport(Error) => if Established(state) then ConnectionLost else Failed
    case _ => state
  }

  lemma {:induction false} SignalsNext(s: State, signals: seq<TransportSignal>)
    requires OnlyLosses(signals)
    ensures HandleAll(s, signals).state
         == if signals == [] then s.state
            else if Established(s.state) then ConnectionLost
            else if Error in signals then Failed
            else s.state
    decreases |signals|
  {
    if signals != [] {
      assert signals[0] != Up;
      assert forall k :: 0 <= k < |signals[1..]| ==> signals[1..][k] == signals[k + 1];
      assert signals == [signals[0]] + signals[1..];
      SignalsNext(HandleSignal(s, signals[0]), signals[1..]);
    }
  }

  lemma StateNext(s: State, event: Event)
    requires Allowed(s, event)
    ensures Step(s, event).state == NextState(s.state, event)
  {
    hide HandleAll;
    match event
    case Connect(synchronous) => SignalsNext(s.(resume := false, state := Connecting, attempting := false), synchronous);
    case ReconnectTimeout(synchronous) => SignalsNext(s.(reconnectArmed := false, attempting := false), synchronous);
    case _ =>
  }

  // ----- the state after any events -----

  predicate ReportsError(event: Event) {
    event == Transport(Error)
  }

  predicate ReportsLoss(event: Event) {
    event == Transport(Down) || event == Transport(Error)
  }

  /** The user connects or disconnects, or a connection comes up. */
  predicate Restarts(event: Event) {
    event.Connect? || event.Disconnect? || event == Transport(Up)
  }

  /** Event k connects, reporting no error meanwhile, and since then there was neither another
      start, nor an end, nor an error. */
  predicate ConnectingSince(events: seq<Event>, k: nat) {
    && k < |events| && events[k].Connect? && Error !in events[k].synchronous
    && forall m :: k < m < |events| ==> !Restarts(events[m]) && !ReportsError(events[m])
  }

  predicate ConnectedSince(events: seq<Event>, k: nat) {
    && k < |events| && events[k] == Transport(Up)
    && forall m :: k < m < |events| ==> !Restarts(events[m]) && !ReportsLoss(events[m])
  }

  /** Event k reports an established connection to be gone. */
  predicate LostSince(s: State, events: seq<Event>, k: nat) {
    && k < |events| && ReportsLoss(events[k]) && Run(s, events[..k]).state == Connected
    && forall m :: k < m < |events| ==> !Restarts(events[m])
  }

  /** Event k reports an error with no connection established or lost; a call to connect may
      report it at once. */
  predicate FailedSince(s: State, events: seq<Event>, k: nat) {
    && k < |events|
    && (if events[k].Connect? then Error in events[k].synchronous
        else ReportsError(events[k]) && !Established(Run(s, events[..k]).state))
    && forall m :: k < m < |events| ==> !Restarts(events[m])
  }

  /** From the beginning or since a disconnect nothing was started and no error reported. */
  predicate DisconnectedSince(events: seq<Event>, k: nat) {
    && k <= |events| && (k == 0 || events[k - 1].Disconnect?)
    && forall m :: k <= m < |events| ==> !Restarts(events[m]) && !ReportsError(events[m])
  }

  /** The five at once. */
  ghost predicate InState(s: State, events: seq<Event>, state: ConnectionState) {
    match state
    case Connecting => exists k: nat :: ConnectingSince(events, k)
    case Connected => exists k: nat :: ConnectedSince(events, k)
    case ConnectionLost => exists k: nat :: LostSince(s, events, k)
    case Failed => exists k: nat :: FailedSince(s, events, k)
    case Disconnected => exists k: nat :: DisconnectedSince(events, k)
  }

  lemma PrefixOf(events: seq<Event>, event: Event, k: nat)
    requires k <= |events|
    ensures (events + [event])[..k] == events[..k]
  {
  }

  /** One more event: the state is a new one, from here on, or the old one, as before. */
  lemma InNextState(s: State, events: seq<Event>, event: Event, state: ConnectionState)
    requires InState(s, events, state) && Run(s, events).state == state
    ensures InState(s, events + [event], NextState(state, event))
  {
    hide Run;
    var more, n := events + [event], |events|;
    var next := NextState(state, event);
    PrefixOf(events, event, n);
    assert events[..n] == events;
    if Restarts(event) || next != state {
      match next
      case Connecting => assert ConnectingSince(more, n);
      case Connected => assert ConnectedSince(more, n);
      case ConnectionLost => assert LostSince(s, more, n);
      case Failed => assert FailedSince(s, more, n);
      case Disconnected => assert DisconnectedSince(more, n + 1);
    } else {
      InSameState(s, events, event, state);
    }
  }

  lemma InSameState(s: State, events: seq<Event>, event: Event, state: ConnectionState)
    requires InState(s, events, state) && !Restarts(event) && NextState(state, event) == state
    ensures InState(s, events + [event], state)
  {
    hide Run;
    var more := events + [event];
    match state
    case Connecting =>
      var k: nat :| ConnectingSince(events, k);
      assert ConnectingSince(more, k);
    case Connected =>
      var k: nat :| ConnectedSince(events, k);
      assert ConnectedSince(more, k);
    case ConnectionLost =>
      var k: nat :| LostSince(s, events, k);
      PrefixOf(events, event, k);
      assert LostSince(s, more, k);
    case Failed =>
      var k: nat :| FailedSince(s, events, k);
      PrefixOf(events, event, k);
      assert FailedSince(s, more, k);
    case Disconnected =>
      var k: nat :| DisconnectedSince(events, k);
      assert DisconnectedSince(more, k);
  }

  lemma {:induction false} RunsAreInState(s: State, events: seq<Event>)
    requires IsInitial(s) && AllAllowed(s, events)
    ensures InState(s, events, Run(s, events).state)
  {
    hide InState, Step;
    if events == [] {
      InitialIsDisconnected(s);
    } else {
      var before, last := events[..|events| - 1], events[|events| - 1];
      RunsAreInState(s, before);
      StateNext(Run(s, before), last);
      InNextState(s, before, last, Run(s, before).state);
      assert before + [last] == events;
    }
  }

  lemma InitialIsDisconnected(s: State)
    requires IsInitial(s)
    ensures InState(s, [], s.state)
  {
    assert DisconnectedSince([], 0);
  }

  /** Without its last event a stretch that did not begin with it has held already. */
  lemma SinceEarlier(s: State, before: seq<Event>, last: Event, k: nat)
    ensures k < |before| ==>
              && (ConnectingSince(before + [last], k) ==> ConnectingSince(before, k) && !Restarts(last) && !ReportsError(last))
              && (ConnectedSince(before + [last], k) ==> ConnectedSince(before, k) && !Restarts(last) && !ReportsLoss(last))
              && (LostSince(s, before + [last], k) ==> LostSince(s, before, k) && !Restarts(last))
              && (FailedSince(s, before + [last], k) ==> FailedSince(s, before, k) && !Restarts(last))
    ensures k <= |before| && DisconnectedSince(before + [last], k) ==>
              DisconnectedSince(before, k) && !Restarts(last) && !ReportsError(last)
  {
    hide Run;
    var more := before + [last];
    assert more[|before|] == last && forall m :: 0 <= m < |before| ==> more[m] == before[m];
    if k <= |before| {
      PrefixOf(before, last, k);
    }
  }

  /** The other direction: what was reported and called last decides the state. */
  lemma {:induction false} InStateDecides(s: State, events: seq<Event>, state: ConnectionState)
    requires IsInitial(s) && AllAllowed(s, events) && InState(s, events, state)
    ensures Run(s, events).state == state
  {
    hide Step, LostSince, FailedSince, ConnectingSince, ConnectedSince, DisconnectedSince;
    if events == [] {
      NothingYet(s, state);
    } else {
      var before, last := events[..|events| - 1], events[|events| - 1];
      assert before + [last] == events;
      StateNext(Run(s, before), last);
      if InState(s, before, state) && NextState(state, last) == state && !Restarts(last) {
        InStateDecides(s, before, state);
      } else {
        BegunByLast(s, before, last, state);
      }
    }
  }

  lemma NothingYet(s: State, state: ConnectionState)
    requires IsInitial(s) && InState(s, [], state)
    ensures state == Disconnected == s.state
  {
  }

  /** If the state did not hold before the last event, that event has brought it about. */
  lemma BegunByLast(s: State, before: seq<Event>, last: Event, state: ConnectionState)
    requires InState(s, before + [last], state)
    requires !(InState(s, before, state) && NextState(state, last) == state && !Restarts(last))
    ensures NextState(Run(s, before).state, last) == state
  {
    hide Run;
    var n := |before|;
    PrefixOf(before, last, n);
    assert (before + [last])[n] == last && before[..n] == before;
    match state
    case Connecting =>
      var k: nat :| ConnectingSince(before + [last], k);
      SinceEarlier(s, before, last, k);
    case Connected =>
      var k: nat :| ConnectedSince(before + [last], k);
      SinceEarlier(s, before, last, k);
    case ConnectionLost =>
      var k: nat :| LostSince(s, before + [last], k);
      SinceEarlier(s, before, last, k);
    case Failed =>
      var k: nat :| FailedSince(s, before + [last], k);
      SinceEarlier(s, before, last, k);
    case Disconnected =>
      var k: nat :| DisconnectedSince(before + [last], k);
      SinceEarlier(s, before, last, k);
  }

  /** A session has failed if and only if an error was reported with no connection established
      or lost, or while a call to connect gave up what the transport was doing, and since then
      the user has neither connected nor disconnected, and no connection has come up. */
  lemma FailedIff(s: State, events: seq<Event>)
    requires IsInitial(s) && AllAllowed(s, events)
    ensures Run(s, events).state == Failed <==> exists k: nat :: FailedSince(s, events, k)
  {
    hide Run, FailedSince;
    StateIff(s, events, Failed);
  }

  lemma StateIff(s: State, events: seq<Event>, state: ConnectionState)
    requires IsInitial(s) && AllAllowed(s, events)
    ensures Run(s, events).state == state <==> InState(s, events, state)
  {
    hide Run, InState;
    RunsAreInState(s, events);
    if InState(s, events, state) {
      InStateDecides(s, events, state);
    }
  }

  /** A session is connecting if and only if the user has connected without an error being
      reported at once, and since then there was no error, no success, and no other call. */
  lemma ConnectingIff(s: State, events: seq<Event>)
    requires IsInitial(s) && AllAllowed(s, events)
    ensures Run(s, events).state == Connecting <==> exists k: nat :: ConnectingSince(events, k)
  {
    hide Run, ConnectingSince;
    StateIff(s, events, Connecting);
  }

  /** It is connected if and only if a connection came up and was neither lost nor ended. */
  lemma ConnectedIff(s: State, events: seq<Event>)
    requires IsInitial(s) && AllAllowed(s, events)
    ensures Run(s, events).state == Connected <==> exists k: nat :: ConnectedSince(events, k)
  {
    hide Run, ConnectedSince;
    StateIff(s, events, Connected);
  }

  /** The connection is lost if and only if it was reported gone when it was established, and
      since then it has neither come back nor has the user given it up or started anew. */
  lemma LostIff(s: State, events: seq<Event>)
    requires IsInitial(s) && AllAllowed(s, events)
    ensures Run(s, events).state == ConnectionLost <==> exists k: nat :: LostSince(s, events, k)
  {
    hide Run, LostSince;
    StateIff(s, events, ConnectionLost);
  }

  /** It is disconnected if and only if nothing was started and no error reported from the
      beginning, or since the user disconnected. */
  lemma DisconnectedIff(s: State, events: seq<Event>)
    requires IsInitial(s) && AllAllowed(s, events)
    ensures Run(s, events).state == Disconnected <==> exists k: nat :: DisconnectedSince(events, k)
  {
    hide Run, DisconnectedSince;
    StateIff(s, events, Disconnected);
  }

  /** No report ever takes an established or a lost connection for a failure, and every error
      on any other session makes it fail. */
  lemma ErrorsFailUnlessEstablished(s: State, events: seq<Event>)
    requires IsInitial(s) && AllAllowed(s, events)
    ensures var before, after := Run(s, events), Run(s, events + [Transport(Error)]);
            if before.state == Connected || before.state == ConnectionLost then after.state == ConnectionLost
            else after.state == Failed
  {
    hide Run, Step;
    RunSnoc(s, events, Transport(Error));
    StateNext(Run(s, events), Transport(Error));
  }

  // ----- whether it polls -----

  predicate AsksToPoll(event: Event) {
    event.PollRegisters? || event.PollFavorites?
  }

  /** Polling is interrupted by a loss, and is resumed when the connection comes back. */
  function NextPolling(s: State, event: Event): bool {
    match event
    case Disconnect(_) => false
    case Transport(Up) => s.polling || s.resume
    case Transport(Down) => s.polling && !Established(s.state)
    case Transport(Error) => s.polling && s.state != Connected
    case ReconnectTimeout(synchronous) => s.polling && !(s.state == ConnectionLost && Down in synchronous)
    case StopPolling => false
    case _ => s.polling || AsksToPoll(event)
  }

  function NextResume(s: State, event: Event): bool {
    match event
    case Connect(_) => false
    case Disconnect(_) => false
    case Transport(Up) => false
    case Transport(Down) => s.resume || (Established(s.state) && s.polling)
    case Transport(Error) => s.resume || (s.state == Connected && s.polling)
    case ReconnectTimeout(synchronous) => s.resume || (s.state == ConnectionLost && Down in synchronous && s.polling)
    case _ => s.resume
  }

  lemma {:induction false} LostSignals(s: State, signals: seq<TransportSignal>)
    requires OnlyLosses(signals) && s.state == ConnectionLost
    ensures var after := HandleAll(s, signals);
            && after.polling == (s.polling && Down !in signals)
            && after.resume == (s.resume || (s.polling && Down in signals))
            && (after.reconnectArmed <==> s.reconnectArmed || signals != [])
    decreases |signals|
  {
    if signals != [] {
      assert signals[0] != Up;
      assert forall k :: 0 <= k < |signals[1..]| ==> signals[1..][k] == signals[k + 1];
      assert signals == [signals[0]] + signals[1..];
      LostSignals(HandleSignal(s, signals[0]), signals[1..]);
    }
  }

  lemma {:induction false} UnestablishedSignals(s: State, signals: seq<TransportSignal>)
    requires OnlyLosses(signals) && !Established(s.state)
    ensures HandleAll(s, signals).polling == s.polling && HandleAll(s, signals).resume == s.resume
    decreases |signals|
  {
    if signals != [] {
      assert signals[0] != Up;
      assert forall k :: 0 <= k < |signals[1..]| ==> signals[1..][k] == signals[k + 1];
      UnestablishedSignals(HandleSignal(s, signals[0]), signals[1..]);
    }
  }

  lemma PollingNext(s: State, event: Event)
    requires Allowed(s, event)
    ensures Step(s, event).polling == NextPolling(s, event)
    ensures Step(s, event).resume == NextResume(s, event)
  {
    hide HandleAll;
    match event
    case Connect(synchronous) =>
      UnestablishedSignals(s.(resume := false, state := Connecting, attempting := false), synchronous);
    case ReconnectTimeout(synchronous) =>
      if s.state == ConnectionLost {
        LostSignals(s.(reconnectArmed := false, attempting := false), synchronous);
      }
    case Disconnect(synchronous) => LossesResumeNothing(Closing(s), synchronous);
    case _ =>
  }

  predicate NothingAsked(events: seq<Event>) {
    forall k :: 0 <= k < |events| ==> !AsksToPoll(events[k])
  }

  lemma {:induction false} StaysQuiet(s: State, events: seq<Event>)
    requires !s.polling && !s.resume && AllAllowed(s, events) && NothingAsked(events)
    ensures !Run(s, events).polling && !Run(s, events).resume
  {
    hide Step, Allowed;
    if events != [] {
      StaysQuiet(s, events[..|events| - 1]);
      PollingNext(Run(s, events[..|events| - 1]), events[|events| - 1]);
    }
  }

  /** After a disconnect nothing polls before the user asks for it, even if the transport comes
      up late or the user connects again. */
  lemma QuietAfterDisconnect(s: State, synchronous: seq<TransportSignal>, events: seq<Event>)
    requires OnlyLosses(synchronous) && NothingAsked(events)
    requires AllAllowed(Step(s, Disconnect(synchronous)), events)
    ensures !Run(Step(s, Disconnect(synchronous)), events).polling
  {
    hide Step, Run;
    PollingNext(s, Disconnect(synchronous));
    StaysQuiet(Step(s, Disconnect(synchronous)), events);
  }

  /** A call to connect forgets what would have been resumed: with nothing polling, nothing
      polls after it before the user asks for it. */
  lemma ConnectingForgets(s: State, synchronous: seq<TransportSignal>, events: seq<Event>)
    requires !s.polling && OnlyLosses(synchronous) && NothingAsked(events)
    requires AllAllowed(Step(s, Connect(synchronous)), events)
    ensures !Run(Step(s, Connect(synchronous)), events).polling
  {
    hide Step, Run;
    PollingNext(s, Connect(synchronous));
    StaysQuiet(Step(s, Connect(synchronous)), events);
  }

  // ----- a lost connection is retried -----

  /** A lost connection waits for its retry or for the outcome of one, and only a lost
      connection is resumed after. */
  predicate Retrying(s: State) {
    && (s.state == ConnectionLost ==> s.reconnectArmed || s.attempting)
    && (s.resume ==> s.state == ConnectionLost)
  }

  lemma StepRetries(s: State, event: Event)
    requires Retrying(s) && Allowed(s, event)
    ensures Retrying(Step(s, event))
  {
    hide HandleAll;
    PollingNext(s, event);
    StateNext(s, event);
  }

  /** In every run, a lost connection is being retried or waits for the timer that retries it,
      and polling is marked for resuming only while the connection is lost. */
  lemma {:induction false} LossesAreRetried(s: State, events: seq<Event>)
    requires IsInitial(s) && AllAllowed(s, events)
    ensures Retrying(Run(s, events))
  {
    hide Step, Allowed, Retrying;
    if events == [] {
      InitialRetries(s);
    } else {
      LossesAreRetried(s, events[..|events| - 1]);
      StepRetries(Run(s, events[..|events| - 1]), events[|events| - 1]);
    }
  }

  lemma InitialRetries(s: State)
    requires IsInitial(s)
    ensures Retrying(s)
  {
  }

  /** The retry timer: armed by every report of a loss on a connection that is or was up, spent
      when it fires, stopped by success and by a disconnect. */
  function NextArmed(s: State, event: Event): bool {
    match event
    case Transport(Up) => false
    case Transport(_) => s.reconnectArmed || Established(s.state)
    case ReconnectTimeout(synchronous) => s.state == ConnectionLost && synchronous != []
    case Disconnect(synchronous) => Established(s.state) && synchronous != []
    case _ => s.reconnectArmed
  }

  lemma {:induction false} SignalsArm(s: State, signals: seq<TransportSignal>)
    requires OnlyLosses(signals)
    ensures HandleAll(s, signals).reconnectArmed <==> s.reconnectArmed || (Established(s.state) && signals != [])
    decreases |signals|
  {
    if signals != [] {
      assert signals[0] != Up;
      assert forall k :: 0 <= k < |signals[1..]| ==> signals[1..][k] == signals[k + 1];
      SignalsArm(HandleSignal(s, signals[0]), signals[1..]);
    }
  }

  lemma RetryTimerNext(s: State, event: Event)
    requires Allowed(s, event)
    ensures Step(s, event).reconnectArmed == NextArmed(s, event)
  {
    hide HandleAll;
    match event
    case Connect(synchronous) => SignalsArm(s.(resume := false, state := Connecting, attempting := false), synchronous);
    case ReconnectTimeout(synchronous) => SignalsArm(s.(reconnectArmed := false, attempting := false), synchronous);
    case Disconnect(synchronous) => SignalsArm(Closing(s), synchronous);
    case _ =>
  }

  // ----- stopping while the connection is lost -----

  /** Whatever happens, nothing polls before the user asks for it. */
  ghost predicate NeverPolls(s: State) {
    forall events: seq<Event> :: AllAllowed(s, events) && NothingAsked(events) ==> !Run(s, events).polling
  }

  /** A retry, unless one is under way, and its success. */
  function ComingBack(s: State): seq<Event> {
    if s.attempting then [Transport(Up)] else [ReconnectTimeout([]), Transport(Up)]
  }

  lemma ComesBackPolling(s: State)
    requires Retrying(s) && s.resume
    ensures AllAllowed(s, ComingBack(s)) && NothingAsked(ComingBack(s))
    ensures Run(s, ComingBack(s)).polling
  {
    hide Run, AllAllowed;
    NothingRun(s);
    if s.attempting {
      RunSnoc(s, [], Transport(Up));
      assert ComingBack(s) == [] + [Transport(Up)];
    } else {
      RunSnoc(s, [], ReconnectTimeout([]));
      RunSnoc(s, [ReconnectTimeout([])], Transport(Up));
      assert [] + [ReconnectTimeout([])] == [ReconnectTimeout([])];
      assert ComingBack(s) == [ReconnectTimeout([])] + [Transport(Up)];
    }
  }

  /** Polling that the user stops stays stopped if and only if it is not marked for resuming:
      a stop while the connection is lost is undone when it comes back. */
  lemma StopIsFinalIff(s: State, events: seq<Event>)
    requires IsInitial(s) && AllAllowed(s, events)
    ensures NeverPolls(Step(Run(s, events), StopPolling)) <==> !Run(s, events).resume
  {
    hide Run, AllAllowed, NothingAsked, HandleAll, Retrying;
    LossesAreRetried(s, events);
    var stopped := Step(Run(s, events), StopPolling);
    StoppingRetries(Run(s, events));
    if stopped.resume {
      ComesBackPolling(stopped);
    } else {
      forall more: seq<Event> | AllAllowed(stopped, more) && NothingAsked(more)
        ensures !Run(stopped, more).polling
      {
        StaysQuiet(stopped, more);
      }
    }
  }

  lemma StoppingRetries(s: State)
    requires Retrying(s)
    ensures Retrying(Step(s, StopPolling)) && Step(s, StopPolling).resume == s.resume && !Step(s, StopPolling).polling
  {
  }

  /** The shortest such run from any connection that is polled. */
  lemma StopWhileLostIsUndone(s: State)
    requires s.state == Connected && s.polling
    ensures var stopped := Step(Step(s, Transport(Down)), StopPolling);
            && !stopped.polling
            && Step(Step(stopped, ReconnectTimeout([])), Transport(Up)).polling
  {
  }

  // ----- what is polled -----

  datatype Asked = Asked(registerType: RegisterType, startAddress: int, quantity: int)

  /** The latest request to poll registers. */
  function LatestAsked(events: seq<Event>): Option<Asked> {
    if events == [] then None
    else
      match events[|events| - 1]
      case PollRegisters(registerType, startAddress, quantity) => Some(Asked(registerType, startAddress, quantity))
      case _ => LatestAsked(events[..|events| - 1])
  }

  predicate Remembers(s: State, asked: Option<Asked>) {
    && (asked.Some? ==> asked.value == Asked(s.pollRegisterType, s.pollStartAddress, s.pollQuantity))
    && ((s.polling || s.resume) && s.activeFavorites == None ==> asked.Some?)
  }

  predicate SameAsked(a: State, b: State) {
    && b.pollRegisterType == a.pollRegisterType && b.pollStartAddress == a.pollStartAddress
    && b.pollQuantity == a.pollQuantity && b.activeFavorites == a.activeFavorites
    && (b.polling || b.resume ==> a.polling || a.resume)
  }

  lemma SignalKeepsAsked(s: State, signal: TransportSignal)
    ensures SameAsked(s, HandleSignal(s, signal))
  {
  }

  lemma {:induction false} SignalsKeepAsked(s: State, signals: seq<TransportSignal>)
    ensures SameAsked(s, HandleAll(s, signals))
    decreases |signals|
  {
    hide HandleSignal;
    if signals != [] {
      SignalKeepsAsked(s, signals[0]);
      SignalsKeepAsked(HandleSignal(s, signals[0]), signals[1..]);
    }
  }

  lemma StepRemembers(s: State, events: seq<Event>, event: Event)
    requires Remembers(s, LatestAsked(events))
    ensures Remembers(Step(s, event), LatestAsked(events + [event]))
  {
    hide HandleAll, HandleSignal, Edited;
    assert (events + [event])[..|events|] == events;
    match event
    case Transport(signal) => SignalKeepsAsked(s, signal);
    case Connect(synchronous) =>
      SignalsKeepAsked(s.(resume := false, state := Connecting, attempting := false), synchronous);
    case ReconnectTimeout(synchronous) => SignalsKeepAsked(s.(reconnectArmed := false, attempting := false), synchronous);
    case Disconnect(synchronous) => SignalsKeepAsked(Closing(s), synchronous);
    case _ =>
  }

  lemma {:induction false} RunsRemember(s: State, events: seq<Event>)
    requires IsInitial(s)
    ensures Remembers(Run(s, events), LatestAsked(events))
  {
    hide Step, Remembers;
    if events == [] {
      NothingRemembered(s);
    } else {
      var before, last := events[..|events| - 1], events[|events| - 1];
      RunsRemember(s, before);
      StepRemembers(Run(s, before), before, last);
      assert before + [last] == events;
    }
  }

  lemma NothingRemembered(s: State)
    requires IsInitial(s)
    ensures Remembers(s, LatestAsked([]))
  {
  }

  /** In every run, in register mode, the one target polled is the type, address and quantity
      last asked for, the numbers cut to 16 bits. */
  lemma PollsWhatWasAsked(s: State, events: seq<Event>)
    requires IsInitial(s) && Run(s, events).polling && Run(s, events).activeFavorites == None
    ensures LatestAsked(events).Some?
    ensures var targets, asked := Run(s, events).targets, LatestAsked(events).value;
            && |targets| == 1
            && targets[0].registerType == asked.registerType
            && targets[0].startAddress == asked.startAddress % 0x1_0000
            && targets[0].quantity == asked.quantity % 0x1_0000
  {
    hide Run, LatestAsked;
    RunsKeepOneTarget(s, events);
    RunsRemember(s, events);
  }

  /** And when it is asked for, it is for the unit set, cut to 8 bits. */
  lemma PollsTheUnitSet(s: State, registerType: RegisterType, startAddress: int, quantity: int)
    ensures Step(s, PollRegisters(registerType, startAddress, quantity)).targets
         == [PollTarget(s.unitId % 0x100, registerType, startAddress % 0x1_0000, quantity % 0x1_0000)]
  {
  }

  // ----- what is done to the transport -----

  /** The event opens the transport: the user connects, or a retry is due. */
  predicate Opens(s: State, event: Event) {
    event.Connect? || (event.ReconnectTimeout? && s.state == ConnectionLost)
  }

  function Openings(s: State, events: seq<Event>): nat {
    if events == [] then 0
    else
      var before := events[..|events| - 1];
      Openings(s, before) + if Opens(Run(s, before), events[|events| - 1]) then 1 else 0
  }

  function Disconnects(events: seq<Event>): nat {
    if events == [] then 0
    else Disconnects(events[..|events| - 1]) + if events[|events| - 1].Disconnect? then 1 else 0
  }

  lemma {:induction false} SignalsTouchNothing(s: State, signals: seq<TransportSignal>)
    ensures Happened(HandleAll(s, signals).log, Opened) == Happened(s.log, Opened)
    ensures Happened(HandleAll(s, signals).log, Closed) == Happened(s.log, Closed)
    decreases |signals|
  {
    hide HandleSignal, Happened;
    if signals != [] {
      SignalTouchesNothing(s, signals[0]);
      SignalsTouchNothing(HandleSignal(s, signals[0]), signals[1..]);
    }
  }

  lemma SignalTouchesNothing(s: State, signal: TransportSignal)
    ensures Happened(HandleSignal(s, signal).log, Opened) == Happened(s.log, Opened)
    ensures Happened(HandleSignal(s, signal).log, Closed) == Happened(s.log, Closed)
  {
    hide Happened;
    CountSnoc(s.log, Restored, Opened);
    CountSnoc(s.log, Restored, Closed);
    CountSnoc(s.log, Lost, Opened);
    CountSnoc(s.log, Lost, Closed);
  }

  lemma OpeningOpens(s: State, synchronous: seq<TransportSignal>)
    ensures Happened(Opening(s, synchronous).log, Opened) == Happened(s.log, Opened) + 1
    ensures Happened(Opening(s, synchronous).log, Closed) == Happened(s.log, Closed)
  {
    hide Happened, HandleAll;
    SignalsTouchNothing(s.(attempting := false), synchronous);
    CountSnoc(HandleAll(s.(attempting := false), synchronous).log, Opened, Opened);
    CountSnoc(HandleAll(s.(attempting := false), synchronous).log, Opened, Closed);
  }

  lemma StepTouches(s: State, event: Event)
    ensures Happened(Step(s, event).log, Opened) == Happened(s.log, Opened) + if Opens(s, event) then 1 else 0
    ensures Happened(Step(s, event).log, Closed) == Happened(s.log, Closed) + if event.Disconnect? then 1 else 0
  {
    hide Happened, HandleAll, HandleSignal, Opening, Edited;
    match event
    case Transport(signal) => SignalTouchesNothing(s, signal);
    case Connect(synchronous) => OpeningOpens(s.(resume := false, state := Connecting), synchronous);
    case ReconnectTimeout(synchronous) => OpeningOpens(s.(reconnectArmed := false), synchronous);
    case Disconnect(synchronous) =>
      CountSnoc(s.log, Closed, Opened);
      CountSnoc(s.log, Closed, Closed);
      SignalsTouchNothing(Closing(s), synchronous);
    case _ =>
  }

  /** In every run the transport is opened once for each call to connect and for each retry
      that finds the connection lost, and closed once for each call to disconnect. */
  lemma {:induction false} TransportFollowsCalls(s: State, events: seq<Event>)
    requires IsInitial(s)
    ensures Happened(Run(s, events).log, Opened) == Openings(s, events)
    ensures Happened(Run(s, events).log, Closed) == Disconnects(events)
  {
    hide Step, Opens, Happened;
    if events == [] {
      NothingHappened(s);
    } else {
      TransportFollowsCalls(s, events[..|events| - 1]);
      StepTouches(Run(s, events[..|events| - 1]), events[|events| - 1]);
    }
  }

  lemma NothingHappened(s: State)
    requires IsInitial(s)
    ensures Happened(s.log, Opened) == 0 && Happened(s.log, Closed) == 0
  {
  }
}
