/** The session half of the connection controller as an object: its handlers, as the program
    has them, proved to do what Session says. */
module SessionObject {
  import opened Numbers
  import opened RegisterTypes
  import opened ReadCoalescer
  import opened Favorites
  import S = Session

  class SessionController {
    var state: S.ConnectionState
    var reconnectArmed: bool
    var resumePollingOnReconnect: bool
    var unitId: int
    var pollRegisterType: RegisterType
    var pollStartAddress: int
    var pollQuantity: int
    var activeFavorites: Option<nat>
    var favorites: map<nat, seq<Definition>>
    var polling: bool
    var targets: seq<PollTarget>
    ghost var polledEntries: seq<Definition>
    ghost var polledUnit: u8
    var attempting: bool
    var log: seq<S.Happening>

    ghost function State(): S.State
      reads this
    {
      S.State(state, reconnectArmed, resumePollingOnReconnect, unitId, pollRegisterType, pollStartAddress, pollQuantity,
              activeFavorites, favorites, polling, targets, polledEntries, polledUnit, attempting, log)
    }

    function Entries(model: nat): seq<Definition>
      reads this
    {
      if model in favorites then favorites[model] else []
    }

    constructor (unitId: int, favorites: map<nat, seq<Definition>>)
      ensures S.IsInitial(State())
    {
      state, reconnectArmed, resumePollingOnReconnect := S.Disconnected, false, false;
      this.unitId, this.favorites := unitId, favorites;
      pollRegisterType, pollStartAddress, pollQuantity, activeFavorites := HoldingRegister, 0, 0, None;
      polling, targets, attempting, log := false, [], false, [];
      polledEntries, polledUnit := [], 0;
    }

    /** What opening and closing report before they return. */
    method Report(synchronous: seq<S.TransportSignal>)
      modifies this
      ensures State() == S.HandleAll(old(State()), synchronous)
    {
      for k := 0 to |synchronous|
        invariant S.HandleAll(State(), synchronous[k..]) == S.HandleAll(old(State()), synchronous)
      {
        assert synchronous[k..][1..] == synchronous[k + 1..];
        HandleSignal(synchronous[k]);
      }
    }

    method OpenActiveTransport(synchronous: seq<S.TransportSignal>)
      modifies this
      ensures State() == S.Opening(old(State()), synchronous)
    {
      attempting := false;
      Report(synchronous);
      attempting := true;
      log := log + [S.Opened];
    }

    method ConnectToDevice(synchronous: seq<S.TransportSignal>)
      modifies this
      ensures State() == S.ConnectToDevice(old(State()), synchronous)
    {
      resumePollingOnReconnect := false;
      state := S.Connecting;
      OpenActiveTransport(synchronous);
    }

    method DisconnectFromDevice(synchronous: seq<S.TransportSignal>)
      modifies this
      ensures State() == S.DisconnectFromDevice(old(State()), synchronous)
    {
      hide S.HandleAll;
      reconnectArmed := false;
      resumePollingOnReconnect := false;
      StopPolling();
      activeFavorites := None;
      log := log + [S.Closed];
      assert State() == S.Closing(old(State()));
      Report(synchronous);
      state := S.Disconnected;
    }

    method HandleSignal(signal: S.TransportSignal)
      modifies this
      ensures State() == S.HandleSignal(old(State()), signal)
    {
      match signal {
        case Up => HandleTransportConnectionStateChanged(true);
        case Down => HandleTransportConnectionStateChanged(false);
        case Error => HandleTransportError();
      }
    }

    /** The timer is single-shot: firing disarms it. */
    method HandleReconnectTimeout(synchronous: seq<S.TransportSignal>)
      modifies this
      ensures State() == S.Step(old(State()), S.ReconnectTimeout(synchronous))
    {
      reconnectArmed := false;
      BeginReconnectAttempt(synchronous);
    }

    method BeginReconnectAttempt(synchronous: seq<S.TransportSignal>)
      modifies this
      ensures State() == S.BeginReconnectAttempt(old(State()), synchronous)
    {
      if state != S.ConnectionLost {
        return;
      }
      OpenActiveTransport(synchronous);
    }

    method SetUnitId(newUnitId: int)
      modifies this`unitId
      ensures State() == S.Step(old(State()), S.SetUnitId(newUnitId))
    {
      if unitId == newUnitId {
        return;
      }
      unitId := newUnitId;
    }

    /** The favorites lists belong to the user interface; their entries are read when polling
        begins. */
    method EditFavorites(model: nat, edit: Edit)
      modifies this`favorites
      ensures State() == S.Step(old(State()), S.EditFavorites(model, edit))
    {
      favorites := favorites[model := Edited(Entries(model), edit)];
    }

    method StartPolling(registerType: RegisterType, startAddress: int, quantity: int)
      modifies this
      ensures State() == S.StartPolling(old(State()), registerType, startAddress, quantity)
    {
      pollRegisterType := registerType;
      pollStartAddress := startAddress;
      pollQuantity := quantity;
      var target := PollTarget(unitId % 0x100, pollRegisterType, Truncate16(startAddress), Truncate16(quantity));
      BeginPolling([target], None);
    }

    method StartPollingFavorites(favoritesModel: Option<nat>)
      modifies this
      ensures State() == if favoritesModel == None then old(State()) else S.BeginPolling(old(State()), favoritesModel)
    {
      if favoritesModel == None {
        return;
      }
      var newTargets := BuildPollTargets(Entries(favoritesModel.value), unitId % 0x100);
      BeginPolling(newTargets, favoritesModel);
    }

    method BeginPolling(newTargets: seq<PollTarget>, favoritesModel: Option<nat>)
      modifies this`activeFavorites, this`targets, this`polling, this`polledEntries, this`polledUnit
      ensures activeFavorites == favoritesModel && targets == newTargets && polling
      ensures polledEntries == S.ActiveEntries(State()) && polledUnit == S.UnitByte(State())
    {
      activeFavorites := favoritesModel;
      targets := newTargets;
      polling := true;
      polledEntries, polledUnit := S.ActiveEntries(State()), S.UnitByte(State());
    }

    method StopPolling()
      modifies this`polling
      ensures State() == old(State()).(polling := false)
    {
      if !polling {
        return;
      }
      polling := false;
    }

    method HandleTransportConnectionStateChanged(connected: bool)
      modifies this
      ensures State() == if connected then S.HandleUp(old(State())) else S.HandleDown(old(State()))
    {
      if connected {
        reconnectArmed := false;
        attempting := false;
        var wasReconnect := state == S.ConnectionLost;
        state := S.Connected;
        if wasReconnect {
          log := log + [S.Restored];
        }
        if resumePollingOnReconnect {
          resumePollingOnReconnect := false;
          if activeFavorites != None {
            StartPollingFavorites(activeFavorites);
          } else {
            StartPolling(pollRegisterType, pollStartAddress, pollQuantity);
          }
        }
        return;
      }

      attempting := false;
      if state == S.Connected || state == S.ConnectionLost {
        var wasConnected := state == S.Connected;
        if polling {
          resumePollingOnReconnect := true;
          StopPolling();
        }
        state := S.ConnectionLost;
        if wasConnected {
          log := log + [S.Lost];
        }
        reconnectArmed := true;
      }
    }

    method HandleTransportError()
      modifies this
      ensures State() == S.HandleError(old(State()))
    {
      attempting := false;
      if state == S.Connected {
        HandleTransportConnectionStateChanged(false);
        return;
      }
      if state == S.ConnectionLost {
        reconnectArmed := true;
        return;
      }
      state := S.Failed;
    }

    /** Whatever happens, the object does to its state what the step function says; so every
        property of runs is one of the object. */
    method Perform(event: S.Event)
      modifies this
      ensures State() == S.Step(old(State()), event)
    {
      match event {
        case Transport(signal) => HandleSignal(signal);
        case ReconnectTimeout(synchronous) => HandleReconnectTimeout(synchronous);
        case Connect(synchronous) => ConnectToDevice(synchronous);
        case Disconnect(synchronous) => DisconnectFromDevice(synchronous);
        case PollRegisters(registerType, startAddress, quantity) => StartPolling(registerType, startAddress, quantity);
        case PollFavorites(model) => StartPollingFavorites(Some(model));
        case StopPolling => StopPolling();
        case SetUnitId(unitId) => SetUnitId(unitId);
        case EditFavorites(model, edit) => EditFavorites(model, edit);
      }
    }
  }
}
