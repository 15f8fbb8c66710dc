/// The client connection sequencer of `sm/client_connection/mod.rs`: it runs
/// the handshake, negotiate, authenticate, associate, capabilities and
/// channels machines one after the other and stops at `Final`.
///
/// The current sub-machine is a boxed trait object whose code the sequencer
/// does not see; the model records WHICH machine is current and takes the
/// outcome of its update (the response and whether it has terminated) as
/// parameters.
module ClientConnection {
  import opened Wire
  import opened Errors
  import States
  import Authenticate
  import Capabilities
  import Channel
  import Sm

  type ConnectionState = States.ConnectionState

  /// The machines `current_sm` and `authenticate_sm` can hold.
  datatype Machine =
    | HandshakeMachine
    | NegotiateMachine
    | UserAuthenticate   // the machine handed to the builder
    | DummyMachine       // `DummyConnectionSM`
    | AssociateMachine
    | CapabilitiesMachine
    | ChannelsMachine

  /// The stages whose completion is announced to the user callback, in order.
  const Stages: seq<ConnectionState> :=
    [States.Handshake, States.Negotiate, States.Authenticate, States.Associate, States.Capabilities, States.Channels]

  /// The state `__go_to_next_state` moves to.
  function Next(s: ConnectionState): (n: ConnectionState)
    ensures s != States.ConnectionState.Final ==> States.Index(n) == States.Index(s) + 1
    ensures s == States.ConnectionState.Final ==> n == States.ConnectionState.Final
  {
    match s
    case Handshake => States.Negotiate
    case Negotiate => States.Authenticate
    case Authenticate => States.Associate
    case Associate => States.Capabilities
    case Capabilities => States.Channels
    case Channels => States.ConnectionState.Final
    case Final => States.ConnectionState.Final
  }

  /// The machine `__go_to_next_state` installs on entering a state other
  /// than `Authenticate` (which takes the user's machine) and `Final` (which
  /// installs none).
  function MachineFor(s: ConnectionState): Machine
  {
    match s
    case Handshake => HandshakeMachine
    case Negotiate => NegotiateMachine
    case Authenticate => UserAuthenticate
    case Associate => AssociateMachine
    case Capabilities => CapabilitiesMachine
    case Channels => ChannelsMachine
    case Final => DummyMachine
  }

  /// The state after one update: a terminated sub-machine advances the
  /// sequence whatever it returned; otherwise an error ends it.
  function AfterUpdate(s: ConnectionState, response: Sm.ConnectionSMResult, terminated: bool): (n: ConnectionState)
    ensures terminated ==> n == Next(s)
    ensures !terminated ==> (n == States.ConnectionState.Final <==> s == States.ConnectionState.Final || response.Err?)
    ensures n == s || n == States.ConnectionState.Final || States.Index(n) == States.Index(s) + 1
  {
    if terminated then Next(s)
    else if response.Err? then States.ConnectionState.Final
    else s
  }

  /// `n` successful stages from `s`.
  function Advance(s: ConnectionState, n: nat): ConnectionState
  {
    if n == 0 then s else Next(Advance(s, n - 1))
  }

  /// The sequence moves one step per completed stage and cannot go past
  /// `Final`: it is six completed stages from `Handshake` to `Final`.
  lemma {:induction false} AdvanceIndex(s: ConnectionState, n: nat)
    ensures States.Index(Advance(s, n)) == if States.Index(s) + n <= 6 then States.Index(s) + n else 6
  {
    if n > 0 {
      AdvanceIndex(s, n - 1);
    }
  }

  lemma SixStagesReachFinal()
    ensures Advance(States.Handshake, 6) == States.ConnectionState.Final
    ensures forall n :: n < 6 ==> Advance(States.Handshake, n) != States.ConnectionState.Final
  {
    AdvanceIndex(States.Handshake, 6);
    forall n | n < 6
      ensures Advance(States.Handshake, n) != States.ConnectionState.Final
    {
      AdvanceIndex(States.Handshake, n);
    }
  }

  /// `Final` is never left, whatever the sub-machine answers.
  lemma FinalIsAbsorbing(response: Sm.ConnectionSMResult, terminated: bool)
    ensures AfterUpdate(States.ConnectionState.Final, response, terminated) == States.ConnectionState.Final
  {
  }

  /// An error returned by a sub-machine that also reports itself terminated
  /// is not checked: the sequence still advances.
  lemma ErrorAtTerminationAdvances(s: ConnectionState, e: ProtoError)
    requires s != States.ConnectionState.Final
    ensures AfterUpdate(s, Err(e), true) != States.ConnectionState.Final || s == States.Channels
    ensures States.Index(AfterUpdate(s, Err(e), true)) == States.Index(s) + 1
  {
  }

  /// `ClientConnectionSeqSM`
  class ClientConnectionSeq {
    var state: ConnectionState
    var current: Machine
    var authenticateSlot: Machine
    /// The stages whose `on_*_completed` callback has been called, in order.
    var notified: seq<ConnectionState>
    /// `shared_data`: one record, written by the sub-machines.
    var shared: Sm.SharedData

    /// The machine in place matches the state, the user's authenticate
    /// machine is used once, and the callbacks announced so far are the
    /// stages completed, in order.
    ghost predicate Valid()
      reads this
    {
      && (state != States.ConnectionState.Final ==> current == MachineFor(state))
      && (States.Index(state) < 2 ==> authenticateSlot == UserAuthenticate)
      && (state != States.ConnectionState.Final && States.Index(state) >= 2 ==> authenticateSlot == DummyMachine)
      && |notified| <= |Stages|
      && notified == Stages[..|notified|]
      && (state != States.ConnectionState.Final ==> |notified| == States.Index(state))
    }

    /// `ClientConnectionSeqSM::new`
    constructor (availableAuthTypes: seq<Authenticate.AuthType>, capabilities: seq<Capabilities.NowCapset>,
                 channels: seq<Channel.NowChannelDef>)
      ensures Valid()
      ensures state == States.Handshake && current == HandshakeMachine && authenticateSlot == UserAuthenticate
      ensures notified == []
      ensures fresh(shared)
      ensures shared.availableAuthTypes == availableAuthTypes && shared.capabilities == capabilities
      ensures shared.channels == channels
    {
      state := States.Handshake;
      current := HandshakeMachine;
      authenticateSlot := UserAuthenticate;
      notified := [];
      shared := new Sm.SharedData(availableAuthTypes, capabilities, channels);
    }

    function GetState(): ConnectionState
      reads this
    {
      state
    }

    function IsTerminated(): (r: bool)
      reads this
      ensures r <==> state == States.ConnectionState.Final
    {
      state == States.ConnectionState.Final
    }

    /// `__check_result`
    method CheckResult(response: Sm.ConnectionSMResult)
      modifies this
      ensures state == (if response.Err? then States.ConnectionState.Final else old(state))
      ensures current == old(current) && authenticateSlot == old(authenticateSlot)
      ensures notified == old(notified) && shared == old(shared)
    {
      if response.Err? {
        state := States.ConnectionState.Final;
      }
    }

    /// `__go_to_next_state`
    method GoToNextState()
      modifies this
      ensures state == Next(old(state))
      ensures old(state) == States.Negotiate ==> current == old(authenticateSlot) && authenticateSlot == DummyMachine
      ensures old(state) != States.Negotiate ==> authenticateSlot == old(authenticateSlot)
      ensures old(state) !in {States.Negotiate, States.Channels, States.ConnectionState.Final} ==> current == MachineFor(state)
      ensures old(state) in {States.Channels, States.ConnectionState.Final} ==> current == old(current)
      ensures notified == old(notified) + (if old(state) == States.ConnectionState.Final then [] else [old(state)])
      ensures shared == old(shared)
    {
      match state {
        case Handshake =>
          state := States.Negotiate;
          current := NegotiateMachine;
          notified := notified + [States.Handshake];
        case Negotiate =>
          state := States.Authenticate;
          current, authenticateSlot := authenticateSlot, current;
          authenticateSlot := DummyMachine;
          notified := notified + [States.Negotiate];
        case Authenticate =>
          state := States.Associate;
          current := AssociateMachine;
          notified := notified + [States.Authenticate];
        case Associate =>
          state := States.Capabilities;
          current := CapabilitiesMachine;
          notified := notified + [States.Associate];
        case Capabilities =>
          state := States.Channels;
          current := ChannelsMachine;
          notified := notified + [States.Capabilities];
        case Channels =>
          state := States.ConnectionState.Final;
          notified := notified + [States.Channels];
        case Final =>
      }
    }

    /// `update_without_message` and `update_with_message`: the current
    /// machine answered `response` and reports `terminated`; the response
    /// is handed back unchanged.
    method Update(response: Sm.ConnectionSMResult, terminated: bool) returns (r: Sm.ConnectionSMResult)
      requires Valid()
      modifies this
      ensures Valid()
      ensures r == response
      ensures state == AfterUpdate(old(state), response, terminated)
      ensures terminated && old(state) != States.ConnectionState.Final ==> notified == old(notified) + [old(state)]
      ensures !terminated || old(state) == States.ConnectionState.Final ==> notified == old(notified)
      ensures shared == old(shared)
    {
      if terminated {
        GoToNextState();
        if old(state) != States.ConnectionState.Final {
          assert Stages[..|notified|] == Stages[..|old(notified)|] + [Stages[|old(notified)|]];
        }
      } else {
        CheckResult(response);
      }
      r := response;
    }
  }
}
