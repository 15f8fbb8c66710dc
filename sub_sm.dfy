/// The sub-machines of the client connection sequence
/// (`sm/client_connection/sub_sm.rs`): handshake, negotiate, associate,
/// capabilities and channels. Each is a class whose `state` field its two
/// update methods change; every update appends to an `SMEvents` list.
///
/// Each update is specified by a function from the old state (and the
/// message and the shared data it reads) to the new state and the events
/// pushed; the functions' own contracts state what the machine promises.
module SubSm {
  import opened Wire
  import opened Errors
  import opened Sm
  import States
  import Flags
  import Status
  import Messages
  import MessageTypes
  import Handshake
  import Negotiate
  import Associate
  import Capabilities
  import Channel
  import Activate
  import Authenticate
  import ChannelNames

  // ---------------------------------------------------------------- shared

  /// `unexpected_call!`: a fatal error naming the machine's stage.
  function UnexpectedCall(stage: States.ConnectionState): SMEvent
  {
    Fatal(Reported(ConnectionSequence(stage)))
  }

  /// `unexpected_msg!`: a warning naming the type `get_type` reports for
  /// the message received. As written, `get_type` reports an access-control
  /// message as Sharing, so that is the type the warning names.
  function UnexpectedMsg(m: Messages.NowMessage): (e: SMEvent)
    ensures e.Warn? && e.error.source.None? && e.error.description.None?
    ensures e.error.kind == ProtoErrorKind.UnexpectedMessage(
              if m.AccessMsg? then MessageTypes.Sharing else Messages.GetType(m))
  {
    Warn(Reported(ProtoErrorKind.UnexpectedMessage(Messages.GetTypeAsWritten(m))))
  }

  /// An event that reports a problem rather than progress.
  predicate IsProblem(e: SMEvent)
  {
    e.Fatal? || e.Error? || e.Warn?
  }

  /// What every update of every sub-machine promises about its events: a
  /// state change is reported by exactly one `StateTransition`, the last
  /// event, carrying the new state; an update that keeps the state pushes a
  /// single problem event and nothing else.
  predicate Reports(before: ProtoState, after: ProtoState, events: seq<SMEvent>)
  {
    && (after != before ==> |events| > 0 && events[|events| - 1] == StateTransition(after))
    && (forall i | 0 <= i < |events| && events[i].StateTransition? :: after != before && i == |events| - 1)
    && (after == before ==> |events| == 1 && IsProblem(events[0]))
  }

  function BasicRank(s: BasicState): nat
  {
    match s
    case Initial => 0
    case Ready => 1
    case Terminated => 2
  }

  // ---------------------------------------------------------------- handshake

  /// `HandshakeSM::update_without_message`
  function HandshakeWithout(s: BasicState): (r: (BasicState, seq<SMEvent>))
    ensures Reports(Basic(s), Basic(r.0), r.1)
    ensures r.0 != s <==> s == Initial
    ensures s == Initial ==> r.0 == Ready && r.1[0] == PacketToSend(OfMessage(Messages.HandshakeMsg(Handshake.DefaultMsg)))
    ensures s != Initial ==> r.1 == [UnexpectedCall(States.Handshake)]
  {
    if s == Initial then
      (Ready, [PacketToSend(OfMessage(Messages.HandshakeMsg(Handshake.DefaultMsg))), StateTransition(Basic(Ready))])
    else
      (s, [UnexpectedCall(States.Handshake)])
  }

  /// `HandshakeSM::update_with_message`: in `Ready`, the server's handshake
  /// status code decides.
  function HandshakeWith(s: BasicState, m: Messages.NowMessage): (r: (BasicState, seq<SMEvent>))
    ensures Reports(Basic(s), Basic(r.0), r.1)
    ensures r.0 != s <==> s == Ready && m.HandshakeMsg? && m.handshake.status.code == 0
    ensures r.0 != s ==> r.0 == Terminated
    ensures s == Ready && m.HandshakeMsg? && m.handshake.status.code in {0xFFFF, 1} ==>
              r.1 == [Fatal(Reported(ConnectionSequence(States.Handshake)))]
    ensures s == Ready && m.HandshakeMsg? && m.handshake.status.code !in {0, 0xFFFF, 1} ==>
              r.1 == [Error(Reported(ConnectionSequence(States.Handshake)))]
    ensures s == Ready && !m.HandshakeMsg? ==> r.1 == [UnexpectedMsg(m)]
    ensures s != Ready ==> r.1 == [UnexpectedCall(States.Handshake)]
  {
    if s == Ready then
      if m.HandshakeMsg? then
        match Status.HandshakeFromU16(m.handshake.status.code)
        case HandshakeSuccess => (Terminated, [StateTransition(Basic(Terminated))])
        case HandshakeFailure => (s, [Fatal(Reported(ConnectionSequence(States.Handshake)))])
        case Incompatible => (s, [Fatal(Reported(ConnectionSequence(States.Handshake)))])
        case HandshakeOther(_) => (s, [Error(Reported(ConnectionSequence(States.Handshake)))])
      else (s, [UnexpectedMsg(m)])
    else
      (s, [UnexpectedCall(States.Handshake)])
  }

  /// An access-control message in the handshake's `Ready` state draws a
  /// warning that names Sharing, not the access-control type the message
  /// is framed with.
  lemma AccessWarnedAsSharing(m: Messages.NowMessage)
    requires m.AccessMsg?
    ensures HandshakeWith(Ready, m).1 == [Warn(Reported(ProtoErrorKind.UnexpectedMessage(MessageTypes.Sharing)))]
    ensures Messages.GetType(m) != MessageTypes.Sharing
  {
    Messages.AccessMislabelled(m, []);
  }

  /// `HandshakeSM`
  class HandshakeSM {
    var state: BasicState

    constructor ()
      ensures state == Initial
    {
      state := Initial;
    }

    function IsTerminated(): bool
      reads this
    {
      state == Terminated
    }

    function WaitingForPacket(): bool
      reads this
    {
      state == Ready
    }

    method UpdateWithoutMessage(data: SMData, events: SMEvents)
      modifies this, events
      ensures state == HandshakeWithout(old(state)).0
      ensures events.items == old(events.items) + HandshakeWithout(old(state)).1
    {
      match state
      case Initial =>
        events.Push(PacketToSend(OfMessage(Messages.HandshakeMsg(Handshake.DefaultMsg))));
        state := Ready;
        events.Push(StateTransition(Basic(state)));
      case _ =>
        events.Push(UnexpectedCall(States.Handshake));
    }

    method UpdateWithMessage(data: SMData, events: SMEvents, m: Messages.NowMessage)
      modifies this, events
      ensures state == HandshakeWith(old(state), m).0
      ensures events.items == old(events.items) + HandshakeWith(old(state), m).1
    {
      match state {
        case Ready =>
          if m.HandshakeMsg? {
              match Status.HandshakeFromU16(m.handshake.status.code) {
                case HandshakeSuccess =>
                  state := Terminated;
                  events.Push(StateTransition(Basic(state)));
                case HandshakeFailure =>
                  events.Push(Fatal(Reported(ConnectionSequence(States.Handshake))));
                case Incompatible =>
                  events.Push(Fatal(Reported(ConnectionSequence(States.Handshake))));
                case HandshakeOther(_) =>
                  events.Push(Error(Reported(ConnectionSequence(States.Handshake))));
              }
          } else {
              events.Push(UnexpectedMsg(m));
          }
        case _ =>
          events.Push(UnexpectedCall(States.Handshake));
      }
    }
  }

  // ---------------------------------------------------------------- negotiate

  /// The server's methods that this side supports, in the server's order
  /// (the `filter` over the server's list).
  function {:induction false} CommonAuths(server: seq<Authenticate.AuthType>, supported: seq<Authenticate.AuthType>)
    : (r: seq<Authenticate.AuthType>)
    ensures forall a :: a in r <==> a in server && a in supported
    ensures |r| <= |server|
    ensures (forall a | a in server :: a in supported) ==> r == server
  {
    if server == [] then []
    else if server[0] in supported then [server[0]] + CommonAuths(server[1..], supported)
    else CommonAuths(server[1..], supported)
  }

  /// The flags of the negotiate message the client sends:
  /// `NegotiateFlags::new_empty().set_srp_extended()`.
  const NegotiateFlagsSent: u32 := Negotiate.SrpExtended

  /// `NegotiateSM::update_without_message`: the client offers the methods it
  /// supports.
  function NegotiateWithout(s: BasicState, supported: seq<Authenticate.AuthType>): (r: (BasicState, seq<SMEvent>))
    ensures Reports(Basic(s), Basic(r.0), r.1)
    ensures r.0 != s <==> s == Initial
    ensures s == Initial ==>
              r.0 == Ready &&
              r.1[0] == PacketToSend(OfMessage(Messages.NegotiateMsg(Negotiate.NewWithAuthList(NegotiateFlagsSent, supported))))
    ensures s != Initial ==> r.1 == [UnexpectedCall(States.Negotiate)]
  {
    if s == Initial then
      (Ready, [PacketToSend(OfMessage(Messages.NegotiateMsg(Negotiate.NewWithAuthList(NegotiateFlagsSent, supported)))),
               StateTransition(Basic(Ready))])
    else
      (s, [UnexpectedCall(States.Negotiate)])
  }

  /// `NegotiateSM::update_with_message`: the server's answer gives the
  /// methods both sides support.
  function NegotiateWith(s: BasicState, supported: seq<Authenticate.AuthType>, m: Messages.NowMessage)
    : (r: (BasicState, seq<SMEvent>))
    ensures Reports(Basic(s), Basic(r.0), r.1)
    ensures r.0 != s <==> s == Ready && m.NegotiateMsg?
    ensures r.0 != s ==>
              r.0 == Terminated &&
              r.1[0] == Data(AvailableAuthTypes(CommonAuths(m.negotiate.authList, supported)))
    ensures s == Ready && !m.NegotiateMsg? ==> r.1 == [UnexpectedMsg(m)]
    ensures s != Ready ==> r.1 == [UnexpectedCall(States.Negotiate)]
  {
    if s == Ready then
      if m.NegotiateMsg? then
        (Terminated, [Data(AvailableAuthTypes(CommonAuths(m.negotiate.authList, supported))),
                      StateTransition(Basic(Terminated))])
      else (s, [UnexpectedMsg(m)])
    else
      (s, [UnexpectedCall(States.Negotiate)])
  }

  /// `NegotiateSM`
  class NegotiateSM {
    var state: BasicState

    constructor ()
      ensures state == Initial
    {
      state := Initial;
    }

    function IsTerminated(): bool
      reads this
    {
      state == Terminated
    }

    function WaitingForPacket(): bool
      reads this
    {
      state == Ready
    }

    method UpdateWithoutMessage(data: SMData, events: SMEvents)
      modifies this, events
      ensures state == NegotiateWithout(old(state), data.supportedAuths).0
      ensures events.items == old(events.items) + NegotiateWithout(old(state), data.supportedAuths).1
    {
      match state
      case Initial =>
        var offer := Negotiate.NewWithAuthList(NegotiateFlagsSent, data.supportedAuths);
        events.Push(PacketToSend(OfMessage(Messages.NegotiateMsg(offer))));
        state := Ready;
        events.Push(StateTransition(Basic(state)));
      case _ =>
        events.Push(UnexpectedCall(States.Negotiate));
    }

    method UpdateWithMessage(data: SMData, events: SMEvents, m: Messages.NowMessage)
      modifies this, events
      ensures state == NegotiateWith(old(state), data.supportedAuths, m).0
      ensures events.items == old(events.items) + NegotiateWith(old(state), data.supportedAuths, m).1
    {
      match state {
        case Ready =>
          if m.NegotiateMsg? {
            events.Push(Data(AvailableAuthTypes(CommonAuths(m.negotiate.authList, data.supportedAuths))));
            state := Terminated;
            events.Push(StateTransition(Basic(state)));
          } else {
            events.Push(UnexpectedMsg(m));
          }
        case _ =>
          events.Push(UnexpectedCall(States.Negotiate));
      }
    }
  }

  // ---------------------------------------------------------------- associate

  /// `active()` of the associate information flags.
  predicate SessionActive(info: Associate.SessionMsg)
  {
    Flags.Has(info.flags, Associate.Active)
  }

  function AssociateRank(s: AssociateState): nat
  {
    match s
    case WaitInfo => 0
    case WaitResponse => 1
    case AssociateTerminated => 2
  }

  /// `AssociateSM::update_without_message`: never expected.
  function AssociateWithout(s: AssociateState): (r: (AssociateState, seq<SMEvent>))
    ensures Reports(Associating(s), Associating(r.0), r.1)
    ensures r == (s, [UnexpectedCall(States.Associate)])
  {
    (s, [UnexpectedCall(States.Associate)])
  }

  /// `AssociateSM::update_with_message`: the server's information, then its
  /// response.
  function AssociateWith(s: AssociateState, m: Messages.NowMessage): (r: (AssociateState, seq<SMEvent>))
    ensures Reports(Associating(s), Associating(r.0), r.1)
    ensures AssociateRank(r.0) >= AssociateRank(s)
    ensures s == WaitInfo ==> (r.0 == WaitResponse <==> m.AssociateMsg? && m.associate.Info?)
    ensures s == WaitInfo && m.AssociateMsg? && m.associate.Info? ==>
              (PacketToSend(OfMessage(Messages.AssociateMsg(Associate.RequestMsg))) in r.1 <==> !SessionActive(m.associate.info))
    ensures r.0 == AssociateTerminated && s != AssociateTerminated <==>
              s == WaitResponse && m.AssociateMsg? && m.associate.Response? && m.associate.response.status.code == 0
    ensures s == WaitResponse && m.AssociateMsg? && m.associate.Response? && m.associate.response.status.code == 0xFFFF ==>
              r.1 == [Fatal(Reported(ConnectionSequence(States.Associate)))]
    ensures s == AssociateTerminated ==> r.1 == [UnexpectedCall(States.Associate)]
  {
    match s
    case WaitInfo =>
      if m.AssociateMsg? && m.associate.Info? then
        if SessionActive(m.associate.info) then (WaitResponse, [StateTransition(Associating(WaitResponse))])
        else (WaitResponse, [PacketToSend(OfMessage(Messages.AssociateMsg(Associate.RequestMsg))),
                             StateTransition(Associating(WaitResponse))])
      else (s, [UnexpectedMsg(m)])
    case WaitResponse =>
      if m.AssociateMsg? && m.associate.Response? then
        match Status.AssociateFromU16(m.associate.response.status.code)
        case AssociateSuccess => (AssociateTerminated, [StateTransition(Associating(AssociateTerminated))])
        case AssociateFailure => (s, [Fatal(Reported(ConnectionSequence(States.Associate)))])
        case AssociateOther(_) => (s, [Error(Reported(ConnectionSequence(States.Associate)))])
      else (s, [UnexpectedMsg(m)])
    case AssociateTerminated =>
      (s, [UnexpectedCall(States.Associate)])
  }

  /// `AssociateSM`
  class AssociateSM {
    var state: AssociateState

    constructor ()
      ensures state == WaitInfo
    {
      state := WaitInfo;
    }

    function IsTerminated(): bool
      reads this
    {
      state == AssociateTerminated
    }

    /// Waiting until it has finished.
    function WaitingForPacket(): (r: bool)
      reads this
      ensures r == !IsTerminated()
    {
      !IsTerminated()
    }

    method UpdateWithoutMessage(data: SMData, events: SMEvents)
      modifies events
      ensures state == AssociateWithout(state).0
      ensures events.items == old(events.items) + AssociateWithout(state).1
    {
      events.Push(UnexpectedCall(States.Associate));
    }

    method UpdateWithMessage(data: SMData, events: SMEvents, m: Messages.NowMessage)
      modifies this, events
      ensures state == AssociateWith(old(state), m).0
      ensures events.items == old(events.items) + AssociateWith(old(state), m).1
    {
      match state {
      case WaitInfo =>
        if m.AssociateMsg? && m.associate.Info? {
          if !SessionActive(m.associate.info) {
            events.Push(PacketToSend(OfMessage(Messages.AssociateMsg(Associate.RequestMsg))));
          }
          state := WaitResponse;
          events.Push(StateTransition(Associating(state)));
        } else {
          events.Push(UnexpectedMsg(m));
        }
      case WaitResponse =>
        if m.AssociateMsg? && m.associate.Response? {
          match Status.AssociateFromU16(m.associate.response.status.code) {
            case AssociateSuccess =>
              state := AssociateTerminated;
              events.Push(StateTransition(Associating(state)));
            case AssociateFailure =>
              events.Push(Fatal(Reported(ConnectionSequence(States.Associate))));
            case AssociateOther(_) =>
              events.Push(Error(Reported(ConnectionSequence(States.Associate))));
          }
        } else {
          events.Push(UnexpectedMsg(m));
        }
      case AssociateTerminated =>
        events.Push(UnexpectedCall(States.Associate));
      }
    }
  }

  // ---------------------------------------------------------------- capabilities

  /// `CapabilitiesSM::update_without_message`: never expected.
  function CapabilitiesWithout(s: BasicState): (r: (BasicState, seq<SMEvent>))
    ensures Reports(Basic(s), Basic(r.0), r.1)
    ensures r == (s, [UnexpectedCall(States.Capabilities)])
  {
    (s, [UnexpectedCall(States.Capabilities)])
  }

  /// `CapabilitiesSM::update_with_message`: the server's capabilities are
  /// answered with this side's own.
  function CapabilitiesWith(s: BasicState, own: seq<Capabilities.NowCapset>, m: Messages.NowMessage)
    : (r: (BasicState, seq<SMEvent>))
    ensures Reports(Basic(s), Basic(r.0), r.1)
    ensures r.0 != s <==> s != Terminated && m.CapabilitiesMsg?
    ensures r.0 != s ==>
              r.0 == Terminated &&
              r.1[0] == PacketToSend(OfMessage(Messages.CapabilitiesMsg(Capabilities.NewCapabilitiesMsg(own))))
    ensures s == Terminated ==> r.1 == [UnexpectedCall(States.Capabilities)]
    ensures s != Terminated && !m.CapabilitiesMsg? ==> r.1 == [UnexpectedMsg(m)]
  {
    if s == Terminated then
      (s, [UnexpectedCall(States.Capabilities)])
    else
      if m.CapabilitiesMsg? then
        (Terminated, [PacketToSend(OfMessage(Messages.CapabilitiesMsg(Capabilities.NewCapabilitiesMsg(own)))),
                      StateTransition(Basic(Terminated))])
      else (s, [UnexpectedMsg(m)])
  }

  /// `CapabilitiesSM`
  class CapabilitiesSM {
    var state: BasicState

    constructor ()
      ensures state == Ready
    {
      state := Ready;
    }

    function IsTerminated(): bool
      reads this
    {
      state == Terminated
    }

    function WaitingForPacket(): bool
      reads this
    {
      state != Terminated
    }

    method UpdateWithoutMessage(data: SMData, events: SMEvents)
      modifies events
      ensures state == CapabilitiesWithout(state).0
      ensures events.items == old(events.items) + CapabilitiesWithout(state).1
    {
      events.Push(UnexpectedCall(States.Capabilities));
    }

    method UpdateWithMessage(data: SMData, events: SMEvents, m: Messages.NowMessage)
      modifies this, events
      ensures state == CapabilitiesWith(old(state), data.capabilities, m).0
      ensures events.items == old(events.items) + CapabilitiesWith(old(state), data.capabilities, m).1
    {
      if state == Terminated {
        events.Push(UnexpectedCall(States.Capabilities));
      } else {
        if m.CapabilitiesMsg? {
          events.Push(PacketToSend(OfMessage(Messages.CapabilitiesMsg(Capabilities.NewCapabilitiesMsg(data.capabilities)))));
          state := Terminated;
          events.Push(StateTransition(Basic(state)));
        } else {
          events.Push(UnexpectedMsg(m));
        }
      }
    }
  }

  // ---------------------------------------------------------------- channels

  /// Whether a channel list names `name`.
  predicate Listed(list: seq<Channel.NowChannelDef>, name: ChannelNames.ChannelName)
  {
    exists i :: 0 <= i < |list| && list[i].name == name
  }

  /// The names of this side's channels the server did not list, in this
  /// side's order (the loop that fills `unavailable_channels`).
  function {:induction false} UnavailableNames(defs: seq<Channel.NowChannelDef>, server: seq<Channel.NowChannelDef>)
    : (r: seq<ChannelNames.ChannelName>)
    ensures forall n :: n in r <==> (exists d | d in defs :: d.name == n) && !Listed(server, n)
  {
    if defs == [] then []
    else
      var last := defs[|defs| - 1];
      var earlier := UnavailableNames(defs[..|defs| - 1], server);
      assert forall d :: d in defs <==> d in defs[..|defs| - 1] || d == last;
      if Listed(server, last.name) then earlier else earlier + [last.name]
  }

  /// `retain`: the defs whose name is not in `dropped`, in order.
  function {:induction false} Retain(defs: seq<Channel.NowChannelDef>, dropped: seq<ChannelNames.ChannelName>)
    : (r: seq<Channel.NowChannelDef>)
    ensures forall d :: d in r <==> d in defs && d.name !in dropped
    ensures |r| <= |defs|
  {
    if defs == [] then []
    else if defs[0].name in dropped then Retain(defs[1..], dropped)
    else [defs[0]] + Retain(defs[1..], dropped)
  }

  /// The reference the list-response handling is measured against: the defs
  /// the server lists, in this side's order.
  function {:induction false} KeepListed(defs: seq<Channel.NowChannelDef>, server: seq<Channel.NowChannelDef>)
    : (r: seq<Channel.NowChannelDef>)
    ensures forall d :: d in r <==> d in defs && Listed(server, d.name)
  {
    if defs == [] then []
    else if Listed(server, defs[0].name) then [defs[0]] + KeepListed(defs[1..], server)
    else KeepListed(defs[1..], server)
  }

  /// The defs after a list response, as `update_with_message` computes them.
  function AfterListResponse(defs: seq<Channel.NowChannelDef>, server: seq<Channel.NowChannelDef>)
    : seq<Channel.NowChannelDef>
  {
    var unavailable := UnavailableNames(defs, server);
    if unavailable == [] then defs else Retain(defs, unavailable)
  }

  /// Retaining the defs whose names are not among the unavailable ones keeps
  /// exactly the listed defs, in order.
  lemma {:induction false} RetainKeepsListed(defs: seq<Channel.NowChannelDef>, server: seq<Channel.NowChannelDef>,
                                              dropped: seq<ChannelNames.ChannelName>)
    requires forall d | d in defs :: d.name in dropped <==> !Listed(server, d.name)
    ensures Retain(defs, dropped) == KeepListed(defs, server)
  {
    if defs != [] {
      assert defs[0] in defs;
      assert forall d | d in defs[1..] :: d in defs;
      RetainKeepsListed(defs[1..], server, dropped);
    }
  }

  /// When every def is listed, filtering keeps them all.
  lemma {:induction false} KeepAllListed(defs: seq<Channel.NowChannelDef>, server: seq<Channel.NowChannelDef>)
    requires forall d | d in defs :: Listed(server, d.name)
    ensures KeepListed(defs, server) == defs
  {
    if defs != [] {
      assert defs[0] in defs;
      assert forall d | d in defs[1..] :: d in defs;
      KeepAllListed(defs[1..], server);
    }
  }

  /// After a list response, the channel defs are exactly the listed ones, in
  /// order; a warning is due exactly when one was dropped.
  lemma ListResponseKeepsListed(defs: seq<Channel.NowChannelDef>, server: seq<Channel.NowChannelDef>)
    ensures AfterListResponse(defs, server) == KeepListed(defs, server)
    ensures UnavailableNames(defs, server) == [] <==> KeepListed(defs, server) == defs
  {
    var unavailable := UnavailableNames(defs, server);
    if unavailable == [] {
      forall d | d in defs
        ensures Listed(server, d.name)
      {
        assert d.name !in unavailable;
      }
      KeepAllListed(defs, server);
    } else {
      forall d | d in defs
        ensures d.name in unavailable <==> !Listed(server, d.name)
      {
      }
      RetainKeepsListed(defs, server, unavailable);
      var n := unavailable[0];
      assert n in unavailable;
      var d :| d in defs && d.name == n;
      assert d !in KeepListed(defs, server);
    }
  }

  /// The loop of `update_with_message` that gathers the names the server
  /// did not list.
  method CollectUnavailable(defs: seq<Channel.NowChannelDef>, server: seq<Channel.NowChannelDef>)
    returns (unavailable: seq<ChannelNames.ChannelName>)
    ensures unavailable == UnavailableNames(defs, server)
  {
    unavailable := [];
    var i := 0;
    while i < |defs|
      invariant 0 <= i <= |defs|
      invariant unavailable == UnavailableNames(defs[..i], server)
    {
      if !Listed(server, defs[i].name) {
        unavailable := unavailable + [defs[i].name];
      }
      assert defs[..i + 1][..i] == defs[..i];
      i := i + 1;
    }
    assert defs[..i] == defs;
  }

  /// The list-response step of `update_with_message` before its state
  /// transition: warn about and drop the defs the server did not list, then
  /// hand the remaining defs to the application.
  method KeepAvailable(data: SMData, events: SMEvents, server: seq<Channel.NowChannelDef>)
    modifies data, events
    ensures data.channelDefs == AfterListResponse(old(data.channelDefs), server)
    ensures data.supportedAuths == old(data.supportedAuths) && data.capabilities == old(data.capabilities)
    ensures events.items == old(events.items)
              + (if UnavailableNames(old(data.channelDefs), server) == [] then []
                 else [Warn(Reported(ConnectionSequence(States.Channels)))])
              + [Data(Channels(data.channelDefs))]
  {
    var unavailable := CollectUnavailable(data.channelDefs, server);
    if unavailable != [] {
      events.Push(Warn(Reported(ConnectionSequence(States.Channels))));
      data.channelDefs := Retain(data.channelDefs, unavailable);
    }
    events.Push(Data(Channels(data.channelDefs)));
  }

  function PairingRank(s: ChannelPairingState): nat
  {
    match s
    case SendListRequest => 0
    case WaitListResponse => 1
    case SendOpenRequest => 2
    case WaitOpenResponse => 3
    case PairingTerminated => 4
  }

  /// `ChannelsSM::update_without_message`: the two requests.
  function ChannelsWithout(s: ChannelPairingState, defs: seq<Channel.NowChannelDef>)
    : (r: (ChannelPairingState, seq<SMEvent>))
    ensures Reports(Pairing(s), Pairing(r.0), r.1)
    ensures r.0 != s <==> s == SendListRequest || s == SendOpenRequest
    ensures r.0 != s ==> PairingRank(r.0) == PairingRank(s) + 1
    ensures s == SendListRequest ==>
              r.1[0] == PacketToSend(OfMessage(Messages.ChannelMsg(Channel.New(Channel.ListRequest, defs))))
    ensures s == SendOpenRequest ==>
              r.1[0] == PacketToSend(OfMessage(Messages.ChannelMsg(Channel.New(Channel.OpenRequest, defs))))
  {
    match s
    case SendListRequest =>
      (WaitListResponse, [PacketToSend(OfMessage(Messages.ChannelMsg(Channel.New(Channel.ListRequest, defs)))),
                          StateTransition(Pairing(WaitListResponse))])
    case SendOpenRequest =>
      (WaitOpenResponse, [PacketToSend(OfMessage(Messages.ChannelMsg(Channel.New(Channel.OpenRequest, defs)))),
                          StateTransition(Pairing(WaitOpenResponse))])
    case _ => (s, [UnexpectedCall(States.Channels)])
  }

  /// `ChannelsSM::update_with_message`: the new state, the events pushed and
  /// the new channel defs.
  function ChannelsWith(s: ChannelPairingState, defs: seq<Channel.NowChannelDef>, m: Messages.NowMessage)
    : (r: (ChannelPairingState, seq<SMEvent>, seq<Channel.NowChannelDef>))
    ensures Reports(Pairing(s), Pairing(r.0), r.1)
    ensures r.0 != s <==> (s == WaitListResponse || s == WaitOpenResponse) && m.ChannelMsg?
    ensures r.0 != s ==> PairingRank(r.0) == PairingRank(s) + 1
    ensures s == WaitListResponse && m.ChannelMsg? ==>
              r.2 == AfterListResponse(defs, m.channel.channelList) && Data(Channels(r.2)) in r.1
    ensures s == WaitListResponse && m.ChannelMsg? ==>
              (Warn(Reported(ConnectionSequence(States.Channels))) in r.1 <==> UnavailableNames(defs, m.channel.channelList) != [])
    ensures s == WaitOpenResponse && m.ChannelMsg? ==>
              r.2 == m.channel.channelList && r.1[0] == PacketToSend(OfMessage(Messages.ActivateMsg(Activate.DefaultMsg)))
    ensures r.0 == s ==> r.2 == defs
  {
    match s
    case WaitListResponse =>
      if m.ChannelMsg? then
        var unavailable := UnavailableNames(defs, m.channel.channelList);
        var kept := AfterListResponse(defs, m.channel.channelList);
        var warned := if unavailable == [] then [] else [Warn(Reported(ConnectionSequence(States.Channels)))];
        (SendOpenRequest, warned + [Data(Channels(kept)), StateTransition(Pairing(SendOpenRequest))], kept)
      else (s, [UnexpectedMsg(m)], defs)
    case WaitOpenResponse =>
      if m.ChannelMsg? then
        (PairingTerminated, [PacketToSend(OfMessage(Messages.ActivateMsg(Activate.DefaultMsg))),
                             StateTransition(Pairing(PairingTerminated))], m.channel.channelList)
      else (s, [UnexpectedMsg(m)], defs)
    case _ => (s, [UnexpectedCall(States.Channels)], defs)
  }

  /// `ChannelsSM`
  class ChannelsSM {
    var state: ChannelPairingState

    constructor ()
      ensures state == SendListRequest
    {
      state := SendListRequest;
    }

    function IsTerminated(): bool
      reads this
    {
      state == PairingTerminated
    }

    /// Waiting in the two states that wait for a response.
    function WaitingForPacket(): (r: bool)
      reads this
      ensures r <==> state in {WaitListResponse, WaitOpenResponse}
    {
      state == WaitListResponse || state == WaitOpenResponse
    }

    method UpdateWithoutMessage(data: SMData, events: SMEvents)
      modifies this, events
      ensures state == ChannelsWithout(old(state), data.channelDefs).0
      ensures events.items == old(events.items) + ChannelsWithout(old(state), data.channelDefs).1
    {
      match state
      case SendListRequest =>
        events.Push(PacketToSend(OfMessage(Messages.ChannelMsg(Channel.New(Channel.ListRequest, data.channelDefs)))));
        state := WaitListResponse;
        events.Push(StateTransition(Pairing(state)));
      case SendOpenRequest =>
        events.Push(PacketToSend(OfMessage(Messages.ChannelMsg(Channel.New(Channel.OpenRequest, data.channelDefs)))));
        state := WaitOpenResponse;
        events.Push(StateTransition(Pairing(state)));
      case _ =>
        events.Push(UnexpectedCall(States.Channels));
    }

    method UpdateWithMessage(data: SMData, events: SMEvents, m: Messages.NowMessage)
      modifies this, data, events
      ensures state == ChannelsWith(old(state), old(data.channelDefs), m).0
      ensures events.items == old(events.items) + ChannelsWith(old(state), old(data.channelDefs), m).1
      ensures data.channelDefs == ChannelsWith(old(state), old(data.channelDefs), m).2
      ensures data.supportedAuths == old(data.supportedAuths) && data.capabilities == old(data.capabilities)
    {
      match state {
        case WaitListResponse =>
          if m.ChannelMsg? {
            KeepAvailable(data, events, m.channel.channelList);
            state := SendOpenRequest;
            events.Push(StateTransition(Pairing(state)));
          } else {
            events.Push(UnexpectedMsg(m));
          }
        case WaitOpenResponse =>
          if m.ChannelMsg? {
            data.channelDefs := m.channel.channelList;
            events.Push(PacketToSend(OfMessage(Messages.ActivateMsg(Activate.DefaultMsg))));
            state := PairingTerminated;
            events.Push(StateTransition(Pairing(state)));
          } else {
            events.Push(UnexpectedMsg(m));
          }
        case _ =>
          events.Push(UnexpectedCall(States.Channels));
      }
    }
  }
}
