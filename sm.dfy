/// The state-machine interfaces of `sm/mod.rs`: the connection state, the
/// shared records the machines read and write, the events they push, and the
/// two dummy machines.
///
/// Two interfaces coexist in the crate: `sm/mod.rs` declares machines whose
/// updates return `Result<Option<NowMessage>>` (used by the sequencer in
/// `sm/client_connection/mod.rs` and by the command-line authenticator),
/// while the sub-machines, the channel machines, the channels manager and the
/// sharee push `SMEvent`s into an event list and read an `SMData` record.
/// Both are modelled here, each for the files that use it.
module Sm {
  import opened Wire
  import opened Errors
  import States
  import Messages
  import Authenticate
  import Capabilities
  import Channel
  import ChannelNames

  // ---------------------------------------------------------------- states

  /// `BasicState` of the handshake, negotiate and capabilities machines.
  datatype BasicState = Initial | Ready | Terminated

  /// `AssociateState`
  datatype AssociateState = WaitInfo | WaitResponse | AssociateTerminated

  /// `ChannelPairingState`
  datatype ChannelPairingState = SendListRequest | WaitListResponse | SendOpenRequest | WaitOpenResponse | PairingTerminated

  /// `ClipboardState`
  datatype ClipboardState = ClipboardInitial | ClipboardCapabilities | Disabled | Enabled | ClipboardTerminated

  /// `ChatState`
  datatype ChatState = ChatInitial | Sync | Active | ChatTerminated

  /// The states a `StateTransition` event can carry (the types that
  /// implement `ProtoState`).
  datatype ProtoState =
    | Basic(basic: BasicState)
    | Associating(associating: AssociateState)
    | Pairing(pairing: ChannelPairingState)
    | ClipboardStage(clipboard: ClipboardState)
    | ChatStage(chat: ChatState)
    | ShareeStage(sharee: States.ShareeState)

  // ---------------------------------------------------------------- events

  /// The values a sub-machine hands to the application through `SMEvent::data`.
  datatype SmData =
    | AvailableAuthTypes(auths: seq<Authenticate.AuthType>)
    | Channels(defs: seq<Channel.NowChannelDef>)

  /// What a `PacketToSend` event is built from: a message (through
  /// `NowPacket::from_message`) or a channel message with its channel id
  /// (through `NowPacket::from_virt_channel`).
  datatype Outgoing =
    | OfMessage(message: Messages.NowMessage)
    | OfChannel(channel: Messages.NowVirtualChannel, id: u8)

  /// `SMEvent`
  datatype SMEvent =
    | PacketToSend(packet: Outgoing)
    | StateTransition(state: ProtoState)
    | Data(data: SmData)
    | Error(error: ProtoError)
    | Fatal(error: ProtoError)
    | Warn(error: ProtoError)

  /// The error `SMEvent::fatal`, `SMEvent::error` and `SMEvent::warn` build
  /// from a kind.
  function Reported(kind: ProtoErrorKind): (e: ProtoError)
    ensures e.kind == kind && e.source.None?
  {
    ProtoError(kind, None, None)
  }

  /// Whether an event list holds a `Fatal` event.
  predicate HasFatal(events: seq<SMEvent>)
  {
    exists i :: 0 <= i < |events| && events[i].Fatal?
  }

  lemma {:induction false} HasFatalAppend(events: seq<SMEvent>, more: seq<SMEvent>)
    ensures HasFatal(events + more) <==> HasFatal(events) || HasFatal(more)
  {
    if HasFatal(events + more) {
      var i :| 0 <= i < |events + more| && (events + more)[i].Fatal?;
      if i >= |events| {
        assert more[i - |events|].Fatal?;
      }
    }
    if HasFatal(events) {
      var i :| 0 <= i < |events| && events[i].Fatal?;
      assert (events + more)[i].Fatal?;
    }
    if HasFatal(more) {
      var i :| 0 <= i < |more| && more[i].Fatal?;
      assert (events + more)[|events| + i].Fatal?;
    }
  }

  /// `SMData`: what the connection sub-machines read and write.
  class SMData {
    var supportedAuths: seq<Authenticate.AuthType>
    var capabilities: seq<Capabilities.NowCapset>
    var channelDefs: seq<Channel.NowChannelDef>

    /// `SMData::new`
    constructor (supportedAuths: seq<Authenticate.AuthType>, capabilities: seq<Capabilities.NowCapset>,
                 channelDefs: seq<Channel.NowChannelDef>)
      ensures this.supportedAuths == supportedAuths && this.capabilities == capabilities
      ensures this.channelDefs == channelDefs
    {
      this.supportedAuths := supportedAuths;
      this.capabilities := capabilities;
      this.channelDefs := channelDefs;
    }
  }

  /// `SMEvents`: the events of one update, in the order they were pushed.
  class SMEvents {
    var items: seq<SMEvent>

    constructor ()
      ensures items == []
    {
      items := [];
    }

    method Push(e: SMEvent)
      modifies this
      ensures items == old(items) + [e]
    {
      items := items + [e];
    }
  }

  /// `ChannelResponses`: the channel messages to send, each tagged with the
  /// channel name that was current when it was pushed.
  class ChannelResponses {
    var current: Option<ChannelNames.ChannelName>
    var items: seq<(Option<ChannelNames.ChannelName>, Messages.NowVirtualChannel)>

    constructor ()
      ensures current.None? && items == []
    {
      current := None;
      items := [];
    }

    method SetCurrentChannelName(name: ChannelNames.ChannelName)
      modifies this
      ensures current == Some(name) && items == old(items)
    {
      current := Some(name);
    }

    method Push(v: Messages.NowVirtualChannel)
      modifies this
      ensures current == old(current) && items == old(items) + [(current, v)]
    {
      items := items + [(current, v)];
    }
  }

  // ---------------------------------------------------------------- result-returning interface

  /// `ConnectionSMSharedData`: one record shared by the sequencer and its
  /// sub-machines.
  class SharedData {
    var availableAuthTypes: seq<Authenticate.AuthType>
    var capabilities: seq<Capabilities.NowCapset>
    var channels: seq<Channel.NowChannelDef>

    constructor (availableAuthTypes: seq<Authenticate.AuthType>, capabilities: seq<Capabilities.NowCapset>,
                 channels: seq<Channel.NowChannelDef>)
      ensures this.availableAuthTypes == availableAuthTypes && this.capabilities == capabilities
      ensures this.channels == channels
    {
      this.availableAuthTypes := availableAuthTypes;
      this.capabilities := capabilities;
      this.channels := channels;
    }
  }

  /// `ConnectionSMResult`
  type ConnectionSMResult = Result<Option<Messages.NowMessage>>

  /// `is_running`, the default of both machine interfaces.
  function IsRunning(terminated: bool): (r: bool)
    ensures r != terminated
  {
    !terminated
  }

  /// `DummyConnectionSM`: a machine that has already finished.
  class DummyConnectionSM {
    constructor ()
    {
    }

    function IsTerminated(): bool
    {
      true
    }

    function WaitingForPacket(): bool
    {
      false
    }

    method UpdateWithoutMessage() returns (r: ConnectionSMResult)
      ensures r == Ok(None)
    {
      r := Ok(None);
    }

    method UpdateWithMessage(m: Messages.NowMessage) returns (r: ConnectionSMResult)
      ensures r == Ok(None)
    {
      r := Ok(None);
    }

    /// `get_shared_data`: it holds none (and `set_shared_data` drops it).
    method GetSharedData() returns (r: Option<SharedData>)
      ensures r.None?
    {
      r := None;
    }
  }

  /// The dummy connection machine is terminated, never waits and so is not
  /// running.
  lemma DummyConnectionStopped(d: DummyConnectionSM)
    ensures d.IsTerminated() && !d.WaitingForPacket() && !IsRunning(d.IsTerminated())
  {
  }

  /// `DummyVirtChannelSM`
  class DummyVirtChannelSM {
    constructor ()
    {
    }

    /// `get_channel_name`: `Unknown("Dummy")`.
    function GetChannelName(): (n: ChannelNames.ChannelName)
      ensures n.Unknown? && n.name == [0x44, 0x75, 0x6d, 0x6d, 0x79]
    {
      ChannelNames.Unknown([0x44, 0x75, 0x6d, 0x6d, 0x79])
    }

    function IsTerminated(): bool
    {
      true
    }

    function WaitingForPacket(): bool
    {
      false
    }

    method UpdateWithoutChanMsg() returns (r: Result<Option<Messages.NowVirtualChannel>>)
      ensures r == Ok(None)
    {
      r := Ok(None);
    }

    method UpdateWithChanMsg(v: Messages.NowVirtualChannel) returns (r: Result<Option<Messages.NowVirtualChannel>>)
      ensures r == Ok(None)
    {
      r := Ok(None);
    }
  }

  lemma DummyVirtChannelStopped(d: DummyVirtChannelSM)
    ensures d.IsTerminated() && !d.WaitingForPacket() && !IsRunning(d.IsTerminated())
  {
  }
}
