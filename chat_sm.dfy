/// The client's chat channel machine (`sm/client_channels/chat.rs`): it
/// sends this side's name and status, takes the peer's from its answer,
/// and then hands the text messages to the user.
///
/// The clock the machine reads (`timestamp_fn`) is a parameter of the
/// update that reads it. The user callback (`on_synced`, `on_message`) is
/// code the machine does not see; the model gives it no effect.
module ChatSm {
  import opened Wire
  import opened Errors
  import opened Sm
  import Text
  import Flags
  import NowStrings
  import Chat
  import Messages
  import ChannelNames

  // ---------------------------------------------------------------- ChatData

  /// `ChatData`: a `String` is held as its UTF-8 bytes.
  datatype ChatData = ChatData(friendlyName: Bytes, statusText: Bytes, distantFriendlyName: Bytes,
                               distantStatusText: Bytes, capabilities: u32)

  /// "Anonymous", "None" and "Unknown"
  const Anonymous: Bytes := [0x41, 0x6E, 0x6F, 0x6E, 0x79, 0x6D, 0x6F, 0x75, 0x73]
  const NoneText: Bytes := [0x4E, 0x6F, 0x6E, 0x65]
  const UnknownName: Bytes := [0x55, 0x6E, 0x6B, 0x6E, 0x6F, 0x77, 0x6E]

  /// `ChatData::new`, also its `Default`: no capability.
  const DefaultChatData := ChatData(Anonymous, NoneText, UnknownName, NoneText, 0)

  /// `capabilities`: the same data with other capabilities.
  function WithCapabilities(d: ChatData, capabilities: u32): (r: ChatData)
    ensures r.capabilities == capabilities && r.(capabilities := d.capabilities) == d
  {
    d.(capabilities := capabilities)
  }

  /// `friendly_name`: the same data with another name.
  function WithFriendlyName(d: ChatData, name: Bytes): (r: ChatData)
    ensures r.friendlyName == name && r.(friendlyName := d.friendlyName) == d
  {
    d.(friendlyName := name)
  }

  /// `status_text`: the same data with another status.
  function WithStatusText(d: ChatData, status: Bytes): (r: ChatData)
    ensures r.statusText == status && r.(statusText := d.statusText) == d
  {
    d.(statusText := status)
  }

  // ---------------------------------------------------------------- capabilities

  /// `a &= b` on the capability word: what remains is a part of both.
  function Common(a: u32, b: u32): (r: u32)
    ensures Flags.And(r, a, 32) == r && Flags.And(r, b, 32) == r
  {
    Flags.Pow2Widths();
    AndInside(a, b, 32);
    Flags.And(a, b, 32)
  }

  /// `a & b` keeps only bits that `a` and `b` both have.
  lemma {:induction false} AndInside(a: nat, b: nat, n: nat)
    ensures Flags.And(Flags.And(a, b, n), a, n) == Flags.And(a, b, n)
    ensures Flags.And(Flags.And(a, b, n), b, n) == Flags.And(a, b, n)
  {
    if n > 0 {
      AndInside(a / 2, b / 2, n - 1);
      Flags.Halves(Flags.BitAnd(a, b), Flags.And(a / 2, b / 2, n - 1));
    }
  }

  // ---------------------------------------------------------------- specification

  /// What one update produces: the new state and data, the events pushed,
  /// and the channel message queued, if any.
  datatype Outcome = Outcome(state: ChatState, data: ChatData, events: seq<SMEvent>,
                             sent: Option<Messages.NowVirtualChannel>)

  /// The kind of the machine's own errors.
  const Kind := VirtualChannel(ChannelNames.Chat)

  /// An unexpected call or an unexpected message: both are errors here.
  const Problem := Error(Reported(Kind))

  /// `waiting_for_packet`
  predicate Waiting(s: ChatState)
  {
    s.Sync? || s.Active?
  }

  /// `NowString65535::from_str`
  function AsString65535(s: Bytes): (r: Result<Bytes>)
    ensures r.Ok? <==> |s| <= 65535
    ensures r.Ok? ==> r.value == s
  {
    NowStrings.TryFrom(65535, 2, s)
  }

  /// The synchronisation message that announces `d` at time `timestamp`.
  function SyncFor(d: ChatData, timestamp: u32): Chat.SyncMsg
  {
    Chat.WithStatusText(Chat.NewSync(timestamp, d.capabilities, d.friendlyName), d.statusText)
  }

  /// `ChatChannelSM::update_without_chan_msg`: the first call announces this
  /// side, unless its name or status is too long for the message.
  function ChatWithout(s: ChatState, d: ChatData, timestamp: u32): (r: Outcome)
    ensures r.data == d
    ensures r.state != s <==> s.ChatInitial? && |d.friendlyName| <= 65535 && |d.statusText| <= 65535
    ensures r.state != s ==>
              && r.state == Sync && r.events == [StateTransition(ChatStage(Sync))]
              && r.sent == Some(Messages.ChatVc(Chat.Sync(SyncFor(d, timestamp))))
    ensures r.state == s ==> r.sent.None? && |r.events| == 1 && r.events[0].Error?
    ensures s.ChatInitial? && |d.friendlyName| > 65535 ==> r.events == [Error(AsString65535(d.friendlyName).error)]
    ensures !s.ChatInitial? ==> r.events == [Problem]
  {
    if s.ChatInitial? then
      var name := AsString65535(d.friendlyName);
      if name.Err? then Outcome(s, d, [Error(name.error)], None)
      else
        var status := AsString65535(d.statusText);
        if status.Err? then Outcome(s, d, [Error(status.error)], None)
        else
          Outcome(Sync, d, [StateTransition(ChatStage(Sync))],
                  Some(Messages.ChatVc(Chat.Sync(Chat.WithStatusText(Chat.NewSync(timestamp, d.capabilities, name.value),
                                                                     status.value)))))
    else Outcome(s, d, [Problem], None)
  }

  /// `ChatChannelSM::update_with_chan_msg`: in `Sync`, the peer's
  /// synchronisation message makes the channel active; in `Active`, text
  /// messages go to the user.
  function ChatWith(s: ChatState, d: ChatData, v: Messages.NowVirtualChannel): (r: Outcome)
    ensures r.sent.None?
    ensures r.state != s <==> s.Sync? && v.ChatVc? && v.chat.Sync?
    ensures r.state != s ==> r.state == Active && r.events == []
    ensures r.data != d ==> r.state != s
    ensures r.state == s ==> r.events == [] || r.events == [Problem]
    ensures r.events == [] <==> v.ChatVc? && ((s.Sync? && v.chat.Sync?) || (s.Active? && v.chat.TextMessage?))
  {
    if v.ChatVc? && s.Sync? && v.chat.Sync? then
      var peer := v.chat.sync;
      Outcome(Active,
              d.(capabilities := Common(d.capabilities, peer.capabilities),
                 distantFriendlyName := peer.friendlyName, distantStatusText := peer.statusText),
              [], None)
    else if v.ChatVc? && s.Active? && v.chat.TextMessage? then Outcome(s, d, [], None)
    else Outcome(s, d, [Problem], None)
  }

  // ---------------------------------------------------------------- properties

  /// The synchronisation: this side's announcement, then the peer's
  /// answer, after which the channel is active, knows the peer's name and
  /// status, and keeps only the capabilities both sides have.
  lemma SyncExchange(d: ChatData, timestamp: u32, peer: Chat.SyncMsg)
    requires |d.friendlyName| <= 65535 && |d.statusText| <= 65535
    ensures ChatWithout(ChatInitial, d, timestamp).state == Sync
    ensures var r := ChatWith(Sync, d, Messages.ChatVc(Chat.Sync(peer)));
            && r.state == Active
            && r.data.distantFriendlyName == peer.friendlyName && r.data.distantStatusText == peer.statusText
            && r.data.friendlyName == d.friendlyName && r.data.statusText == d.statusText
            && Flags.And(r.data.capabilities, d.capabilities, 32) == r.data.capabilities
            && Flags.And(r.data.capabilities, peer.capabilities, 32) == r.data.capabilities
  {
  }

  /// The announcement reads back: encoded and decoded, it is the message
  /// built from this side's data, when the name and the status are UTF-8.
  lemma AnnouncementReadsBack(d: ChatData, timestamp: u32)
    requires Text.Utf8(d.friendlyName) && Text.Utf8(d.statusText)
    requires |d.friendlyName| <= 65535 && |d.statusText| <= 65535
    ensures var m := SyncFor(d, timestamp);
            && m.friendlyName == d.friendlyName && m.statusText == d.statusText
            && m.capabilities == d.capabilities && m.head.timestamp == timestamp
            && Chat.Decode(Chat.EncodeSync(m)) == Ok(Step(Chat.Sync(m), []))
  {
    var m := SyncFor(d, timestamp);
    assert Chat.StrValid(m.friendlyName) && Chat.StrValid(m.statusText);
    Chat.SyncVariantRoundTrip(m, []);
    assert Chat.EncodeSync(m) + [] == Chat.EncodeSync(m);
  }

  /// A name or status too long for the message keeps the machine in
  /// `Initial` and sends nothing, reporting the string error.
  lemma TooLongStaysInitial(d: ChatData, timestamp: u32)
    requires |d.friendlyName| > 65535 || |d.statusText| > 65535
    ensures var r := ChatWithout(ChatInitial, d, timestamp);
            r.state == ChatInitial && r.sent.None? && r.events[0].Error? &&
            r.events[0].error.kind == Decoding("NowString")
  {
  }

  /// The machine never terminates, and once it waits for packets it keeps
  /// waiting.
  lemma NeverTerminates(s: ChatState, d: ChatData, timestamp: u32, v: Messages.NowVirtualChannel)
    ensures !s.ChatTerminated? ==> !ChatWithout(s, d, timestamp).state.ChatTerminated?
    ensures !s.ChatTerminated? ==> !ChatWith(s, d, v).state.ChatTerminated?
    ensures Waiting(s) ==> Waiting(ChatWithout(s, d, timestamp).state) && Waiting(ChatWith(s, d, v).state)
  {
  }

  // ---------------------------------------------------------------- the machine

  /// `ChatChannelSM`
  class ChatChannelSM {
    var state: ChatState
    var data: ChatData

    /// `ChatChannelSM::new`
    constructor (config: ChatData)
      ensures state == ChatInitial && data == config
    {
      state := ChatInitial;
      data := config;
    }

    function GetChannelName(): ChannelNames.ChannelName
    {
      ChannelNames.Chat
    }

    function IsTerminated(): (r: bool)
      reads this
      ensures r <==> state == ChatTerminated
    {
      state == ChatTerminated
    }

    function WaitingForPacket(): bool
      reads this
    {
      state == Active || state == Sync
    }

    /// `timestamp` is what `timestamp_fn` returns when it is called.
    method UpdateWithoutChanMsg(smData: SMData, events: SMEvents, toSend: ChannelResponses, timestamp: u32)
      modifies this, events, toSend
      ensures state == ChatWithout(old(state), old(data), timestamp).state && data == old(data)
      ensures events.items == old(events.items) + ChatWithout(old(state), old(data), timestamp).events
      ensures toSend.items == old(toSend.items) +
                (var o := ChatWithout(old(state), old(data), timestamp).sent;
                 if o.Some? then [(old(toSend.current), o.value)] else [])
      ensures toSend.current == old(toSend.current)
    {
      if state.ChatInitial? {
        var name := AsString65535(data.friendlyName);
        if name.Err? {
          events.Push(Error(name.error));
          return;
        }
        var status := AsString65535(data.statusText);
        if status.Err? {
          events.Push(Error(status.error));
          return;
        }
        toSend.Push(Messages.ChatVc(Chat.Sync(Chat.WithStatusText(Chat.NewSync(timestamp, data.capabilities, name.value),
                                                                  status.value))));
        state := Sync;
        events.Push(StateTransition(ChatStage(Sync)));
      } else {
        events.Push(Problem);
      }
    }

    method UpdateWithChanMsg(smData: SMData, events: SMEvents, toSend: ChannelResponses, v: Messages.NowVirtualChannel)
      modifies this, events
      ensures state == ChatWith(old(state), old(data), v).state && data == ChatWith(old(state), old(data), v).data
      ensures events.items == old(events.items) + ChatWith(old(state), old(data), v).events
    {
      if v.ChatVc? && state.Sync? && v.chat.Sync? {
        var peer := v.chat.sync;
        data := data.(capabilities := Common(data.capabilities, peer.capabilities));
        data := data.(distantFriendlyName := peer.friendlyName);
        data := data.(distantStatusText := peer.statusText);
        state := Active;
      } else if v.ChatVc? && state.Active? && v.chat.TextMessage? {
      } else {
        events.Push(Problem);
      }
    }
  }
}
