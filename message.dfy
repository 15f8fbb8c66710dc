/// The body of a packet: a message, dispatched on the header's message
/// type, or the payload of a virtual channel, dispatched on the channel's
/// name; and `VirtChannelsCtx`, the table from channel ids to names.
module Messages {
  import opened Wire
  import opened Errors
  import opened ChannelNames
  import MessageTypes
  import Status
  import Handshake
  import Negotiate
  import Authenticate
  import Associate
  import Capabilities
  import Channel
  import Activate
  import Terminate
  import Input
  import Surface
  import Update
  import System
  import Sharing
  import AccessControl
  import Clipboard
  import Chat

  type MessageType = MessageTypes.MessageType

  // ---------------------------------------------------------------- NowMessage

  /// `NowMessage`: one variant per dispatched message type, and `Custom`
  /// for the others, holding the type and the raw body.
  datatype NowMessage =
    | HandshakeMsg(handshake: Handshake.NowHandshakeMsg)
    | NegotiateMsg(negotiate: Negotiate.NowNegotiateMsg)
    | AuthenticateMsg(authenticate: Authenticate.NowAuthenticateMsg)
    | AssociateMsg(associate: Associate.NowAssociateMsg)
    | CapabilitiesMsg(capabilities: Capabilities.NowCapabilitiesMsg)
    | ChannelMsg(channel: Channel.NowChannelMsg)
    | ActivateMsg(activate: Activate.NowActivateMsg)
    | TerminateMsg(terminate: Terminate.NowTerminateMsg)
    | InputMsg(input: Input.NowInputMsg)
    | SurfaceMsg(surface: Surface.NowSurfaceMsg)
    | UpdateMsg(update: Update.NowUpdateMsg)
    | SystemMsg(system: System.NowSystemMsg)
    | SharingMsg(sharing: Sharing.NowSharingMsg)
    | AccessMsg(access: AccessControl.NowAccessMsg)
    | CustomMsg(ty: MessageType, payload: Bytes)

  /// The fourteen message types `decode_from` hands to a typed decoder.
  predicate Dispatched(ty: MessageType)
  {
    !(ty.Status? || ty.Mouse? || ty.Network? || ty.Desktop? || ty.Session? || ty.Other?)
  }

  /// `get_type` as written: every variant gives its own type except
  /// `Access`, which gives `Sharing`.
  function GetTypeAsWritten(m: NowMessage): (t: MessageType)
    ensures !m.AccessMsg? ==> t == GetType(m)
  {
    match m
    case HandshakeMsg(_) => MessageTypes.Handshake
    case NegotiateMsg(_) => MessageTypes.Negotiate
    case AuthenticateMsg(_) => MessageTypes.Authenticate
    case AssociateMsg(_) => MessageTypes.Associate
    case CapabilitiesMsg(_) => MessageTypes.Capabilities
    case ChannelMsg(_) => MessageTypes.Channel
    case ActivateMsg(_) => MessageTypes.Activate
    case TerminateMsg(_) => MessageTypes.Terminate
    case InputMsg(_) => MessageTypes.Input
    case SurfaceMsg(_) => MessageTypes.Surface
    case UpdateMsg(_) => MessageTypes.Update
    case SystemMsg(_) => MessageTypes.System
    case SharingMsg(_) => MessageTypes.Sharing
    case AccessMsg(_) => MessageTypes.Sharing
    case CustomMsg(ty, _) => ty
  }

  /// `get_type` as evidently intended: the type `decode_from` dispatched on.
  function GetType(m: NowMessage): (t: MessageType)
    ensures !m.CustomMsg? ==> Dispatched(t)
  {
    match m
    case HandshakeMsg(_) => MessageTypes.Handshake
    case NegotiateMsg(_) => MessageTypes.Negotiate
    case AuthenticateMsg(_) => MessageTypes.Authenticate
    case AssociateMsg(_) => MessageTypes.Associate
    case CapabilitiesMsg(_) => MessageTypes.Capabilities
    case ChannelMsg(_) => MessageTypes.Channel
    case ActivateMsg(_) => MessageTypes.Activate
    case TerminateMsg(_) => MessageTypes.Terminate
    case InputMsg(_) => MessageTypes.Input
    case SurfaceMsg(_) => MessageTypes.Surface
    case UpdateMsg(_) => MessageTypes.Update
    case SystemMsg(_) => MessageTypes.System
    case SharingMsg(_) => MessageTypes.Sharing
    case AccessMsg(_) => MessageTypes.Access
    case CustomMsg(ty, _) => ty
  }

  /// `NowMessage::decode_from`: the typed decoder for the fourteen
  /// dispatched types; any other type takes the rest of the buffer as its
  /// payload, which cannot fail.
  function Decode(ty: MessageType, b: Bytes): (r: Result<Step<NowMessage>>)
    ensures !Dispatched(ty) ==> r == Ok(Step(CustomMsg(ty, b), []))
  {
    if Dispatched(ty) then ArmOf(ty)(b) else Ok(Step(CustomMsg(ty, b), []))
  }

  /// The typed decoder `decode_from` hands a dispatched type's body to.
  function ArmOf(ty: MessageType): Bytes -> Result<Step<NowMessage>>
    requires Dispatched(ty)
  {
    match ty
    case Handshake => DecodeHandshakeMsg
    case Negotiate => DecodeNegotiateMsg
    case Authenticate => DecodeAuthenticateMsg
    case Associate => DecodeAssociateMsg
    case Capabilities => DecodeCapabilitiesMsg
    case Channel => DecodeChannelMsg
    case Activate => DecodeActivateMsg
    case Terminate => DecodeTerminateMsg
    case Surface => DecodeSurfaceMsg
    case Update => DecodeUpdateMsg
    case System => DecodeSystemMsg
    case Input => DecodeInputMsg
    case Sharing => DecodeSharingMsg
    case Access => DecodeAccessMsg
    case _ => assert false; DecodeAccessMsg
  }

  // The arm of `decode_from` for each dispatched type.

  function DecodeHandshakeMsg(b: Bytes): (r: Result<Step<NowMessage>>)
    ensures r.Ok? ==> r.value.value.HandshakeMsg?
  {
    var x :- Handshake.Decode(b);
    Ok(Step(HandshakeMsg(x.value), x.rest))
  }

  function DecodeNegotiateMsg(b: Bytes): (r: Result<Step<NowMessage>>)
    ensures r.Ok? ==> r.value.value.NegotiateMsg?
  {
    var x :- Negotiate.Decode(b);
    Ok(Step(NegotiateMsg(x.value), x.rest))
  }

  function DecodeAuthenticateMsg(b: Bytes): (r: Result<Step<NowMessage>>)
    ensures r.Ok? ==> r.value.value.AuthenticateMsg?
  {
    var x :- Authenticate.Decode(b);
    Ok(Step(AuthenticateMsg(x.value), x.rest))
  }

  function DecodeAssociateMsg(b: Bytes): (r: Result<Step<NowMessage>>)
    ensures r.Ok? ==> r.value.value.AssociateMsg?
  {
    var x :- Associate.Decode(b);
    Ok(Step(AssociateMsg(x.value), x.rest))
  }

  function DecodeCapabilitiesMsg(b: Bytes): (r: Result<Step<NowMessage>>)
    ensures r.Ok? ==> r.value.value.CapabilitiesMsg?
  {
    var x :- Capabilities.DecodeMsg(b);
    Ok(Step(CapabilitiesMsg(x.value), x.rest))
  }

  function DecodeChannelMsg(b: Bytes): (r: Result<Step<NowMessage>>)
    ensures r.Ok? ==> r.value.value.ChannelMsg?
  {
    var x :- Channel.Decode(b);
    Ok(Step(ChannelMsg(x.value), x.rest))
  }

  function DecodeActivateMsg(b: Bytes): (r: Result<Step<NowMessage>>)
    ensures r.Ok? ==> r.value.value.ActivateMsg?
  {
    var x :- Activate.Decode(b);
    Ok(Step(ActivateMsg(x.value), x.rest))
  }

  function DecodeTerminateMsg(b: Bytes): (r: Result<Step<NowMessage>>)
    ensures r.Ok? ==> r.value.value.TerminateMsg?
  {
    var x :- Terminate.Decode(b);
    Ok(Step(TerminateMsg(x.value), x.rest))
  }

  function DecodeSurfaceMsg(b: Bytes): (r: Result<Step<NowMessage>>)
    ensures r.Ok? ==> r.value.value.SurfaceMsg?
  {
    var x :- Surface.Decode(b);
    Ok(Step(SurfaceMsg(x.value), x.rest))
  }

  function DecodeUpdateMsg(b: Bytes): (r: Result<Step<NowMessage>>)
    ensures r.Ok? ==> r.value.value.UpdateMsg?
  {
    var x :- Update.Decode(b);
    Ok(Step(UpdateMsg(x.value), x.rest))
  }

  function DecodeSystemMsg(b: Bytes): (r: Result<Step<NowMessage>>)
    ensures r.Ok? ==> r.value.value.SystemMsg?
  {
    var x :- System.Decode(b);
    Ok(Step(SystemMsg(x.value), x.rest))
  }

  function DecodeInputMsg(b: Bytes): (r: Result<Step<NowMessage>>)
    ensures r.Ok? ==> r.value.value.InputMsg?
  {
    var x :- Input.DecodeMsg(b);
    Ok(Step(InputMsg(x.value), x.rest))
  }

  function DecodeSharingMsg(b: Bytes): (r: Result<Step<NowMessage>>)
    ensures r.Ok? ==> r.value.value.SharingMsg?
  {
    var x :- Sharing.Decode(b);
    Ok(Step(SharingMsg(x.value), x.rest))
  }

  function DecodeAccessMsg(b: Bytes): (r: Result<Step<NowMessage>>)
    ensures r.Ok? ==> r.value.value.AccessMsg?
  {
    var x :- AccessControl.Decode(b);
    Ok(Step(AccessMsg(x.value), x.rest))
  }

  /// What the encoders of the variants need of their values.
  predicate Encodable(m: NowMessage)
  {
    match m
    case SystemMsg(s) => System.Encodable(s)
    case SharingMsg(s) => Sharing.Encodable(s)
    case _ => true
  }

  /// `Encode for NowMessage`: the variant's own encoding; `Custom` writes its
  /// payload as it is.
  function Encode(m: NowMessage): (r: Result<Bytes>)
    requires Encodable(m)
    ensures m.CustomMsg? ==> r == Ok(m.payload)
    ensures m.ActivateMsg? ==> r.Ok? && |r.value| == 4
    ensures m.TerminateMsg? ==> r.Ok? && |r.value| == 8
    ensures m.HandshakeMsg? ==> r.Ok? && |r.value| == Handshake.RequiredSize
    ensures m.AccessMsg? ==> r.Ok? && |r.value| == 6
  {
    match m
    case HandshakeMsg(x) => Ok(Handshake.Encode(x))
    case NegotiateMsg(x) => Negotiate.Encode(x)
    case AuthenticateMsg(x) => Authenticate.Encode(x)
    case AssociateMsg(x) => Ok(Associate.Encode(x))
    case CapabilitiesMsg(x) => Capabilities.EncodeMsg(x)
    case ChannelMsg(x) => Channel.Encode(x)
    case ActivateMsg(x) => Ok(Activate.Encode(x))
    case TerminateMsg(x) => Ok(Terminate.Encode(x))
    case InputMsg(x) => Input.EncodeMsg(x)
    case SurfaceMsg(x) => Surface.Encode(x)
    case UpdateMsg(x) => Update.Encode(x)
    case SystemMsg(x) => Ok(System.Encode(x))
    case SharingMsg(x) => Ok(Sharing.Encode(x))
    case AccessMsg(x) => Ok(AccessControl.Encode(x))
    case CustomMsg(_, payload) => Ok(payload)
  }

  /// A message whose encoding reads back as itself under its own type:
  /// each variant's value is one its decoder can return, its encoding does
  /// not fail, and a `Custom` message's type is one `decode_from` does not
  /// dispatch. The fallback variants of the inner meta enums are left out:
  /// they decode without consuming their bytes.
  predicate WellFormed(m: NowMessage)
  {
    match m
    case HandshakeMsg(x) => Status.Consistent(x.status)
    case NegotiateMsg(x) => Negotiate.Encode(x).Ok?
    case AuthenticateMsg(x) => Authenticate.WellFormed(x) && Authenticate.Encode(x).Ok?
    case AssociateMsg(x) => Associate.WellFormed(x) && !x.Custom?
    case CapabilitiesMsg(x) => (forall c | c in x.capabilities :: Capabilities.WellFormed(c))
                               && Capabilities.EncodeMsg(x).Ok?
    case ChannelMsg(x) => Channel.WellFormed(x) && Channel.Encode(x).Ok?
    case ActivateMsg(_) => true
    case TerminateMsg(x) => Status.Consistent(x.status)
    case InputMsg(x) => |x.events| < 0x1_0000 && forall e | e in x.events :: Input.EventOk(e)
    case SurfaceMsg(x) => Surface.WellFormed(x) && !x.Custom?
    case UpdateMsg(x) => Update.WellFormed(x) && !x.Custom?
    case SystemMsg(x) => System.WellFormed(x)
    case SharingMsg(x) => Sharing.WellFormed(x) && !x.Custom?
    case AccessMsg(x) => AccessControl.WellFormed(x)
    case CustomMsg(ty, _) => !Dispatched(ty)
  }

  /// What a message reads back as: an owned token comes back borrowed.
  function AsDecoded(m: NowMessage): NowMessage
  {
    if m.AuthenticateMsg? then AuthenticateMsg(Authenticate.AsDecoded(m.authenticate)) else m
  }

  // Each typed arm of `decode_from`.

  lemma HandshakeArm(b: Bytes)
    ensures Decode(MessageTypes.Handshake, b) == DecodeHandshakeMsg(b)
  {
    assert ArmOf(MessageTypes.Handshake) == DecodeHandshakeMsg;
  }

  lemma NegotiateArm(b: Bytes)
    ensures Decode(MessageTypes.Negotiate, b) == DecodeNegotiateMsg(b)
  {
    assert ArmOf(MessageTypes.Negotiate) == DecodeNegotiateMsg;
  }

  lemma AuthenticateArm(b: Bytes)
    ensures Decode(MessageTypes.Authenticate, b) == DecodeAuthenticateMsg(b)
  {
    assert ArmOf(MessageTypes.Authenticate) == DecodeAuthenticateMsg;
  }

  lemma AssociateArm(b: Bytes)
    ensures Decode(MessageTypes.Associate, b) == DecodeAssociateMsg(b)
  {
    assert ArmOf(MessageTypes.Associate) == DecodeAssociateMsg;
  }

  lemma CapabilitiesArm(b: Bytes)
    ensures Decode(MessageTypes.Capabilities, b) == DecodeCapabilitiesMsg(b)
  {
    assert ArmOf(MessageTypes.Capabilities) == DecodeCapabilitiesMsg;
  }

  lemma ChannelArm(b: Bytes)
    ensures Decode(MessageTypes.Channel, b) == DecodeChannelMsg(b)
  {
    assert ArmOf(MessageTypes.Channel) == DecodeChannelMsg;
  }

  lemma ActivateArm(b: Bytes)
    ensures Decode(MessageTypes.Activate, b) == DecodeActivateMsg(b)
  {
    assert ArmOf(MessageTypes.Activate) == DecodeActivateMsg;
  }

  lemma TerminateArm(b: Bytes)
    ensures Decode(MessageTypes.Terminate, b) == DecodeTerminateMsg(b)
  {
    assert ArmOf(MessageTypes.Terminate) == DecodeTerminateMsg;
  }

  lemma InputArm(b: Bytes)
    ensures Decode(MessageTypes.Input, b) == DecodeInputMsg(b)
  {
    assert ArmOf(MessageTypes.Input) == DecodeInputMsg;
  }

  lemma SurfaceArm(b: Bytes)
    ensures Decode(MessageTypes.Surface, b) == DecodeSurfaceMsg(b)
  {
    assert ArmOf(MessageTypes.Surface) == DecodeSurfaceMsg;
  }

  lemma UpdateArm(b: Bytes)
    ensures Decode(MessageTypes.Update, b) == DecodeUpdateMsg(b)
  {
    assert ArmOf(MessageTypes.Update) == DecodeUpdateMsg;
  }

  lemma SystemArm(b: Bytes)
    ensures Decode(MessageTypes.System, b) == DecodeSystemMsg(b)
  {
    assert ArmOf(MessageTypes.System) == DecodeSystemMsg;
  }

  lemma SharingArm(b: Bytes)
    ensures Decode(MessageTypes.Sharing, b) == DecodeSharingMsg(b)
  {
    assert ArmOf(MessageTypes.Sharing) == DecodeSharingMsg;
  }

  lemma AccessArm(b: Bytes)
    ensures Decode(MessageTypes.Access, b) == DecodeAccessMsg(b)
  {
    assert ArmOf(MessageTypes.Access) == DecodeAccessMsg;
  }

  /// Every well-formed message reads back from its encoding under its own
  /// type, leaving what follows; a `Custom` message takes all the bytes.
  lemma RoundTrip(m: NowMessage, rest: Bytes)
    requires WellFormed(m)
    requires m.CustomMsg? ==> rest == []
    ensures Encode(m).Ok? && Decode(GetType(m), Encode(m).value + rest) == Ok(Step(AsDecoded(m), rest))
  {
    match m
    case CustomMsg(_, payload) => assert Encode(m).value + rest == payload;
    case HandshakeMsg(_) => HandshakeReadsBack(m, rest);
    case NegotiateMsg(_) => NegotiateReadsBack(m, rest);
    case AuthenticateMsg(_) => AuthenticateReadsBack(m, rest);
    case AssociateMsg(_) => AssociateReadsBack(m, rest);
    case CapabilitiesMsg(_) => CapabilitiesReadsBack(m, rest);
    case ChannelMsg(_) => ChannelReadsBack(m, rest);
    case ActivateMsg(_) => ActivateReadsBack(m, rest);
    case TerminateMsg(_) => TerminateReadsBack(m, rest);
    case InputMsg(_) => InputReadsBack(m, rest);
    case SurfaceMsg(_) => SurfaceReadsBack(m, rest);
    case UpdateMsg(_) => UpdateReadsBack(m, rest);
    case SystemMsg(_) => SystemReadsBack(m, rest);
    case SharingMsg(_) => SharingReadsBack(m, rest);
    case AccessMsg(_) => AccessReadsBack(m, rest);
  }

  // Each dispatched variant reads back under its own type.

  lemma HandshakeReadsBack(m: NowMessage, rest: Bytes)
    requires m.HandshakeMsg? && WellFormed(m)
    ensures Encode(m).Ok? && Decode(GetType(m), Encode(m).value + rest) == Ok(Step(AsDecoded(m), rest))
  {
    Handshake.RoundTrip(m.handshake, rest);
    HandshakeArm(Handshake.Encode(m.handshake) + rest);
  }

  lemma NegotiateReadsBack(m: NowMessage, rest: Bytes)
    requires m.NegotiateMsg? && WellFormed(m)
    ensures Encode(m).Ok? && Decode(GetType(m), Encode(m).value + rest) == Ok(Step(AsDecoded(m), rest))
  {
    Negotiate.RoundTrip(m.negotiate, rest);
    NegotiateArm(Negotiate.Encode(m.negotiate).value + rest);
  }

  lemma AuthenticateReadsBack(m: NowMessage, rest: Bytes)
    requires m.AuthenticateMsg? && WellFormed(m)
    ensures Encode(m).Ok? && Decode(GetType(m), Encode(m).value + rest) == Ok(Step(AsDecoded(m), rest))
  {
    Authenticate.RoundTrip(m.authenticate, rest);
    AuthenticateArm(Authenticate.Encode(m.authenticate).value + rest);
  }

  lemma AssociateReadsBack(m: NowMessage, rest: Bytes)
    requires m.AssociateMsg? && WellFormed(m)
    ensures Encode(m).Ok? && Decode(GetType(m), Encode(m).value + rest) == Ok(Step(AsDecoded(m), rest))
  {
    Associate.RoundTrip(m.associate, rest);
    AssociateArm(Associate.Encode(m.associate) + rest);
  }

  lemma CapabilitiesReadsBack(m: NowMessage, rest: Bytes)
    requires m.CapabilitiesMsg? && WellFormed(m)
    ensures Encode(m).Ok? && Decode(GetType(m), Encode(m).value + rest) == Ok(Step(AsDecoded(m), rest))
  {
    Capabilities.MsgRoundTrip(m.capabilities, rest);
    CapabilitiesArm(Capabilities.EncodeMsg(m.capabilities).value + rest);
  }

  lemma ChannelReadsBack(m: NowMessage, rest: Bytes)
    requires m.ChannelMsg? && WellFormed(m)
    ensures Encode(m).Ok? && Decode(GetType(m), Encode(m).value + rest) == Ok(Step(AsDecoded(m), rest))
  {
    Channel.RoundTrip(m.channel, rest);
    ChannelArm(Channel.Encode(m.channel).value + rest);
  }

  lemma ActivateReadsBack(m: NowMessage, rest: Bytes)
    requires m.ActivateMsg? && WellFormed(m)
    ensures Encode(m).Ok? && Decode(GetType(m), Encode(m).value + rest) == Ok(Step(AsDecoded(m), rest))
  {
    Activate.RoundTrip(m.activate, rest);
    ActivateArm(Activate.Encode(m.activate) + rest);
  }

  lemma TerminateReadsBack(m: NowMessage, rest: Bytes)
    requires m.TerminateMsg? && WellFormed(m)
    ensures Encode(m).Ok? && Decode(GetType(m), Encode(m).value + rest) == Ok(Step(AsDecoded(m), rest))
  {
    Terminate.RoundTrip(m.terminate, rest);
    TerminateArm(Terminate.Encode(m.terminate) + rest);
  }

  lemma InputReadsBack(m: NowMessage, rest: Bytes)
    requires m.InputMsg? && WellFormed(m)
    ensures Encode(m).Ok? && Decode(GetType(m), Encode(m).value + rest) == Ok(Step(AsDecoded(m), rest))
  {
    Input.MsgRoundTrip(m.input, rest);
    InputArm(Input.EncodeMsg(m.input).value + rest);
  }

  lemma SurfaceReadsBack(m: NowMessage, rest: Bytes)
    requires m.SurfaceMsg? && WellFormed(m)
    ensures Encode(m).Ok? && Decode(GetType(m), Encode(m).value + rest) == Ok(Step(AsDecoded(m), rest))
  {
    Surface.RoundTrip(m.surface, rest);
    SurfaceArm(Surface.Encode(m.surface).value + rest);
  }

  lemma UpdateReadsBack(m: NowMessage, rest: Bytes)
    requires m.UpdateMsg? && WellFormed(m)
    ensures Encode(m).Ok? && Decode(GetType(m), Encode(m).value + rest) == Ok(Step(AsDecoded(m), rest))
  {
    Update.RoundTrip(m.update, rest);
    UpdateArm(Update.Encode(m.update).value + rest);
  }

  lemma SystemReadsBack(m: NowMessage, rest: Bytes)
    requires m.SystemMsg? && WellFormed(m)
    ensures Encode(m).Ok? && Decode(GetType(m), Encode(m).value + rest) == Ok(Step(AsDecoded(m), rest))
  {
    System.RoundTrip(m.system, rest);
    SystemArm(System.Encode(m.system) + rest);
  }

  lemma SharingReadsBack(m: NowMessage, rest: Bytes)
    requires m.SharingMsg? && WellFormed(m)
    ensures Encode(m).Ok? && Decode(GetType(m), Encode(m).value + rest) == Ok(Step(AsDecoded(m), rest))
  {
    Sharing.RoundTrip(m.sharing, rest);
    SharingArm(Sharing.Encode(m.sharing) + rest);
  }

  lemma AccessReadsBack(m: NowMessage, rest: Bytes)
    requires m.AccessMsg? && WellFormed(m)
    ensures Encode(m).Ok? && Decode(GetType(m), Encode(m).value + rest) == Ok(Step(AsDecoded(m), rest))
  {
    AccessControl.RoundTrip(m.access, rest);
    AccessArm(AccessControl.Encode(m.access) + rest);
  }

  /// As written, `get_type` labels an access-control message `Sharing`, and
  /// a body decoded under that type is never an access-control message:
  /// the label does not lead back to the message.
  lemma AccessMislabelled(m: NowMessage, b: Bytes)
    requires m.AccessMsg?
    ensures GetTypeAsWritten(m) == MessageTypes.Sharing != GetType(m)
    ensures Decode(GetTypeAsWritten(m), b).Ok? ==> !Decode(GetTypeAsWritten(m), b).value.value.AccessMsg?
  {
    SharingArm(b);
  }

  // ---------------------------------------------------------------- NowVirtualChannel

  /// `NowVirtualChannel`: typed clipboard and chat payloads, and the raw
  /// payload of any other channel together with its name.
  datatype NowVirtualChannel =
    | ClipboardVc(clipboard: Clipboard.NowClipboardMsg)
    | ChatVc(chat: Chat.NowChatMsg)
    | CustomVc(name: ChannelName, payload: Bytes)

  /// `get_name`
  function GetName(v: NowVirtualChannel): (n: ChannelName)
    ensures v.ClipboardVc? ==> n == Clipboard
    ensures v.ChatVc? ==> n == Chat
    ensures v.CustomVc? ==> n == v.name
  {
    match v
    case ClipboardVc(_) => Clipboard
    case ChatVc(_) => Chat
    case CustomVc(name, _) => name
  }

  /// `NowVirtualChannel::decode_from`: the clipboard and chat decoders for
  /// those two names, the rest of the buffer for any other.
  function DecodeVirtualChannel(name: ChannelName, b: Bytes): (r: Result<Step<NowVirtualChannel>>)
    ensures r.Ok? ==> GetName(r.value.value) == name
    ensures name != Clipboard && name != Chat ==> r == Ok(Step(CustomVc(name, b), []))
  {
    match name
    case Clipboard => var x :- Clipboard.Decode(b); Ok(Step(ClipboardVc(x.value), x.rest))
    case Chat => var x :- Chat.Decode(b); Ok(Step(ChatVc(x.value), x.rest))
    case _ => Ok(Step(CustomVc(name, b), []))
  }

  /// The derived encoder of `CustomVirtualChannel` as written: the name, as
  /// a `NowString64`, goes in front of the payload.
  function EncodeCustomAsWritten(name: ChannelName, payload: Bytes): (r: Result<Bytes>)
    ensures r.Ok? <==> Channel.EncodeName(name).Ok?
    ensures r.Ok? ==> r.value == Channel.EncodeName(name).value + payload
  {
    var n :- Channel.EncodeName(name);
    Ok(n + payload)
  }

  /// As written, a custom channel's payload does not read back: the
  /// decoder, which already knows the name from the channel id, takes the
  /// encoded name for the start of the payload.
  lemma CustomAsWrittenDoesNotReadBack(name: ChannelName, payload: Bytes)
    requires name != Clipboard && name != Chat && Channel.EncodeName(name).Ok?
    ensures DecodeVirtualChannel(name, EncodeCustomAsWritten(name, payload).value).value.value.payload != payload
  {
    assert |EncodeCustomAsWritten(name, payload).value| >= |payload| + 2;
  }

  predicate VirtualChannelEncodable(v: NowVirtualChannel)
  {
    v.ChatVc? ==> Chat.StringsValid(v.chat)
  }

  /// `Encode for NowVirtualChannel`, with a custom channel writing its
  /// payload alone, as the custom message body does.
  function EncodeVirtualChannel(v: NowVirtualChannel): (r: Result<Bytes>)
    requires VirtualChannelEncodable(v)
    ensures v.CustomVc? ==> r == Ok(v.payload)
    ensures v.ChatVc? ==> r.Ok?
  {
    match v
    case ClipboardVc(x) => Clipboard.Encode(x)
    case ChatVc(x) => Ok(Chat.Encode(x))
    case CustomVc(_, payload) => Ok(payload)
  }

  predicate VirtualChannelWellFormed(v: NowVirtualChannel)
  {
    match v
    case ClipboardVc(x) => Clipboard.WellFormed(x) && Clipboard.Encode(x).Ok?
    case ChatVc(x) => Chat.WellFormed(x)
    case CustomVc(name, _) => name != Clipboard && name != Chat
  }

  function VirtualChannelAsDecoded(v: NowVirtualChannel): NowVirtualChannel
  {
    if v.ClipboardVc? then ClipboardVc(Clipboard.AsDecoded(v.clipboard)) else v
  }

  /// Every well-formed channel payload reads back under its own name.
  lemma VirtualChannelRoundTrip(v: NowVirtualChannel, rest: Bytes)
    requires VirtualChannelWellFormed(v)
    requires v.CustomVc? ==> rest == []
    ensures EncodeVirtualChannel(v).Ok?
    ensures DecodeVirtualChannel(GetName(v), EncodeVirtualChannel(v).value + rest)
         == Ok(Step(VirtualChannelAsDecoded(v), rest))
  {
    match v
    case ClipboardVc(x) => Clipboard.RoundTrip(x, rest);
    case ChatVc(x) => Chat.RoundTrip(x, rest);
    case CustomVc(_, payload) => assert EncodeVirtualChannel(v).value + rest == payload;
  }

  // ---------------------------------------------------------------- VirtChannelsCtx

  /// The lowest id a table maps to `name`, if any.
  function LowestIdOf(entries: map<u8, ChannelName>, name: ChannelName): (r: Option<u8>)
    ensures r.Some? ==> r.value in entries && entries[r.value] == name
    ensures r.Some? ==> forall j: u8 | j < r.value && j in entries :: entries[j] != name
    ensures r.None? ==> forall j | j in entries :: entries[j] != name
  {
    LowestFrom(entries, name, 0)
  }

  function LowestFrom(entries: map<u8, ChannelName>, name: ChannelName, from: nat): (r: Option<u8>)
    requires from <= 0x100
    requires forall j: u8 | j < from && j in entries :: entries[j] != name
    ensures r.Some? ==> r.value in entries && entries[r.value] == name
    ensures r.Some? ==> forall j: u8 | j < r.value && j in entries :: entries[j] != name
    ensures r.None? ==> forall j | j in entries :: entries[j] != name
    decreases 0x100 - from
  {
    if from == 0x100 then None
    else if from as u8 in entries && entries[from as u8] == name then Some(from as u8)
    else LowestFrom(entries, name, from + 1)
  }

  /// `VirtChannelsCtx`: channel names by id, in a map the connection fills
  /// as channels are opened.
  class VirtChannelsCtx {
    var entries: map<u8, ChannelName>

    /// `new` (and `default`): no channel.
    constructor ()
      ensures entries == map[]
    {
      entries := map[];
    }

    /// `insert`: maps `id` to `name` and returns the name it mapped to
    /// before, if any.
    method Insert(id: u8, name: ChannelName) returns (previous: Option<ChannelName>)
      modifies this
      ensures entries == old(entries)[id := name]
      ensures previous == if id in old(entries) then Some(old(entries)[id]) else None
    {
      previous := if id in entries then Some(entries[id]) else None;
      entries := entries[id := name];
    }

    /// `get_channel_by_id`
    function GetChannelById(id: u8): (r: Option<ChannelName>)
      reads this
      ensures r.Some? <==> id in entries
      ensures r.Some? ==> r.value == entries[id]
    {
      if id in entries then Some(entries[id]) else None
    }

    /// `get_id_by_channel`: the ids in ascending order, the first that maps
    /// to `name`.
    method GetIdByChannel(name: ChannelName) returns (r: Option<u8>)
      ensures r == LowestIdOf(entries, name)
      ensures r.Some? ==> r.value in entries && entries[r.value] == name
      ensures r.None? ==> forall j | j in entries :: entries[j] != name
    {
      var i: nat := 0;
      while i < 0x100
        invariant i <= 0x100
        invariant forall j: u8 | j < i && j in entries :: entries[j] != name
        invariant LowestIdOf(entries, name) == LowestFrom(entries, name, i)
      {
        if i as u8 in entries && entries[i as u8] == name {
          return Some(i as u8);
        }
        i := i + 1;
      }
      return None;
    }
  }
}
