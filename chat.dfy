/// `NowChatMsg`: the chat virtual channel's messages, a meta enum on a
/// one-byte subtype over seven structs. Neither the subtype enum nor the
/// presence enum has a fallback variant, so a value outside their tables
/// is refused. Every struct starts with the same eight bytes: subtype,
/// flags, a reserved `u16` and a `u32` timestamp.
module Chat {
  import opened Wire
  import opened Errors
  import opened Derived
  import Flags
  import Layout
  import Text

  const Ty := "NowChatMsg"

  // ---------------------------------------------------------------- value enums

  /// `ChatMessageType`, bytes 0x00 to 0x06.
  datatype ChatMessageType = SyncType | TextType | ReadType | TypingType | NameType | StatusType | PokeType

  function MessageTypeFromByte(x: u8): (r: Option<ChatMessageType>)
    ensures r.Some? <==> x <= 6
  {
    match x
    case 0 => Some(SyncType)
    case 1 => Some(TextType)
    case 2 => Some(ReadType)
    case 3 => Some(TypingType)
    case 4 => Some(NameType)
    case 5 => Some(StatusType)
    case 6 => Some(PokeType)
    case _ => None
  }

  function MessageTypeToByte(t: ChatMessageType): u8
  {
    match t
    case SyncType => 0
    case TextType => 1
    case ReadType => 2
    case TypingType => 3
    case NameType => 4
    case StatusType => 5
    case PokeType => 6
  }

  /// The subtype table is a bijection between the seven types and bytes 0
  /// to 6.
  lemma MessageTypeTable(x: u8, t: ChatMessageType)
    ensures MessageTypeFromByte(x) == Some(t) <==> MessageTypeToByte(t) == x
  {
  }

  lemma MessageTypeInjective(t: ChatMessageType, u: ChatMessageType)
    requires MessageTypeToByte(t) == MessageTypeToByte(u)
    ensures t == u
  {
    MessageTypeTable(MessageTypeToByte(t), t);
    MessageTypeTable(MessageTypeToByte(t), u);
  }

  /// `ChatPresenceStatus`, bytes 0x00 to 0x07.
  datatype ChatPresenceStatus = Unknown | Available | Away | Idle | Busy | DoNotDisturb | Invisible | Offline

  function PresenceFromByte(x: u8): (r: Option<ChatPresenceStatus>)
    ensures r.Some? <==> x <= 7
  {
    match x
    case 0 => Some(Unknown)
    case 1 => Some(Available)
    case 2 => Some(Away)
    case 3 => Some(Idle)
    case 4 => Some(Busy)
    case 5 => Some(DoNotDisturb)
    case 6 => Some(Invisible)
    case 7 => Some(Offline)
    case _ => None
  }

  function PresenceToByte(p: ChatPresenceStatus): u8
  {
    match p
    case Unknown => 0
    case Available => 1
    case Away => 2
    case Idle => 3
    case Busy => 4
    case DoNotDisturb => 5
    case Invisible => 6
    case Offline => 7
  }

  lemma PresenceTable(x: u8, p: ChatPresenceStatus)
    ensures PresenceFromByte(x) == Some(p) <==> PresenceToByte(p) == x
  {
  }

  function DecodeMessageType(b: Bytes): (r: Result<Step<ChatMessageType>>)
    ensures r.Ok? <==> 0 < |b| && b[0] <= 6
    ensures r.Ok? ==> r.value.rest == b[1..] && MessageTypeToByte(r.value.value) == b[0]
  {
    var r := ListedByte("ChatMessageType", MessageTypeFromByte, b);
    if r.Ok? then MessageTypeTable(b[0], r.value.value); r else r
  }

  lemma MessageTypeRoundTrip(t: ChatMessageType, rest: Bytes)
    ensures DecodeMessageType(U8(MessageTypeToByte(t)) + rest) == Ok(Step(t, rest))
  {
    MessageTypeTable(MessageTypeToByte(t), t);
    ListedByteRoundTrip("ChatMessageType", MessageTypeFromByte, MessageTypeToByte(t), t, rest);
  }

  function DecodePresence(b: Bytes): (r: Result<Step<ChatPresenceStatus>>)
    ensures r.Ok? <==> 0 < |b| && b[0] <= 7
    ensures r.Ok? ==> r.value.rest == b[1..] && PresenceToByte(r.value.value) == b[0]
  {
    var r := ListedByte("ChatPresenceStatus", PresenceFromByte, b);
    if r.Ok? then PresenceTable(b[0], r.value.value); r else r
  }

  lemma PresenceRoundTrip(p: ChatPresenceStatus, rest: Bytes)
    ensures DecodePresence(U8(PresenceToByte(p)) + rest) == Ok(Step(p, rest))
  {
    PresenceTable(PresenceToByte(p), p);
    ListedByteRoundTrip("ChatPresenceStatus", PresenceFromByte, PresenceToByte(p), p, rest);
  }

  /// `ChatCapabilitiesFlags`: emoji characters, pokes, read notifications.
  const Emoji: Flags.Word := 0x0000_0001
  const Poke: Flags.Word := 0x0000_0002
  const ReadNotifications: Flags.Word := 0x0000_0004

  /// `ChatTextFlags`: the text is a code snippet.
  const Snippet: Flags.Word := 0x01

  /// `ChatTypingFlags`: the peer is typing.
  const Typing: Flags.Word := 0x01

  // ---------------------------------------------------------------- the structs

  /// The eight bytes every chat struct starts with. The read, name, status
  /// and poke messages are this head alone.
  datatype Head = Head(subtype: ChatMessageType, flags: u8, reserved: u16, timestamp: u32)

  /// `NowChatSyncMsg`; both strings are `NowString65535`.
  datatype SyncMsg = SyncMsg(head: Head, capabilities: u32, friendlyName: Bytes, presence: ChatPresenceStatus,
                             statusText: Bytes)

  /// `NowChatTextMsg`; its flags are `ChatTextFlags`, its text a
  /// `NowString65535`.
  datatype TextMsg = TextMsg(head: Head, sessionId: u32, messageId: u32, text: Bytes)

  /// `NowChatTypingMsg`.
  datatype TypingMsg = TypingMsg(head: Head, sessionId: u32, messageId: u32)

  datatype NowChatMsg =
    | Sync(sync: SyncMsg)
    | TextMessage(textMsg: TextMsg)
    | Read(read: Head)
    | TypingMessage(typingMsg: TypingMsg)
    | Name(name: Head)
    | Status(status: Head)
    | PokeMessage(poke: Head)

  /// A `NowString65535` field's value, as the type keeps it.
  predicate StrValid(s: Bytes)
  {
    Layout.StrValid(65535, 2, s)
  }

  // ---------------------------------------------------------------- constructors

  /// `NowChatSyncMsg::new`: no flag, unknown presence, empty status text.
  function NewSync(timestamp: u32, capabilities: u32, friendlyName: Bytes): (m: SyncMsg)
    ensures m.head == Head(SyncType, 0, 0, timestamp) && m.capabilities == capabilities
    ensures m.friendlyName == friendlyName && m.presence == Unknown && m.statusText == []
  {
    SyncMsg(Head(SyncType, 0, 0, timestamp), capabilities, friendlyName, Unknown, [])
  }

  /// `presence`: the same message with another presence.
  function WithPresence(m: SyncMsg, presence: ChatPresenceStatus): (r: SyncMsg)
    ensures r.presence == presence && r.(presence := m.presence) == m
  {
    m.(presence := presence)
  }

  /// `status_text`: the same message with another status text.
  function WithStatusText(m: SyncMsg, statusText: Bytes): (r: SyncMsg)
    ensures r.statusText == statusText && r.(statusText := m.statusText) == m
  {
    m.(statusText := statusText)
  }

  /// `NowChatTextMsg::new_with_flags`; `new` passes no flag. The session id
  /// is zero.
  function NewText(timestamp: u32, messageId: u32, text: Bytes, flags: u8): (m: TextMsg)
    ensures m.head == Head(TextType, flags, 0, timestamp) && m.sessionId == 0
    ensures m.messageId == messageId && m.text == text
  {
    TextMsg(Head(TextType, flags, 0, timestamp), 0, messageId, text)
  }

  /// `NowChatTypingMsg::new`: no flag, session id zero.
  function NewTyping(timestamp: u32, messageId: u32): (m: TypingMsg)
    ensures m.head == Head(TypingType, 0, 0, timestamp) && m.sessionId == 0 && m.messageId == messageId
  {
    TypingMsg(Head(TypingType, 0, 0, timestamp), 0, messageId)
  }

  /// `new` of the read, name, status and poke messages: the struct's own
  /// subtype, no flag, the timestamp.
  function NewHead(subtype: ChatMessageType, timestamp: u32): (h: Head)
    ensures h.subtype == subtype && h.flags == 0 && h.reserved == 0 && h.timestamp == timestamp
  {
    Head(subtype, 0, 0, timestamp)
  }

  // ---------------------------------------------------------------- struct codecs

  /// The struct names the derived errors carry.
  function StructTy(t: ChatMessageType): string
  {
    match t
    case SyncType => "NowChatSyncMsg"
    case TextType => "NowChatTextMsg"
    case ReadType => "NowChatReadMsg"
    case TypingType => "NowChatTypingMsg"
    case NameType => "NowChatNameMsg"
    case StatusType => "NowChatStatusMsg"
    case PokeType => "NowChatPokeMsg"
  }

  function EncodeHead(h: Head): (e: Bytes)
    ensures |e| == 8 && e[0] == MessageTypeToByte(h.subtype)
  {
    U8(MessageTypeToByte(h.subtype)) + U8(h.flags) + U16(h.reserved) + U32(h.timestamp)
  }

  /// The flags field: `ChatTextFlags` in the text message, a plain `u8`
  /// in every other struct.
  function FlagsField(ty: string, textFlags: bool, b: Bytes): (r: Result<Step<u8>>)
    ensures r.Ok? <==> 1 <= |b|
    ensures r.Ok? ==> r.value.rest == b[1..]
  {
    if textFlags then Flags8Field(ty, "ChatTextFlags", "flags", b) else U8Field(ty, "u8", "flags", b)
  }

  lemma FlagsFieldRoundTrip(ty: string, textFlags: bool, v: u8, rest: Bytes)
    ensures FlagsField(ty, textFlags, U8(v) + rest) == Ok(Step(v, rest))
  {
    U8RoundTrip(ty, if textFlags then "ChatTextFlags" else "u8", "flags", v, rest);
  }

  /// The derived decoder of the head of struct `ty`; the text message's
  /// flags are `ChatTextFlags`, every other struct's a plain `u8`.
  function DecodeHead(ty: string, textFlags: bool, b: Bytes): (r: Result<Step<Head>>)
    ensures r.Ok? <==> 8 <= |b| && b[0] <= 6
    ensures r.Ok? ==> r.value.rest == b[8..] && MessageTypeToByte(r.value.value.subtype) == b[0]
  {
    var subtype :- InField(ty, "ChatMessageType", "subtype", DecodeMessageType(b));
    var flags :- FlagsField(ty, textFlags, subtype.rest);
    var reserved :- U16Field(ty, "u16", "reserved", flags.rest);
    var timestamp :- U32Field(ty, "u32", "timestamp", reserved.rest);
    Ok(Step(Head(subtype.value, flags.value, reserved.value, timestamp.value), timestamp.rest))
  }

  lemma HeadRoundTrip(ty: string, textFlags: bool, h: Head, rest: Bytes)
    ensures DecodeHead(ty, textFlags, EncodeHead(h) + rest) == Ok(Step(h, rest))
  {
    var e0, e1, e2, e3 := U8(MessageTypeToByte(h.subtype)), U8(h.flags), U16(h.reserved), U32(h.timestamp);
    assert EncodeHead(h) + rest == e0 + (e1 + (e2 + (e3 + rest)));
    MessageTypeRoundTrip(h.subtype, e1 + (e2 + (e3 + rest)));
    FlagsFieldRoundTrip(ty, textFlags, h.flags, e2 + (e3 + rest));
    U16RoundTrip(ty, "u16", "reserved", h.reserved, e3 + rest);
    U32RoundTrip(ty, "u32", "timestamp", h.timestamp, rest);
  }

  // typing

  const TypingTy := "NowChatTypingMsg"

  function EncodeTyping(m: TypingMsg): (e: Bytes)
    ensures |e| == 16 && e[0] == MessageTypeToByte(m.head.subtype)
  {
    EncodeHead(m.head) + U32(m.sessionId) + U32(m.messageId)
  }

  function DecodeTyping(b: Bytes): (r: Result<Step<TypingMsg>>)
    ensures r.Ok? <==> 16 <= |b| && b[0] <= 6
    ensures r.Ok? ==> r.value.rest == b[16..] && MessageTypeToByte(r.value.value.head.subtype) == b[0]
  {
    var head :- DecodeHead(TypingTy, false, b);
    var sessionId :- U32Field(TypingTy, "u32", "session_id", head.rest);
    var messageId :- U32Field(TypingTy, "u32", "message_id", sessionId.rest);
    Ok(Step(TypingMsg(head.value, sessionId.value, messageId.value), messageId.rest))
  }

  lemma TypingRoundTrip(m: TypingMsg, rest: Bytes)
    ensures DecodeTyping(EncodeTyping(m) + rest) == Ok(Step(m, rest))
  {
    var e0, e1, e2 := EncodeHead(m.head), U32(m.sessionId), U32(m.messageId);
    assert EncodeTyping(m) + rest == e0 + (e1 + (e2 + rest));
    HeadRoundTrip(TypingTy, false, m.head, e1 + (e2 + rest));
    U32RoundTrip(TypingTy, "u32", "session_id", m.sessionId, e2 + rest);
    U32RoundTrip(TypingTy, "u32", "message_id", m.messageId, rest);
  }

  // text

  const TextTy := "NowChatTextMsg"

  function EncodeText(m: TextMsg): (e: Bytes)
    requires StrValid(m.text)
    ensures |e| == 19 + |m.text| && e[0] == MessageTypeToByte(m.head.subtype)
  {
    EncodeHead(m.head) + U32(m.sessionId) + U32(m.messageId) + Layout.Str(65535, 2, m.text)
  }

  function DecodeText(b: Bytes): (r: Result<Step<TextMsg>>)
    ensures r.Ok? ==> 16 <= |b| && MessageTypeToByte(r.value.value.head.subtype) == b[0]
                      && StrValid(r.value.value.text) && |r.value.rest| < |b| - 16
  {
    var head :- DecodeHead(TextTy, true, b);
    var sessionId :- U32Field(TextTy, "u32", "session_id", head.rest);
    var messageId :- U32Field(TextTy, "u32", "message_id", sessionId.rest);
    var text :- Layout.StrField(TextTy, "text", 65535, 2, messageId.rest);
    Ok(Step(TextMsg(head.value, sessionId.value, messageId.value, text.value), text.rest))
  }

  lemma TextRoundTrip(m: TextMsg, rest: Bytes)
    requires StrValid(m.text)
    ensures DecodeText(EncodeText(m) + rest) == Ok(Step(m, rest))
  {
    var e0, e1, e2, e3 := EncodeHead(m.head), U32(m.sessionId), U32(m.messageId), Layout.Str(65535, 2, m.text);
    assert EncodeText(m) + rest == e0 + (e1 + (e2 + (e3 + rest)));
    HeadRoundTrip(TextTy, true, m.head, e1 + (e2 + (e3 + rest)));
    U32RoundTrip(TextTy, "u32", "session_id", m.sessionId, e2 + (e3 + rest));
    U32RoundTrip(TextTy, "u32", "message_id", m.messageId, e3 + rest);
    Layout.StrRoundTrip(TextTy, "text", 65535, 2, m.text, rest);
  }

  // sync

  const SyncTy := "NowChatSyncMsg"

  function EncodeSync(m: SyncMsg): (e: Bytes)
    requires StrValid(m.friendlyName) && StrValid(m.statusText)
    ensures |e| == 19 + |m.friendlyName| + |m.statusText| && e[0] == MessageTypeToByte(m.head.subtype)
  {
    EncodeHead(m.head) + U32(m.capabilities) + Layout.Str(65535, 2, m.friendlyName)
    + U8(PresenceToByte(m.presence)) + Layout.Str(65535, 2, m.statusText)
  }

  /// The fields after the head: capabilities, name, presence, status text.
  function DecodeSyncBody(head: Head, b: Bytes): (r: Result<Step<SyncMsg>>)
    ensures r.Ok? ==> r.value.value.head == head && StrValid(r.value.value.friendlyName)
                      && StrValid(r.value.value.statusText) && |r.value.rest| < |b| - 4
  {
    var capabilities :- Flags32Field(SyncTy, "ChatCapabilitiesFlags", "capabilities", b);
    var friendlyName :- Layout.StrField(SyncTy, "friendly_name", 65535, 2, capabilities.rest);
    var presence :- InField(SyncTy, "ChatPresenceStatus", "presence", DecodePresence(friendlyName.rest));
    var statusText :- Layout.StrField(SyncTy, "status_text", 65535, 2, presence.rest);
    Ok(Step(SyncMsg(head, capabilities.value, friendlyName.value, presence.value, statusText.value), statusText.rest))
  }

  function DecodeSync(b: Bytes): (r: Result<Step<SyncMsg>>)
    ensures r.Ok? ==> 8 <= |b| && MessageTypeToByte(r.value.value.head.subtype) == b[0]
                      && StrValid(r.value.value.friendlyName) && StrValid(r.value.value.statusText)
  {
    var head :- DecodeHead(SyncTy, false, b);
    DecodeSyncBody(head.value, head.rest)
  }

  lemma SyncBodyRoundTrip(m: SyncMsg, rest: Bytes)
    requires StrValid(m.friendlyName) && StrValid(m.statusText)
    ensures DecodeSyncBody(m.head, U32(m.capabilities) + Layout.Str(65535, 2, m.friendlyName)
                                   + U8(PresenceToByte(m.presence)) + Layout.Str(65535, 2, m.statusText) + rest)
            == Ok(Step(m, rest))
  {
    var e1, e2 := U32(m.capabilities), Layout.Str(65535, 2, m.friendlyName);
    var e3, e4 := U8(PresenceToByte(m.presence)), Layout.Str(65535, 2, m.statusText);
    assert e1 + e2 + e3 + e4 + rest == e1 + (e2 + (e3 + (e4 + rest)));
    U32RoundTrip(SyncTy, "ChatCapabilitiesFlags", "capabilities", m.capabilities, e2 + (e3 + (e4 + rest)));
    Layout.StrRoundTrip(SyncTy, "friendly_name", 65535, 2, m.friendlyName, e3 + (e4 + rest));
    PresenceRoundTrip(m.presence, e4 + rest);
    Layout.StrRoundTrip(SyncTy, "status_text", 65535, 2, m.statusText, rest);
  }

  lemma SyncRoundTrip(m: SyncMsg, rest: Bytes)
    requires StrValid(m.friendlyName) && StrValid(m.statusText)
    ensures DecodeSync(EncodeSync(m) + rest) == Ok(Step(m, rest))
  {
    var e0 := EncodeHead(m.head);
    var body := U32(m.capabilities) + Layout.Str(65535, 2, m.friendlyName)
                + U8(PresenceToByte(m.presence)) + Layout.Str(65535, 2, m.statusText);
    assert EncodeSync(m) + rest == e0 + (body + rest);
    HeadRoundTrip(SyncTy, false, m.head, body + rest);
    SyncBodyRoundTrip(m, rest);
  }

  // ---------------------------------------------------------------- the meta enum

  /// The subtype each variant carries.
  function VariantType(m: NowChatMsg): ChatMessageType
  {
    match m
    case Sync(_) => SyncType
    case TextMessage(_) => TextType
    case Read(_) => ReadType
    case TypingMessage(_) => TypingType
    case Name(_) => NameType
    case Status(_) => StatusType
    case PokeMessage(_) => PokeType
  }

  /// The head of the struct a variant holds.
  function HeadOf(m: NowChatMsg): Head
  {
    match m
    case Sync(s) => s.head
    case TextMessage(s) => s.head
    case Read(h) => h
    case TypingMessage(s) => s.head
    case Name(h) => h
    case Status(h) => h
    case PokeMessage(h) => h
  }

  /// The strings a message holds are valid `NowString65535` values.
  predicate StringsValid(m: NowChatMsg)
  {
    match m
    case Sync(s) => StrValid(s.friendlyName) && StrValid(s.statusText)
    case TextMessage(s) => StrValid(s.text)
    case _ => true
  }

  /// A message whose subtype field names its own variant and whose strings
  /// are valid.
  predicate WellFormed(m: NowChatMsg)
  {
    HeadOf(m).subtype == VariantType(m) && StringsValid(m)
  }

  /// The derived meta-enum encoder: the variant's own encoding.
  function Encode(m: NowChatMsg): (e: Bytes)
    requires StringsValid(m)
    ensures |e| >= 8 && e[0] == MessageTypeToByte(HeadOf(m).subtype)
  {
    match m
    case Sync(s) => EncodeSync(s)
    case TextMessage(s) => EncodeText(s)
    case Read(h) => EncodeHead(h)
    case TypingMessage(s) => EncodeTyping(s)
    case Name(h) => EncodeHead(h)
    case Status(h) => EncodeHead(h)
    case PokeMessage(h) => EncodeHead(h)
  }

  /// The variant names the derived errors carry.
  function VariantName(t: ChatMessageType): string
  {
    match t
    case SyncType => "Sync"
    case TextType => "Text"
    case ReadType => "Read"
    case TypingType => "Typing"
    case NameType => "Name"
    case StatusType => "Status"
    case PokeType => "Poke"
  }

  /// The four subtypes whose struct is a head alone.
  predicate IsHeadType(t: ChatMessageType)
  {
    t in {ReadType, NameType, StatusType, PokeType}
  }

  /// The variant of head subtype `h.subtype` holding `h`.
  function HeadVariant(h: Head): (m: NowChatMsg)
    requires IsHeadType(h.subtype)
    ensures WellFormed(m)
  {
    match h.subtype
    case ReadType => Read(h)
    case NameType => Name(h)
    case StatusType => Status(h)
    case PokeType => PokeMessage(h)
  }

  function DecodeHeadVariant(t: ChatMessageType, b: Bytes): (r: Result<Step<NowChatMsg>>)
    requires 0 < |b| && MessageTypeToByte(t) == b[0] && IsHeadType(t)
    ensures r.Ok? ==> WellFormed(r.value.value) && VariantType(r.value.value) == t
  {
    var h :- InVariant(Ty, VariantName(t), DecodeHead(StructTy(t), false, b));
    MessageTypeInjective(h.value.subtype, t);
    Ok(Step(HeadVariant(h.value), h.rest))
  }

  function TypingVariant(s: TypingMsg): (m: NowChatMsg)
    requires s.head.subtype == TypingType
    ensures WellFormed(m)
  {
    TypingMessage(s)
  }

  function DecodeTypingVariant(b: Bytes): (r: Result<Step<NowChatMsg>>)
    requires 0 < |b| && MessageTypeToByte(TypingType) == b[0]
    ensures r.Ok? ==> WellFormed(r.value.value)
  {
    var s :- InVariant(Ty, "Typing", DecodeTyping(b));
    MessageTypeInjective(s.value.head.subtype, TypingType);
    Ok(Step(TypingVariant(s.value), s.rest))
  }

  function TextVariant(s: TextMsg): (m: NowChatMsg)
    requires s.head.subtype == TextType && StrValid(s.text)
    ensures WellFormed(m)
  {
    TextMessage(s)
  }

  function DecodeTextVariant(b: Bytes): (r: Result<Step<NowChatMsg>>)
    requires 0 < |b| && MessageTypeToByte(TextType) == b[0]
    ensures r.Ok? ==> WellFormed(r.value.value)
  {
    var s :- InVariant(Ty, "Text", DecodeText(b));
    MessageTypeInjective(s.value.head.subtype, TextType);
    Ok(Step(TextVariant(s.value), s.rest))
  }

  function SyncVariant(s: SyncMsg): (m: NowChatMsg)
    requires s.head.subtype == SyncType && StrValid(s.friendlyName) && StrValid(s.statusText)
    ensures WellFormed(m)
  {
    Sync(s)
  }

  function DecodeSyncVariant(b: Bytes): (r: Result<Step<NowChatMsg>>)
    requires 0 < |b| && MessageTypeToByte(SyncType) == b[0]
    ensures r.Ok? ==> WellFormed(r.value.value)
  {
    var s :- InVariant(Ty, "Sync", DecodeSync(b));
    MessageTypeInjective(s.value.head.subtype, SyncType);
    Ok(Step(SyncVariant(s.value), s.rest))
  }

  /// The derived meta-enum decoder: the subtype is peeked, refused when
  /// outside the table, and the variant of that subtype decoded from the
  /// same bytes.
  function Decode(b: Bytes): (r: Result<Step<NowChatMsg>>)
    ensures r.Ok? ==> 0 < |b| && b[0] <= 6 && WellFormed(r.value.value)
  {
    var subtype :- MetaSubtype(Ty, DecodeMessageType(b));
    match subtype
    case SyncType => DecodeSyncVariant(b)
    case TextType => DecodeTextVariant(b)
    case TypingType => DecodeTypingVariant(b)
    case _ => DecodeHeadVariant(subtype, b)
  }

  lemma DecodeHeadWellFormed(b: Bytes)
    requires Decode(b).Ok? && IsHeadType(MetaSubtype(Ty, DecodeMessageType(b)).value)
    ensures WellFormed(Decode(b).value.value)
  {
    var t := MetaSubtype(Ty, DecodeMessageType(b)).value;
    assert Decode(b) == DecodeHeadVariant(t, b);
  }

  lemma DecodeOtherWellFormed(b: Bytes)
    requires Decode(b).Ok? && !IsHeadType(MetaSubtype(Ty, DecodeMessageType(b)).value)
    ensures WellFormed(Decode(b).value.value)
  {
    var t := MetaSubtype(Ty, DecodeMessageType(b)).value;
    var r := match t
      case SyncType => DecodeSyncVariant(b)
      case TextType => DecodeTextVariant(b)
      case TypingType => DecodeTypingVariant(b);
    assert Decode(b) == r;
  }

  /// Decoding succeeds only on a listed subtype and yields a well-formed
  /// message.
  lemma DecodeWellFormed(b: Bytes)
    ensures Decode(b).Ok? ==> 0 < |b| && b[0] <= 6 && WellFormed(Decode(b).value.value)
  {
    if Decode(b).Ok? {
      if IsHeadType(MetaSubtype(Ty, DecodeMessageType(b)).value) {
        DecodeHeadWellFormed(b);
      } else {
        DecodeOtherWellFormed(b);
      }
    }
  }

  lemma SubtypeSelects(t: ChatMessageType, e: Bytes, rest: Bytes)
    requires 0 < |e| && e[0] == MessageTypeToByte(t)
    ensures MetaSubtype(Ty, DecodeMessageType(e + rest)) == Ok(t)
  {
    MessageTypeTable(e[0], t);
  }

  /// A head-only struct decodes back into the variant of its subtype.
  lemma HeadVariantRoundTrip(h: Head, rest: Bytes)
    requires IsHeadType(h.subtype)
    ensures Decode(EncodeHead(h) + rest) == Ok(Step(HeadVariant(h), rest))
  {
    SubtypeSelects(h.subtype, EncodeHead(h), rest);
    HeadRoundTrip(StructTy(h.subtype), false, h, rest);
  }

  lemma HeadMessageRoundTrip(m: NowChatMsg, rest: Bytes)
    requires WellFormed(m) && IsHeadType(VariantType(m))
    ensures Decode(Encode(m) + rest) == Ok(Step(m, rest))
  {
    match m
    case Read(h) => HeadVariantRoundTrip(h, rest);
    case Name(h) => HeadVariantRoundTrip(h, rest);
    case Status(h) => HeadVariantRoundTrip(h, rest);
    case PokeMessage(h) => HeadVariantRoundTrip(h, rest);
  }

  lemma TypingVariantRoundTrip(s: TypingMsg, rest: Bytes)
    requires s.head.subtype == TypingType
    ensures Decode(EncodeTyping(s) + rest) == Ok(Step(TypingMessage(s), rest))
  {
    SubtypeSelects(TypingType, EncodeTyping(s), rest);
    TypingRoundTrip(s, rest);
  }

  lemma TextVariantRoundTrip(s: TextMsg, rest: Bytes)
    requires s.head.subtype == TextType && StrValid(s.text)
    ensures Decode(EncodeText(s) + rest) == Ok(Step(TextMessage(s), rest))
  {
    SubtypeSelects(TextType, EncodeText(s), rest);
    TextRoundTrip(s, rest);
  }

  lemma SyncVariantRoundTrip(s: SyncMsg, rest: Bytes)
    requires s.head.subtype == SyncType && StrValid(s.friendlyName) && StrValid(s.statusText)
    ensures Decode(EncodeSync(s) + rest) == Ok(Step(Sync(s), rest))
  {
    SubtypeSelects(SyncType, EncodeSync(s), rest);
    SyncRoundTrip(s, rest);
  }

  /// Decoding an encoded well-formed message gives it back and leaves what
  /// follows it unread.
  lemma RoundTrip(m: NowChatMsg, rest: Bytes)
    requires WellFormed(m)
    ensures Decode(Encode(m) + rest) == Ok(Step(m, rest))
  {
    match m
    case Sync(s) => SyncVariantRoundTrip(s, rest);
    case TextMessage(s) => TextVariantRoundTrip(s, rest);
    case TypingMessage(s) => TypingVariantRoundTrip(s, rest);
    case _ => HeadMessageRoundTrip(m, rest);
  }

  /// A subtype byte above 6 is refused before any variant is read.
  lemma UnknownSubtypeRefused(b: Bytes)
    requires 0 < |b| && b[0] > 6
    ensures Decode(b) == Err(ProtoError(Decoding(Ty), Some(Plain("couldn't decode subtype")),
                                        Some(FromKind(Decoding("ChatMessageType")))))
  {
  }

  // ---------------------------------------------------------------- test vectors

  /// "ユニコ", "ードは" and "どう？" in UTF-8.
  const JapaneseA: Bytes := [0xe3, 0x83, 0xa6, 0xe3, 0x83, 0x8b, 0xe3, 0x82, 0xb3]
  const JapaneseB: Bytes := [0xe3, 0x83, 0xbc, 0xe3, 0x83, 0x89, 0xe3, 0x81, 0xaf]
  const JapaneseC: Bytes := [0xe3, 0x81, 0xa9, 0xe3, 0x81, 0x86, 0xef, 0xbc, 0x9f]

  /// "ユニコードはどう？", the text of `TEXT_MSG`.
  const Japanese: Bytes := JapaneseA + JapaneseB + JapaneseC

  /// Three three-byte characters are well-formed UTF-8.
  lemma ThreeCharsUtf8(s: Bytes)
    requires |s| == 9 && Text.Utf8SeqLen(s, 0) == 3 && Text.Utf8SeqLen(s, 3) == 3 && Text.Utf8SeqLen(s, 6) == 3
    ensures Text.Utf8(s)
  {
    assert Text.Utf8From(s, 9) && Text.Utf8Next(s, 6) && Text.Utf8Next(s, 3) && Text.Utf8Next(s, 0);
  }

  /// The nine characters of the test are well-formed UTF-8.
  lemma JapaneseIsUtf8()
    ensures Text.Utf8(Japanese) && |Japanese| == 27
  {
    assert Text.Utf8SeqLen(JapaneseA, 0) == 3 && Text.Utf8SeqLen(JapaneseA, 3) == 3 && Text.Utf8SeqLen(JapaneseA, 6) == 3;
    assert Text.Utf8SeqLen(JapaneseB, 0) == 3 && Text.Utf8SeqLen(JapaneseB, 3) == 3 && Text.Utf8SeqLen(JapaneseB, 6) == 3;
    assert Text.Utf8SeqLen(JapaneseC, 0) == 3 && Text.Utf8SeqLen(JapaneseC, 3) == 3 && Text.Utf8SeqLen(JapaneseC, 6) == 3;
    ThreeCharsUtf8(JapaneseA);
    ThreeCharsUtf8(JapaneseB);
    ThreeCharsUtf8(JapaneseC);
    Text.Utf8Concat(JapaneseA, JapaneseB);
    Text.Utf8Concat(JapaneseA + JapaneseB, JapaneseC);
  }

  /// The timestamps of the two tests, little-endian.
  lemma TimestampBytes()
    ensures U32(0x5d97a0bb) == [0xbb, 0xa0, 0x97, 0x5d] && U32(0x5d97a0d1) == [0xd1, 0xa0, 0x97, 0x5d]
  {
    Pow256Widths();
    assert LeBytes(0x5d97a0bb, 4) == [0xbb, 0xa0, 0x97, 0x5d];
    assert LeBytes(0x5d97a0d1, 4) == [0xd1, 0xa0, 0x97, 0x5d];
  }

  lemma SmallBytes()
    ensures U32(5) == [0x05, 0x00, 0x00, 0x00] && U32(1) == [0x01, 0x00, 0x00, 0x00]
    ensures U8(1) == [0x01] && LeBytes(23, 2) == [0x17, 0x00] && LeBytes(27, 2) == [0x1b, 0x00]
  {
    Pow256Widths();
    assert LeBytes(5, 4) == [0x05, 0x00, 0x00, 0x00];
    assert LeBytes(1, 4) == [0x01, 0x00, 0x00, 0x00];
  }

  /// A string field is its two-byte length, its bytes and a terminator.
  lemma StrBytes(s: Bytes)
    requires StrValid(s)
    ensures Layout.Str(65535, 2, s) == LeBytes(|s|, 2) + s + [0x00]
  {
  }

  /// A head with no flag: subtype, three zero bytes, the timestamp.
  lemma PlainHeadBytes(t: ChatMessageType, timestamp: u32)
    ensures EncodeHead(Head(t, 0, 0, timestamp)) == [MessageTypeToByte(t), 0x00, 0x00, 0x00] + U32(timestamp)
  {
    ZeroEncodings();
  }

  lemma SyncFlat(name: Bytes)
    ensures [0x00, 0x00, 0x00, 0x00] + [0xbb, 0xa0, 0x97, 0x5d] + [0x05, 0x00, 0x00, 0x00]
            + ([0x17, 0x00] + name + [0x00]) + [0x00] + ([0x00, 0x00] + [] + [0x00])
         == [0x00, 0x00, 0x00, 0x00, 0xbb, 0xa0, 0x97, 0x5d, 0x05, 0x00, 0x00, 0x00, 0x17, 0x00] + name
            + [0x00, 0x00, 0x00, 0x00, 0x00]
  {
  }

  lemma SyncEncoding(name: Bytes)
    requires |name| == 23 && Text.Utf8(name)
    ensures StrValid(name)
    ensures EncodeSync(NewSync(0x5d97a0bb, 5, name))
         == [0x00, 0x00, 0x00, 0x00, 0xbb, 0xa0, 0x97, 0x5d, 0x05, 0x00, 0x00, 0x00, 0x17, 0x00] + name
            + [0x00, 0x00, 0x00, 0x00, 0x00]
  {
    var m := NewSync(0x5d97a0bb, 5, name);
    Text.AsciiIsUtf8([]);
    TimestampBytes();
    SmallBytes();
    ZeroEncodings();
    PlainHeadBytes(SyncType, 0x5d97a0bb);
    StrBytes(name);
    StrBytes([]);
    SyncFlat(name);
  }

  /// `CHAT_SYNC_WITH_HEADER`'s chat body, of any 23 valid name bytes
  /// ("Devolutions128/bcortier" in the test): the sync built with emoji and
  /// read notifications (`0x5`) encodes to it, and it decodes back to that
  /// sync.
  lemma SyncVector(name: Bytes)
    requires |name| == 23 && Text.Utf8(name)
    ensures StrValid(name)
    ensures Encode(Sync(NewSync(0x5d97a0bb, Emoji + ReadNotifications, name)))
         == [0x00, 0x00, 0x00, 0x00, 0xbb, 0xa0, 0x97, 0x5d, 0x05, 0x00, 0x00, 0x00, 0x17, 0x00] + name
            + [0x00, 0x00, 0x00, 0x00, 0x00]
    ensures Decode([0x00, 0x00, 0x00, 0x00, 0xbb, 0xa0, 0x97, 0x5d, 0x05, 0x00, 0x00, 0x00, 0x17, 0x00] + name
                   + [0x00, 0x00, 0x00, 0x00, 0x00])
         == Ok(Step(Sync(NewSync(0x5d97a0bb, Emoji + ReadNotifications, name)), []))
  {
    SyncEncoding(name);
    Text.AsciiIsUtf8([]);
    var m := NewSync(0x5d97a0bb, 5, name);
    RoundTrip(Sync(m), []);
    assert EncodeSync(m) + [] == EncodeSync(m);
  }

  lemma TextFlat(text: Bytes)
    ensures [0x01, 0x00, 0x00, 0x00] + [0xd1, 0xa0, 0x97, 0x5d] + [0x00, 0x00, 0x00, 0x00]
            + [0x01, 0x00, 0x00, 0x00] + ([0x1b, 0x00] + text + [0x00])
         == [0x01, 0x00, 0x00, 0x00, 0xd1, 0xa0, 0x97, 0x5d, 0x00, 0x00, 0x00, 0x00, 0x01, 0x00, 0x00, 0x00,
             0x1b, 0x00] + text + [0x00]
  {
  }

  lemma TextEncoding(text: Bytes)
    requires |text| == 27 && Text.Utf8(text)
    ensures StrValid(text)
    ensures EncodeText(NewText(0x5d97a0d1, 1, text, 0))
         == [0x01, 0x00, 0x00, 0x00, 0xd1, 0xa0, 0x97, 0x5d, 0x00, 0x00, 0x00, 0x00, 0x01, 0x00, 0x00, 0x00,
             0x1b, 0x00] + text + [0x00]
  {
    TimestampBytes();
    SmallBytes();
    ZeroEncodings();
    PlainHeadBytes(TextType, 0x5d97a0d1);
    StrBytes(text);
    TextFlat(text);
  }

  /// `TEXT_MSG`, of any 27 valid text bytes: the text built with no flag
  /// and message id 1 encodes to it, and it decodes back to that text.
  lemma TextVector(text: Bytes)
    requires |text| == 27 && Text.Utf8(text)
    ensures StrValid(text)
    ensures Encode(TextMessage(NewText(0x5d97a0d1, 1, text, 0)))
         == [0x01, 0x00, 0x00, 0x00, 0xd1, 0xa0, 0x97, 0x5d, 0x00, 0x00, 0x00, 0x00, 0x01, 0x00, 0x00, 0x00,
             0x1b, 0x00] + text + [0x00]
    ensures Decode([0x01, 0x00, 0x00, 0x00, 0xd1, 0xa0, 0x97, 0x5d, 0x00, 0x00, 0x00, 0x00, 0x01, 0x00, 0x00, 0x00,
                    0x1b, 0x00] + text + [0x00])
         == Ok(Step(TextMessage(NewText(0x5d97a0d1, 1, text, 0)), []))
  {
    TextEncoding(text);
    var m := NewText(0x5d97a0d1, 1, text, 0);
    RoundTrip(TextMessage(m), []);
    assert EncodeText(m) + [] == EncodeText(m);
  }

  /// The test's Japanese text meets the vector's requirement.
  lemma JapaneseTextVector()
    ensures StrValid(Japanese)
    ensures Decode([0x01, 0x00, 0x00, 0x00, 0xd1, 0xa0, 0x97, 0x5d, 0x00, 0x00, 0x00, 0x00, 0x01, 0x00, 0x00, 0x00,
                    0x1b, 0x00] + Japanese + [0x00])
         == Ok(Step(TextMessage(NewText(0x5d97a0d1, 1, Japanese, 0)), []))
  {
    JapaneseIsUtf8();
    TextVector(Japanese);
  }
}
