/// `NowChannelMsg`: the virtual channel list, open, close, start and stop
/// exchanges, each a subtype, a flags byte and a `Vec8<NowChannelDef>`; a
/// channel definition is a flags word and a channel name written as a
/// `NowString64`.
module Channel {
  import opened Wire
  import opened Text
  import opened Errors
  import opened Derived
  import Containers
  import Flags
  import NowStrings
  import opened ChannelNames

  const Ty := "NowChannelMsg"
  const DefTy := "NowChannelDef"

  /// `ChannelMessageType`, with its fallback `Other(v)`.
  datatype ChannelMessageType =
    | ListRequest | ListResponse | OpenRequest | OpenResponse | CloseRequest
    | CloseResponse | StartRequest | StartResponse | StopRequest | StopResponse
    | Other(value: u8)

  function MessageTypeFromByte(v: u8): (t: ChannelMessageType)
    ensures t.Other? <==> !(1 <= v <= 10)
    ensures t.Other? ==> t.value == v
  {
    match v
    case 1 => ListRequest
    case 2 => ListResponse
    case 3 => OpenRequest
    case 4 => OpenResponse
    case 5 => CloseRequest
    case 6 => CloseResponse
    case 7 => StartRequest
    case 8 => StartResponse
    case 9 => StopRequest
    case 10 => StopResponse
    case _ => Other(v)
  }

  function MessageTypeToByte(t: ChannelMessageType): u8
  {
    match t
    case ListRequest => 1
    case ListResponse => 2
    case OpenRequest => 3
    case OpenResponse => 4
    case CloseRequest => 5
    case CloseResponse => 6
    case StartRequest => 7
    case StartResponse => 8
    case StopRequest => 9
    case StopResponse => 10
    case Other(v) => v
  }

  /// `Other(v)` only stands for a value outside the table.
  predicate CanonicalType(t: ChannelMessageType)
  {
    t.Other? ==> !(1 <= t.value <= 10)
  }

  /// The two directions of the subtype table.
  lemma MessageTypeTable(v: u8, t: ChannelMessageType)
    ensures CanonicalType(MessageTypeFromByte(v)) && MessageTypeToByte(MessageTypeFromByte(v)) == v
    ensures CanonicalType(t) ==> MessageTypeFromByte(MessageTypeToByte(t)) == t
  {
  }

  // ---------------------------------------------------------------- flags

  /// `ChannelDefFlags`
  const Dynamic: Flags.Word := 0x0000_0001
  const Multiple: Flags.Word := 0x0000_0002
  const Stopped: Flags.Word := 0x0000_0004
  const Server: Flags.Word := 0x0001_0000
  const Async: Flags.Word := 0x0002_0000
  const Irp: Flags.Word := 0x0004_0000
  const Local: Flags.Word := 0x0008_0000
  const Proxy: Flags.Word := 0x0010_0000
  const StatusFlag: Flags.Word := 0x8000_0000
  const StatusSuccess: Flags.Word := 0x8000_0000
  const StatusFailure: Flags.Word := 0x8000_0001

  /// A word that reports success always reports failure too: the query
  /// asks for any bit of the mask, and success's only bit is one of
  /// failure's.
  lemma SuccessReadsAsFailure(v: Flags.Word)
    requires Flags.Has(v, StatusSuccess)
    ensures Flags.Has(v, StatusFailure)
  {
    Flags.HasEvenThenSucc(v, StatusSuccess);
  }

  /// A dynamic channel reports failure whatever its status bit, because the
  /// failure mask also holds the dynamic bit.
  lemma DynamicReadsAsFailure(v: Flags.Word)
    requires Flags.Has(v, Dynamic)
    ensures Flags.Has(v, StatusFailure)
  {
    Flags.HasLowBit(v);
  }

  // ---------------------------------------------------------------- channel names

  /// `ChannelName::encoded_len`: the name's bytes and two more, whatever
  /// the name's length.
  function NameLen(n: ChannelName): (k: nat)
    ensures k == |AsStr(n)| + 2
  {
    |AsStr(n)| + 2
  }

  /// A name the `NowString64` writer accepts.
  predicate FitsString64(n: ChannelName)
  {
    |AsStr(n)| <= 64
  }

  /// `ChannelName::encode_into`: the name goes through `NowString64`, which
  /// refuses more than 64 bytes.
  function EncodeName(n: ChannelName): (r: Result<Bytes>)
    ensures r.Ok? <==> FitsString64(n)
    ensures r.Ok? ==> |r.value| == NameLen(n) && r.value == NowStrings.Encode(1, AsStr(n))
  {
    var s :- NowStrings.TryFrom(64, 1, AsStr(n));
    Pow256Widths();
    Ok(NowStrings.Encode(1, s))
  }

  /// The bytes of a written name: its length, its bytes, a zero.
  lemma NameBytes(n: ChannelName)
    requires FitsString64(n)
    ensures EncodeName(n).value == [|AsStr(n)| as u8] + AsStr(n) + [0]
  {
    Pow256Widths();
    LeBytesSingle(|AsStr(n)|);
  }

  lemma LeBytesSingle(v: nat)
    requires v < 0x100
    ensures LeBytes(v, 1) == [v as u8]
  {
  }

  /// `ChannelName::decode_from`: a `NowString64`, then the name it spells.
  function DecodeName(b: Bytes): (r: Result<Step<ChannelName>>)
    ensures r.Ok? ==> var n := r.value.value;
                      Canonical(n) && Encodable(n)
                      && NameLen(n) <= |b| && r.value.rest == b[NameLen(n)..] && b[1..1 + |AsStr(n)|] == AsStr(n)
  {
    var s :- NowStrings.Decode(64, 1, b);
    NowStrings.DecodeMeaning(64, 1, b);
    Ok(Step(FromStr(s.value), s.rest))
  }

  /// A name the wire can carry: at most 64 bytes, and UTF-8 (which the
  /// well-known names are, by `WellKnownUtf8`).
  predicate Encodable(n: ChannelName)
  {
    FitsString64(n) && (n.Unknown? ==> Utf8(n.name))
  }

  /// Decoding an encoded name gives back its string, and the name itself
  /// when `Unknown` does not spell a well-known name; what follows the name
  /// is left unread.
  lemma NameRoundTrip(n: ChannelName, rest: Bytes)
    requires Encodable(n)
    ensures DecodeName(EncodeName(n).value + rest).Ok? && DecodeName(EncodeName(n).value + rest).value.rest == rest
    ensures AsStr(DecodeName(EncodeName(n).value + rest).value.value) == AsStr(n)
    ensures DecodeName(EncodeName(n).value + rest).value.value == n <==> Canonical(n)
  {
    if !n.Unknown? { WellKnownUtf8(n); }
    NowStrings.RoundTrip(64, 1, AsStr(n), rest);
    FromStrOfAsStr(n);
  }

  /// A canonical name reads back as itself.
  lemma NameReadsBack(n: ChannelName, rest: Bytes)
    requires Encodable(n) && Canonical(n)
    ensures DecodeName(EncodeName(n).value + rest) == Ok(Step(n, rest))
  {
    NameRoundTrip(n, rest);
  }

  /// The well-known names are ASCII, hence UTF-8.
  lemma WellKnownUtf8(n: ChannelName)
    requires !n.Unknown?
    ensures Utf8(AsStr(n))
  {
    match n
    case Clipboard => AsciiIsUtf8(ClipboardStr);
    case FileTransfer => AsciiIsUtf8(FileTransferStr);
    case Exec => AsciiIsUtf8(ExecStr);
    case Chat => AsciiIsUtf8(ChatStr);
    case Tunnel => AsciiIsUtf8(TunnelStr);
  }

  /// `Unknown("NowChat")` is written as the chat channel's name and read
  /// back as `Chat`.
  lemma UnknownChatReadsAsChat(rest: Bytes)
    ensures DecodeName(EncodeName(Unknown(ChatStr)).value + rest) == Ok(Step(Chat, rest))
  {
    AsciiIsUtf8(ChatStr);
    NameRoundTrip(Unknown(ChatStr), rest);
  }

  // ---------------------------------------------------------------- channel definitions

  datatype NowChannelDef = NowChannelDef(flags: u32, name: ChannelName)

  /// `NowChannelDef::new_with_flags`
  function NewDefWithFlags(name: ChannelName, flags: u32): (d: NowChannelDef)
    ensures d.name == name && d.flags == flags
  {
    NowChannelDef(flags, name)
  }

  /// `NowChannelDef::new`: no flag set.
  function NewDef(name: ChannelName): (d: NowChannelDef)
    ensures d.name == name && d.flags == 0
  {
    NewDefWithFlags(name, 0)
  }

  function EncodeDef(d: NowChannelDef): (r: Result<Bytes>)
    ensures r.Ok? <==> FitsString64(d.name)
    ensures r.Ok? ==> r.value == U32(d.flags) + EncodeName(d.name).value
  {
    var name :- OutField(DefTy, "name", EncodeName(d.name));
    Ok(U32(d.flags) + name)
  }

  function DecodeDef(b: Bytes): (r: Result<Step<NowChannelDef>>)
    ensures r.Ok? ==> 4 <= |b| && Canonical(r.value.value.name) && Encodable(r.value.value.name)
                      && 4 + NameLen(r.value.value.name) <= |b|
                      && r.value.rest == b[4 + NameLen(r.value.value.name)..]
  {
    var flags :- Flags32Field(DefTy, "ChannelDefFlags", "flags", b);
    var name :- InField(DefTy, "ChannelName", "name", DecodeName(flags.rest));
    Ok(Step(NowChannelDef(flags.value, name.value), name.rest))
  }

  /// A definition whose name can be written and is spelled canonically.
  predicate DefWellFormed(d: NowChannelDef)
  {
    Encodable(d.name) && Canonical(d.name)
  }

  /// A flags word followed by bytes the name decoder reads a name from
  /// decodes as the definition of both.
  lemma DecodeDefFromParts(flags: u32, name: ChannelName, nameBytes: Bytes, rest: Bytes)
    requires DecodeName(nameBytes + rest) == Ok(Step(name, rest))
    ensures DecodeDef(U32(flags) + (nameBytes + rest)) == Ok(Step(NowChannelDef(flags, name), rest))
  {
    U32RoundTrip(DefTy, "ChannelDefFlags", "flags", flags, nameBytes + rest);
  }

  /// An encoded definition followed by more bytes: the flags word, then
  /// the name's encoding, then those bytes.
  lemma DefPieces(d: NowChannelDef, rest: Bytes)
    requires FitsString64(d.name)
    ensures EncodeDef(d).value + rest == U32(d.flags) + (EncodeName(d.name).value + rest)
  {
  }

  lemma DefRoundTrip(d: NowChannelDef, rest: Bytes)
    requires DefWellFormed(d)
    ensures DecodeDef(EncodeDef(d).value + rest) == Ok(Step(d, rest))
  {
    DefPieces(d, rest);
    NameReadsBack(d.name, rest);
    DecodeDefFromParts(d.flags, d.name, EncodeName(d.name).value, rest);
  }

  /// The definition codec undoes itself on well-formed definitions.
  lemma DefInverse(xs: seq<NowChannelDef>)
    requires forall d | d in xs :: DefWellFormed(d)
    ensures Containers.InverseOn(EncodeDef, DecodeDef, xs)
  {
    forall d, rest: Bytes | d in xs && EncodeDef(d).Ok?
      ensures DecodeDef(EncodeDef(d).value + rest) == Ok(Step(d, rest))
    {
      DefRoundTrip(d, rest);
    }
  }

  // ---------------------------------------------------------------- messages

  datatype NowChannelMsg = NowChannelMsg(subtype: ChannelMessageType, flags: u8, channelList: seq<NowChannelDef>)

  /// `NowChannelMsg::new`: flags 0, the list in the order given.
  function New(subtype: ChannelMessageType, channelList: seq<NowChannelDef>): (m: NowChannelMsg)
    ensures m.subtype == subtype && m.flags == 0 && m.channelList == channelList
  {
    NowChannelMsg(subtype, 0, channelList)
  }

  function Encode(m: NowChannelMsg): (r: Result<Bytes>)
    ensures r.Ok? <==> |m.channelList| < 256 && forall d | d in m.channelList :: FitsString64(d.name)
    ensures r.Ok? ==> |r.value| >= 3 && r.value[..3] == [MessageTypeToByte(m.subtype), m.flags, |m.channelList| as u8]
  {
    Pow256Widths();
    var list :- OutField(Ty, "channel_list", Containers.EncodeVec(EncodeDef, 1, m.channelList));
    LeBytesSingle(|m.channelList|);
    Ok(U8(MessageTypeToByte(m.subtype)) + U8(m.flags) + list)
  }

  function Decode(b: Bytes): (r: Result<Step<NowChannelMsg>>)
    ensures r.Ok? ==> 3 <= |b| && CanonicalType(r.value.value.subtype)
                      && MessageTypeToByte(r.value.value.subtype) == b[0] && r.value.value.flags == b[1]
                      && |r.value.value.channelList| == b[2] as nat
                      && forall d | d in r.value.value.channelList :: DefWellFormed(d)
  {
    var subtype :- U8Field(Ty, "ChannelMessageType", "subtype", b);
    var flags :- U8Field(Ty, "u8", "flags", subtype.rest);
    var list :- InField(Ty, "Vec8 < NowChannelDef >", "channel_list", DecodeList(flags.rest));
    U8FieldReads(Ty, "ChannelMessageType", "subtype", b);
    U8FieldReads(Ty, "u8", "flags", subtype.rest);
    MessageTypeTable(subtype.value, MessageTypeFromByte(subtype.value));
    Ok(Step(NowChannelMsg(MessageTypeFromByte(subtype.value), flags.value, list.value), list.rest))
  }

  /// The list field: `Vec8` over the definition decoder, every definition
  /// it yields well formed.
  function DecodeList(b: Bytes): (r: Result<Step<seq<NowChannelDef>>>)
    ensures r == Containers.DecodeVec(DecodeDef, 1, b)
    ensures r.Ok? ==> 0 < |b| && |r.value.value| == b[0] as nat
                      && forall d | d in r.value.value :: DefWellFormed(d)
  {
    var r := Containers.DecodeVec(DecodeDef, 1, b);
    if r.Err? then r
    else
      assert b[..1] == [b[0]];
      DecodedDefsWellFormed(0, LeValue(b[..1]), b[1..]);
      r
  }

  lemma {:induction false} DecodedDefsWellFormed(i: nat, count: nat, b: Bytes)
    requires i <= count
    ensures var r := Containers.DecodeItems(DecodeDef, Containers.VecName(1), i, count, b);
            r.Ok? ==> forall d | d in r.value.value :: DefWellFormed(d)
    decreases count - i
  {
    if i < count {
      var d := DecodeDef(b);
      if d.Ok? {
        DecodedDefsWellFormed(i + 1, count, d.value.rest);
      }
    }
  }

  /// A message whose definitions are all well formed and whose subtype is
  /// canonical.
  predicate WellFormed(m: NowChannelMsg)
  {
    CanonicalType(m.subtype) && forall d | d in m.channelList :: DefWellFormed(d)
  }

  /// The decoder reads `m` from its subtype and flags bytes followed by
  /// any bytes the list decoder reads its definitions from.
  lemma DecodeFromParts(m: NowChannelMsg, list: Bytes, rest: Bytes)
    requires WellFormed(m) && DecodeList(list + rest) == Ok(Step(m.channelList, rest))
    ensures Decode(U8(MessageTypeToByte(m.subtype)) + (U8(m.flags) + (list + rest))) == Ok(Step(m, rest))
  {
    MessageTypeTable(MessageTypeToByte(m.subtype), m.subtype);
    U8RoundTrip(Ty, "ChannelMessageType", "subtype", MessageTypeToByte(m.subtype), U8(m.flags) + (list + rest));
    U8RoundTrip(Ty, "u8", "flags", m.flags, list + rest);
  }

  /// The bytes of an encoded message: subtype, flags, then the list.
  lemma EncodeShape(m: NowChannelMsg, rest: Bytes)
    requires Encode(m).Ok?
    ensures Encode(m).value + rest
            == U8(MessageTypeToByte(m.subtype)) + (U8(m.flags) + (Containers.EncodeVec(EncodeDef, 1, m.channelList).value + rest))
  {
  }

  /// An encoded message is its subtype, its flags, its count and then its
  /// definitions' encodings.
  lemma EncodeLayout(m: NowChannelMsg)
    requires forall d | d in m.channelList :: FitsString64(d.name)
    requires |m.channelList| < 256
    ensures Encode(m) == Ok([MessageTypeToByte(m.subtype), m.flags, |m.channelList| as u8]
                            + Containers.EncodeItems(EncodeDef, Containers.VecName(1), m.channelList).value)
  {
    Pow256Widths();
    LeBytesSingle(|m.channelList|);
    var items := Containers.EncodeItems(EncodeDef, Containers.VecName(1), m.channelList);
    assert items.Ok?;
    assert Containers.EncodeVec(EncodeDef, 1, m.channelList) == Ok([|m.channelList| as u8] + items.value);
    assert U8(MessageTypeToByte(m.subtype)) + U8(m.flags) + ([|m.channelList| as u8] + items.value)
        == [MessageTypeToByte(m.subtype), m.flags, |m.channelList| as u8] + items.value;
  }

  /// A list of well-formed definitions reads back, whatever follows it.
  lemma ListRoundTrip(xs: seq<NowChannelDef>, rest: Bytes)
    requires forall d | d in xs :: DefWellFormed(d)
    requires Containers.EncodeVec(EncodeDef, 1, xs).Ok?
    ensures DecodeList(Containers.EncodeVec(EncodeDef, 1, xs).value + rest) == Ok(Step(xs, rest))
  {
    DefInverse(xs);
    Containers.VecRoundTrip(EncodeDef, DecodeDef, 1, xs, rest);
  }

  /// Decoding an encoded well-formed message gives it back and leaves what
  /// follows it unread.
  lemma RoundTrip(m: NowChannelMsg, rest: Bytes)
    requires WellFormed(m) && Encode(m).Ok?
    ensures Decode(Encode(m).value + rest) == Ok(Step(m, rest))
  {
    EncodeShape(m, rest);
    ListRoundTrip(m.channelList, rest);
    DecodeFromParts(m, Containers.EncodeVec(EncodeDef, 1, m.channelList).value, rest);
  }

  lemma ReadsBack(m: NowChannelMsg)
    requires WellFormed(m) && Encode(m).Ok?
    ensures Decode(Encode(m).value) == Ok(Step(m, []))
  {
    RoundTrip(m, []);
    assert Encode(m).value + [] == Encode(m).value;
  }

  // ---------------------------------------------------------------- vectors

  /// `CLIPBOARD_CHANNEL_DEF`, `FILE_TRANSFER_CHANNEL_DEF`, `EXEC_CHANNEL_DEF`,
  /// `CHAT_CHANNEL_DEF`, `UNKNOWN_CHANNEL_DEF`
  const ClipboardDefBytes: Bytes := [0, 0, 0, 0, 0x0c] + ClipboardStr + [0]
  const FileTransferDefBytes: Bytes := [0, 0, 0, 0, 0x0f] + FileTransferStr + [0]
  const ExecDefBytes: Bytes := [0, 0, 0, 0, 0x07] + ExecStr + [0]
  const ChatDefBytes: Bytes := [0, 0, 0, 0, 0x07] + ChatStr + [0]
  /// "Something"
  const SomethingStr: Bytes := [0x53, 0x6f, 0x6d, 0x65, 0x74, 0x68, 0x69, 0x6e, 0x67]
  const UnknownDefBytes: Bytes := [0, 0, 0, 0, 0x09] + SomethingStr + [0]

  /// A definition with no flag encodes to its length-prefixed,
  /// zero-terminated name after four zero bytes.
  lemma DefVector(d: NowChannelDef)
    requires d.flags == 0 && FitsString64(d.name)
    ensures EncodeDef(d) == Ok([0, 0, 0, 0, |AsStr(d.name)| as u8] + AsStr(d.name) + [0])
  {
    assert U32(0) == [0, 0, 0, 0] by { ZeroEncodings(); }
    NameBytes(d.name);
    ZerosThenName(|AsStr(d.name)| as u8, AsStr(d.name));
  }

  lemma ZerosThenName(len: u8, s: Bytes)
    ensures [0, 0, 0, 0] + ([len] + s + [0]) == [0, 0, 0, 0, len] + s + [0]
  {
  }

  /// A well-formed definition decodes back from its own encoding.
  lemma DefReadsBack(d: NowChannelDef)
    requires DefWellFormed(d)
    ensures DecodeDef(EncodeDef(d).value) == Ok(Step(d, []))
  {
    DefRoundTrip(d, []);
    assert EncodeDef(d).value + [] == EncodeDef(d).value;
  }

  /// The five definitions of the tests meet the vector's requirements and
  /// spell the test bytes.
  lemma DefVectors()
    ensures DefWellFormed(NewDef(Clipboard)) && DefWellFormed(NewDef(FileTransfer))
    ensures DefWellFormed(NewDef(Exec)) && DefWellFormed(NewDef(Chat))
    ensures DefWellFormed(NewDef(Unknown(SomethingStr)))
    ensures EncodeDef(NewDef(Clipboard)) == Ok(ClipboardDefBytes)
    ensures EncodeDef(NewDef(Unknown(SomethingStr))) == Ok(UnknownDefBytes)
  {
    AsciiIsUtf8(SomethingStr);
    WellKnownUtf8(Clipboard);
    WellKnownUtf8(FileTransfer);
    WellKnownUtf8(Exec);
    WellKnownUtf8(Chat);
    assert EncodeDef(NewDef(Clipboard)) == Ok(ClipboardDefBytes) by { DefVector(NewDef(Clipboard)); }
    assert EncodeDef(NewDef(Unknown(SomethingStr))) == Ok(UnknownDefBytes) by { DefVector(NewDef(Unknown(SomethingStr))); }
  }

  /// The list request body of `CHANNEL_LIST_REQUEST_PACKET`, after its
  /// four header bytes.
  const ListRequestBody: Bytes :=
    [0x01, 0x00, 0x04] + (ClipboardDefBytes + (FileTransferDefBytes + (ExecDefBytes + ChatDefBytes)))

  const ListRequestMsg := New(ListRequest, [NewDef(Clipboard), NewDef(FileTransfer), NewDef(Exec), NewDef(Chat)])

  /// Four definitions that can be written are written one after the other.
  lemma FourDefs(d0: NowChannelDef, d1: NowChannelDef, d2: NowChannelDef, d3: NowChannelDef)
    requires FitsString64(d0.name) && FitsString64(d1.name) && FitsString64(d2.name) && FitsString64(d3.name)
    ensures Encode(New(ListRequest, [d0, d1, d2, d3]))
            == Ok([0x01, 0x00, 0x04] + (EncodeDef(d0).value + (EncodeDef(d1).value + (EncodeDef(d2).value + EncodeDef(d3).value))))
  {
    var xs := [d0, d1, d2, d3];
    Containers.FourItems(EncodeDef, Containers.VecName(1), d0, d1, d2, d3);
    EncodeLayout(New(ListRequest, xs));
  }

  /// The list request of the four well-known channels encodes to the test
  /// body, 68 bytes.
  lemma ListRequestEncodes()
    ensures Encode(ListRequestMsg) == Ok(ListRequestBody) && |ListRequestBody| == 68
  {
    DefVectors();
    DefVector(NewDef(FileTransfer));
    DefVector(NewDef(Exec));
    DefVector(NewDef(Chat));
    FourDefs(NewDef(Clipboard), NewDef(FileTransfer), NewDef(Exec), NewDef(Chat));
  }

  /// The body decodes back to the list request.
  lemma ListRequestDecodes()
    ensures Decode(ListRequestBody) == Ok(Step(ListRequestMsg, []))
  {
    DefVectors();
    FourWellFormed(NewDef(Clipboard), NewDef(FileTransfer), NewDef(Exec), NewDef(Chat));
    ListRequestEncodes();
    ReadsBack(ListRequestMsg);
  }

  /// A list request of four well-formed definitions is well formed.
  lemma FourWellFormed(d0: NowChannelDef, d1: NowChannelDef, d2: NowChannelDef, d3: NowChannelDef)
    requires DefWellFormed(d0) && DefWellFormed(d1) && DefWellFormed(d2) && DefWellFormed(d3)
    ensures WellFormed(New(ListRequest, [d0, d1, d2, d3]))
  {
  }
}
