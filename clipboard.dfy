/// `NowClipboardMsg`: the clipboard virtual channel's messages, a meta enum
/// on a one-byte subtype over twelve structs. The subtype enum and the
/// control-state enum have no fallback variant, so a value outside their
/// tables is refused.
module Clipboard {
  import opened Wire
  import opened Errors
  import opened Derived
  import Containers
  import Flags
  import Layout

  const Ty := "NowClipboardMsg"

  // ---------------------------------------------------------------- value enums

  /// `ClipboardMessageType`, bytes 0x01 to 0x0C.
  datatype ClipboardMessageType =
    | CapabilitiesReqType | CapabilitiesRspType | ControlReqType | ControlRspType
    | SuspendReqType | SuspendRspType | ResumeReqType | ResumeRspType
    | FormatListReqType | FormatListRspType | FormatDataReqType | FormatDataRspType

  function MessageTypeFromByte(x: u8): (r: Option<ClipboardMessageType>)
    ensures r.Some? <==> 1 <= x <= 12
  {
    match x
    case 1 => Some(CapabilitiesReqType)
    case 2 => Some(CapabilitiesRspType)
    case 3 => Some(ControlReqType)
    case 4 => Some(ControlRspType)
    case 5 => Some(SuspendReqType)
    case 6 => Some(SuspendRspType)
    case 7 => Some(ResumeReqType)
    case 8 => Some(ResumeRspType)
    case 9 => Some(FormatListReqType)
    case 10 => Some(FormatListRspType)
    case 11 => Some(FormatDataReqType)
    case 12 => Some(FormatDataRspType)
    case _ => None
  }

  function MessageTypeToByte(t: ClipboardMessageType): u8
  {
    match t
    case CapabilitiesReqType => 1
    case CapabilitiesRspType => 2
    case ControlReqType => 3
    case ControlRspType => 4
    case SuspendReqType => 5
    case SuspendRspType => 6
    case ResumeReqType => 7
    case ResumeRspType => 8
    case FormatListReqType => 9
    case FormatListRspType => 10
    case FormatDataReqType => 11
    case FormatDataRspType => 12
  }

  /// The subtype table is a bijection between the twelve types and bytes 1
  /// to 12.
  lemma MessageTypeTable(x: u8, t: ClipboardMessageType)
    ensures MessageTypeFromByte(x) == Some(t) <==> MessageTypeToByte(t) == x
  {
  }

  lemma MessageTypeInjective(t: ClipboardMessageType, u: ClipboardMessageType)
    requires MessageTypeToByte(t) == MessageTypeToByte(u)
    ensures t == u
  {
    MessageTypeTable(MessageTypeToByte(t), t);
    MessageTypeTable(MessageTypeToByte(t), u);
  }

  /// `ClipboardControlState`, a `u16`.
  datatype ClipboardControlState = ControlNone | Auto | Manual

  function ControlStateFromWord(x: u16): (r: Option<ClipboardControlState>)
    ensures r.Some? <==> x <= 2
  {
    match x
    case 0 => Some(ControlNone)
    case 1 => Some(Auto)
    case 2 => Some(Manual)
    case _ => None
  }

  function ControlStateToWord(s: ClipboardControlState): u16
  {
    match s
    case ControlNone => 0
    case Auto => 1
    case Manual => 2
  }

  lemma ControlStateTable(x: u16, s: ClipboardControlState)
    ensures ControlStateFromWord(x) == Some(s) <==> ControlStateToWord(s) == x
  {
  }

  /// The derived codecs of the two enums.
  function DecodeMessageType(b: Bytes): (r: Result<Step<ClipboardMessageType>>)
    ensures r.Ok? <==> 0 < |b| && 1 <= b[0] <= 12
    ensures r.Ok? ==> r.value.rest == b[1..] && MessageTypeToByte(r.value.value) == b[0]
  {
    var r := ListedByte("ClipboardMessageType", MessageTypeFromByte, b);
    if r.Ok? then MessageTypeTable(b[0], r.value.value); r else r
  }

  lemma MessageTypeRoundTrip(t: ClipboardMessageType, rest: Bytes)
    ensures DecodeMessageType(U8(MessageTypeToByte(t)) + rest) == Ok(Step(t, rest))
  {
    MessageTypeTable(MessageTypeToByte(t), t);
    ListedByteRoundTrip("ClipboardMessageType", MessageTypeFromByte, MessageTypeToByte(t), t, rest);
  }

  function DecodeControlState(b: Bytes): (r: Result<Step<ClipboardControlState>>)
    ensures r.Ok? <==> 2 <= |b| && LeValue(b[..2]) <= 2
    ensures r.Ok? ==> r.value.rest == b[2..] && ControlStateToWord(r.value.value) == LeValue(b[..2])
  {
    var r := ListedWord("ClipboardControlState", ControlStateFromWord, b);
    if r.Ok? then ControlStateTable(LeValue(b[..2]), r.value.value); r else r
  }

  lemma ControlStateRoundTrip(s: ClipboardControlState, rest: Bytes)
    ensures DecodeControlState(U16(ControlStateToWord(s)) + rest) == Ok(Step(s, rest))
  {
    ControlStateTable(ControlStateToWord(s), s);
    ListedWordRoundTrip("ClipboardControlState", ControlStateFromWord, ControlStateToWord(s), s, rest);
  }

  /// `ClipboardResponseFlags`: `failure` is the top bit.
  const Failure: Flags.Word := 0x80

  /// A response's `failure()`: the flags byte has its top bit set.
  predicate Failed(flags: u8)
  {
    Flags.Has(flags, Failure)
  }

  lemma FailedIsTopBit(flags: u8)
    ensures Failed(flags) <==> flags >= 0x80
  {
    Flags.HasByteTopBit(flags);
  }

  // ---------------------------------------------------------------- the structs

  /// The seven structs of one layout: subtype, flags, one `u16`. They are
  /// the capabilities request and response (`capabilities`), the suspend
  /// and resume requests and responses (`reserved`), and the format-list
  /// response (`sequence_id`).
  datatype WordMsg = WordMsg(subtype: ClipboardMessageType, flags: u8, word: u16)

  /// The control request and response: subtype, flags, control state.
  datatype ControlMsg = ControlMsg(subtype: ClipboardMessageType, flags: u8, controlState: ClipboardControlState)

  /// `ClipboardFormatDef`: a format's id and its name, a `NowString256`.
  datatype FormatDef = FormatDef(id: u32, name: Bytes)

  /// The format-list request.
  datatype FormatListMsg = FormatListMsg(subtype: ClipboardMessageType, flags: u8, sequenceId: u16,
                                         formats: seq<FormatDef>)

  /// The format-data request.
  datatype DataReqMsg = DataReqMsg(subtype: ClipboardMessageType, flags: u8, sequenceId: u16, formatId: u32)

  /// The format-data response; the borrowed and the owned struct hold the
  /// same fields and differ only in the container of the data.
  datatype DataRspMsg = DataRspMsg(subtype: ClipboardMessageType, flags: u8, sequenceId: u16, formatId: u32,
                                   formatData: Bytes)

  datatype NowClipboardMsg =
    | CapabilitiesReq(capabilitiesReq: WordMsg)
    | CapabilitiesRsp(capabilitiesRsp: WordMsg)
    | ControlReq(controlReq: ControlMsg)
    | ControlRsp(controlRsp: ControlMsg)
    | SuspendReq(suspendReq: WordMsg)
    | SuspendRsp(suspendRsp: WordMsg)
    | ResumeReq(resumeReq: WordMsg)
    | ResumeRsp(resumeRsp: WordMsg)
    | FormatListReq(formatListReq: FormatListMsg)
    | FormatListRsp(formatListRsp: WordMsg)
    | FormatDataReq(formatDataReq: DataReqMsg)
    | FormatDataRsp(formatDataRsp: DataRspMsg)
    | FormatDataRspOwned(formatDataRspOwned: DataRspMsg)

  // ---------------------------------------------------------------- constructors

  /// `Default` of the capabilities request, the suspend request and the
  /// resume request, and `new_with_flags` of the capabilities, suspend and
  /// resume responses: the struct's own subtype and a zero word.
  function NewWordMsg(subtype: ClipboardMessageType, flags: u8): (m: WordMsg)
    ensures m.subtype == subtype && m.flags == flags && m.word == 0
  {
    WordMsg(subtype, flags, 0)
  }

  /// `NowClipboardControlReqMsg::new`: no flag.
  function NewControlReq(state: ClipboardControlState): (m: ControlMsg)
    ensures m.subtype == ControlReqType && m.flags == 0 && m.controlState == state
  {
    ControlMsg(ControlReqType, 0, state)
  }

  /// `NowClipboardControlRspMsg::new_with_flags`; `new` passes no flag.
  function NewControlRsp(state: ClipboardControlState, flags: u8): (m: ControlMsg)
    ensures m.subtype == ControlRspType && m.flags == flags && m.controlState == state
  {
    ControlMsg(ControlRspType, flags, state)
  }

  /// `NowClipboardFormatListReqMsg::new_with_formats`; `new` passes no format.
  function NewFormatListReq(sequenceId: u16, formats: seq<FormatDef>): (m: FormatListMsg)
    ensures m.subtype == FormatListReqType && m.flags == 0 && m.sequenceId == sequenceId && m.formats == formats
  {
    FormatListMsg(FormatListReqType, 0, sequenceId, formats)
  }

  /// `NowClipboardFormatListRspMsg::new_with_flags`: the word is the
  /// sequence id; `new` passes no flag.
  function NewFormatListRsp(sequenceId: u16, flags: u8): (m: WordMsg)
    ensures m.subtype == FormatListRspType && m.flags == flags && m.word == sequenceId
  {
    WordMsg(FormatListRspType, flags, sequenceId)
  }

  function NewFormatDataReq(sequenceId: u16, formatId: u32): (m: DataReqMsg)
    ensures m.subtype == FormatDataReqType && m.flags == 0 && m.sequenceId == sequenceId && m.formatId == formatId
  {
    DataReqMsg(FormatDataReqType, 0, sequenceId, formatId)
  }

  /// `new_with_flags` of the format-data response, borrowed or owned: no
  /// data; `new` passes no flag either.
  function NewFormatDataRsp(sequenceId: u16, formatId: u32, flags: u8): (m: DataRspMsg)
    ensures m.subtype == FormatDataRspType && m.flags == flags && m.sequenceId == sequenceId
    ensures m.formatId == formatId && m.formatData == []
  {
    DataRspMsg(FormatDataRspType, flags, sequenceId, formatId, [])
  }

  /// `new_with_format_data`, borrowed or owned: the data and no flag.
  function NewFormatDataRspWithData(sequenceId: u16, formatId: u32, data: Bytes): (m: DataRspMsg)
    ensures m.subtype == FormatDataRspType && m.flags == 0 && m.sequenceId == sequenceId
    ensures m.formatId == formatId && m.formatData == data
  {
    DataRspMsg(FormatDataRspType, 0, sequenceId, formatId, data)
  }

  // ---------------------------------------------------------------- struct codecs

  /// The struct names the derived errors carry.
  function WordTy(t: ClipboardMessageType): string
  {
    match t
    case CapabilitiesReqType => "NowClipboardCapabilitiesReqMsg"
    case CapabilitiesRspType => "NowClipboardCapabilitiesRspMsg"
    case SuspendReqType => "NowClipboardSuspendReqMsg"
    case SuspendRspType => "NowClipboardSuspendRspMsg"
    case ResumeReqType => "NowClipboardResumeReqMsg"
    case ResumeRspType => "NowClipboardResumeRspMsg"
    case _ => "NowClipboardFormatListRspMsg"
  }

  /// The word's field name in each struct.
  function WordField(t: ClipboardMessageType): string
  {
    match t
    case CapabilitiesReqType => "capabilities"
    case CapabilitiesRspType => "capabilities"
    case FormatListRspType => "sequence_id"
    case _ => "reserved"
  }

  /// Responses carry `ClipboardResponseFlags`, requests a plain `u8`.
  predicate IsResponse(t: ClipboardMessageType)
  {
    t in {CapabilitiesRspType, ControlRspType, SuspendRspType, ResumeRspType, FormatListRspType, FormatDataRspType}
  }

  /// A struct's flags field: a flags word in a response, a byte in a request.
  function FlagsField(ty: string, response: bool, b: Bytes): (r: Result<Step<u8>>)
    ensures r.Ok? <==> 1 <= |b|
    ensures r.Ok? ==> r.value.rest == b[1..]
  {
    if response then Flags8Field(ty, "ClipboardResponseFlags", "flags", b) else U8Field(ty, "u8", "flags", b)
  }

  lemma FlagsFieldRoundTrip(ty: string, response: bool, v: u8, rest: Bytes)
    ensures FlagsField(ty, response, U8(v) + rest) == Ok(Step(v, rest))
  {
    U8RoundTrip(ty, if response then "ClipboardResponseFlags" else "u8", "flags", v, rest);
  }

  /// The subtype field of a struct.
  function SubtypeField(ty: string, b: Bytes): (r: Result<Step<ClipboardMessageType>>)
    ensures r.Ok? <==> 0 < |b| && 1 <= b[0] <= 12
    ensures r.Ok? ==> r.value.rest == b[1..] && MessageTypeToByte(r.value.value) == b[0]
  {
    InField(ty, "ClipboardMessageType", "subtype", DecodeMessageType(b))
  }

  // the heads: subtype, flags, one u16

  function EncodeWord(m: WordMsg): (e: Bytes)
    ensures |e| == 4 && e[0] == MessageTypeToByte(m.subtype)
  {
    U8(MessageTypeToByte(m.subtype)) + U8(m.flags) + U16(m.word)
  }

  /// The derived decoder of the first three fields every struct but the
  /// control messages shares: subtype, flags (response flags when
  /// `response`), and a `u16` named `wordField`.
  function DecodeHead(ty: string, response: bool, wordField: string, b: Bytes): (r: Result<Step<WordMsg>>)
    ensures r.Ok? <==> 4 <= |b| && 1 <= b[0] <= 12
    ensures r.Ok? ==> r.value.rest == b[4..] && MessageTypeToByte(r.value.value.subtype) == b[0]
  {
    var subtype :- SubtypeField(ty, b);
    var flags :- FlagsField(ty, response, subtype.rest);
    var word :- U16Field(ty, "u16", wordField, flags.rest);
    Ok(Step(WordMsg(subtype.value, flags.value, word.value), word.rest))
  }

  lemma SubtypeFieldRoundTrip(ty: string, t: ClipboardMessageType, rest: Bytes)
    ensures SubtypeField(ty, U8(MessageTypeToByte(t)) + rest) == Ok(Step(t, rest))
  {
    MessageTypeRoundTrip(t, rest);
  }

  lemma HeadRoundTrip(ty: string, response: bool, wordField: string, m: WordMsg, rest: Bytes)
    ensures DecodeHead(ty, response, wordField, EncodeWord(m) + rest) == Ok(Step(m, rest))
  {
    var e0, e1, e2 := U8(MessageTypeToByte(m.subtype)), U8(m.flags), U16(m.word);
    assert EncodeWord(m) + rest == e0 + (e1 + (e2 + rest));
    SubtypeFieldRoundTrip(ty, m.subtype, e1 + (e2 + rest));
    FlagsFieldRoundTrip(ty, response, m.flags, e2 + rest);
    U16RoundTrip(ty, "u16", wordField, m.word, rest);
  }

  /// The derived decoder of the word struct of subtype `t`.
  function DecodeWord(t: ClipboardMessageType, b: Bytes): (r: Result<Step<WordMsg>>)
    ensures r.Ok? <==> 4 <= |b| && 1 <= b[0] <= 12
    ensures r.Ok? ==> r.value.rest == b[4..] && MessageTypeToByte(r.value.value.subtype) == b[0]
  {
    DecodeHead(WordTy(t), IsResponse(t), WordField(t), b)
  }

  // control

  function ControlTy(t: ClipboardMessageType): string
  {
    if t == ControlReqType then "NowClipboardControlReqMsg" else "NowClipboardControlRspMsg"
  }

  function EncodeControl(m: ControlMsg): (e: Bytes)
    ensures |e| == 4 && e[0] == MessageTypeToByte(m.subtype)
  {
    U8(MessageTypeToByte(m.subtype)) + U8(m.flags) + U16(ControlStateToWord(m.controlState))
  }

  /// The derived decoder of the control request (`t` its subtype) or
  /// response; a control state outside the table is refused.
  function DecodeControl(t: ClipboardMessageType, b: Bytes): (r: Result<Step<ControlMsg>>)
    ensures r.Ok? ==> 4 <= |b| && r.value.rest == b[4..] && MessageTypeToByte(r.value.value.subtype) == b[0]
  {
    var ty := ControlTy(t);
    var subtype :- SubtypeField(ty, b);
    var flags :- FlagsField(ty, IsResponse(t), subtype.rest);
    var state :- InField(ty, "ClipboardControlState", "control_state", DecodeControlState(flags.rest));
    Ok(Step(ControlMsg(subtype.value, flags.value, state.value), state.rest))
  }

  lemma ControlStateFieldRoundTrip(ty: string, s: ClipboardControlState, rest: Bytes)
    ensures InField(ty, "ClipboardControlState", "control_state", DecodeControlState(U16(ControlStateToWord(s)) + rest))
         == Ok(Step(s, rest))
  {
    ControlStateRoundTrip(s, rest);
  }

  lemma ControlRoundTrip(t: ClipboardMessageType, m: ControlMsg, rest: Bytes)
    ensures DecodeControl(t, EncodeControl(m) + rest) == Ok(Step(m, rest))
  {
    var ty := ControlTy(t);
    var e0, e1, e2 := U8(MessageTypeToByte(m.subtype)), U8(m.flags), U16(ControlStateToWord(m.controlState));
    assert EncodeControl(m) + rest == e0 + (e1 + (e2 + rest));
    SubtypeFieldRoundTrip(ty, m.subtype, e1 + (e2 + rest));
    FlagsFieldRoundTrip(ty, IsResponse(t), m.flags, e2 + rest);
    ControlStateFieldRoundTrip(ty, m.controlState, rest);
  }

  // the format definitions

  const FormatDefTy := "ClipboardFormatDef"

  /// A definition's name is a `NowString256` the type can hold.
  predicate FormatDefValid(d: FormatDef)
  {
    Layout.StrValid(256, 1, d.name)
  }

  /// A definition's bytes: the id, then the name; a name no `NowString256`
  /// holds is refused.
  function EncodeFormatDef(d: FormatDef): (r: Result<Bytes>)
    ensures r.Ok? <==> FormatDefValid(d)
  {
    if FormatDefValid(d) then Ok(U32(d.id) + Layout.Str(256, 1, d.name))
    else Err(FromKind(Encoding(FormatDefTy)))
  }

  function DecodeFormatDef(b: Bytes): (r: Result<Step<FormatDef>>)
    ensures r.Ok? ==> FormatDefValid(r.value.value)
  {
    var id :- U32Field(FormatDefTy, "u32", "id", b);
    var name :- Layout.StrField(FormatDefTy, "name", 256, 1, id.rest);
    Ok(Step(FormatDef(id.value, name.value), name.rest))
  }

  lemma FormatDefRoundTrip(d: FormatDef, rest: Bytes)
    requires FormatDefValid(d)
    ensures DecodeFormatDef(EncodeFormatDef(d).value + rest) == Ok(Step(d, rest))
  {
    var e0, e1 := U32(d.id), Layout.Str(256, 1, d.name);
    assert EncodeFormatDef(d).value + rest == e0 + (e1 + rest);
    U32RoundTrip(FormatDefTy, "u32", "id", d.id, e1 + rest);
    Layout.StrRoundTrip(FormatDefTy, "name", 256, 1, d.name, rest);
  }

  /// The definitions' codec undoes itself on any list of definitions.
  lemma FormatDefInverse(xs: seq<FormatDef>)
    ensures Containers.InverseOn(EncodeFormatDef, DecodeFormatDef, xs)
  {
    forall x, rest: Bytes | x in xs && EncodeFormatDef(x).Ok?
      ensures DecodeFormatDef(EncodeFormatDef(x).value + rest) == Ok(Step(x, rest))
    {
      FormatDefRoundTrip(x, rest);
    }
  }

  // the format-list request

  const ListReqTy := "NowClipboardFormatListReqMsg"

  /// Every definition has a name the string type can hold.
  predicate FormatsValid(formats: seq<FormatDef>)
  {
    forall d | d in formats :: FormatDefValid(d)
  }

  function ListHead(m: FormatListMsg): WordMsg
  {
    WordMsg(m.subtype, m.flags, m.sequenceId)
  }

  /// The derived encoder: the head, then a `Vec8` of definitions; it fails
  /// for more than 255 definitions or a name the string type cannot hold.
  function EncodeFormatList(m: FormatListMsg): (r: Result<Bytes>)
    ensures r.Ok? <==> |m.formats| < 0x100 && FormatsValid(m.formats)
    ensures r.Ok? ==> |r.value| >= 5 && r.value[0] == MessageTypeToByte(m.subtype) && r.value[4] == |m.formats|
  {
    Pow256Widths();
    var formats :- OutField(ListReqTy, "formats", Containers.EncodeVec(EncodeFormatDef, 1, m.formats));
    assert formats[..1] == LeBytes(|m.formats|, 1);
    Ok(EncodeWord(ListHead(m)) + formats)
  }

  function DecodeFormatList(b: Bytes): (r: Result<Step<FormatListMsg>>)
    ensures r.Ok? ==> 5 <= |b| && MessageTypeToByte(r.value.value.subtype) == b[0]
  {
    var head :- DecodeHead(ListReqTy, false, "sequence_id", b);
    var formats :- InField(ListReqTy, "Vec8 < ClipboardFormatDef >", "formats",
                           Containers.DecodeVec(DecodeFormatDef, 1, head.rest));
    Ok(Step(FormatListMsg(head.value.subtype, head.value.flags, head.value.word, formats.value), formats.rest))
  }

  /// Every decoded definition has a name the string type can hold.
  lemma DecodedFormatsValid(b: Bytes)
    requires DecodeFormatList(b).Ok?
    ensures FormatsValid(DecodeFormatList(b).value.value.formats)
  {
    var head := DecodeHead(ListReqTy, false, "sequence_id", b).value;
    assert Containers.Yields(DecodeFormatDef, FormatDefValid);
    Containers.VecYields(DecodeFormatDef, FormatDefValid, 1, head.rest);
  }

  lemma FormatListRoundTrip(m: FormatListMsg, rest: Bytes)
    requires EncodeFormatList(m).Ok?
    ensures DecodeFormatList(EncodeFormatList(m).value + rest) == Ok(Step(m, rest))
  {
    var e0 := EncodeWord(ListHead(m));
    var e1 := Containers.EncodeVec(EncodeFormatDef, 1, m.formats).value;
    assert EncodeFormatList(m).value + rest == e0 + (e1 + rest);
    HeadRoundTrip(ListReqTy, false, "sequence_id", ListHead(m), e1 + rest);
    FormatDefInverse(m.formats);
    Containers.VecRoundTrip(EncodeFormatDef, DecodeFormatDef, 1, m.formats, rest);
  }

  // the format-data request

  const DataReqTy := "NowClipboardFormatDataReqMsg"

  function EncodeDataReq(m: DataReqMsg): (e: Bytes)
    ensures |e| == 8 && e[0] == MessageTypeToByte(m.subtype)
  {
    EncodeWord(WordMsg(m.subtype, m.flags, m.sequenceId)) + U32(m.formatId)
  }

  function DecodeDataReq(b: Bytes): (r: Result<Step<DataReqMsg>>)
    ensures r.Ok? ==> 8 <= |b| && r.value.rest == b[8..] && MessageTypeToByte(r.value.value.subtype) == b[0]
  {
    var head :- DecodeHead(DataReqTy, false, "sequence_id", b);
    var formatId :- U32Field(DataReqTy, "u32", "format_id", head.rest);
    Ok(Step(DataReqMsg(head.value.subtype, head.value.flags, head.value.word, formatId.value), formatId.rest))
  }

  lemma DataReqRoundTrip(m: DataReqMsg, rest: Bytes)
    ensures DecodeDataReq(EncodeDataReq(m) + rest) == Ok(Step(m, rest))
  {
    var e0, e1 := EncodeWord(WordMsg(m.subtype, m.flags, m.sequenceId)), U32(m.formatId);
    assert EncodeDataReq(m) + rest == e0 + (e1 + rest);
    HeadRoundTrip(DataReqTy, false, "sequence_id", WordMsg(m.subtype, m.flags, m.sequenceId), e1 + rest);
    U32RoundTrip(DataReqTy, "u32", "format_id", m.formatId, rest);
  }

  // the format-data response

  const DataRspTy := "NowClipboardFormatDataRspMsg"
  const DataRspOwnedTy := "NowClipboardFormatDataRspMsgOwned"

  function DataRspHead(m: DataRspMsg): (e: Bytes)
    ensures |e| == 8 && e[0] == MessageTypeToByte(m.subtype)
  {
    EncodeWord(WordMsg(m.subtype, m.flags, m.sequenceId)) + U32(m.formatId)
  }

  /// The derived encoder: the head, then the data as a `Bytes32`, which
  /// fails for 2^32 bytes or more.
  function EncodeDataRsp(m: DataRspMsg): (r: Result<Bytes>)
    ensures r.Ok? <==> |m.formatData| < 0x1_0000_0000
    ensures r.Ok? ==> |r.value| == 12 + |m.formatData| && r.value[0] == MessageTypeToByte(m.subtype)
  {
    Pow256Widths();
    var data :- OutField(DataRspTy, "format_data", Containers.EncodeBytes(4, m.formatData));
    Ok(DataRspHead(m) + data)
  }

  /// The owned struct writes its data as a `Vec32<u8>`.
  function EncodeDataRspOwned(m: DataRspMsg): (r: Result<Bytes>)
    ensures r.Ok? <==> |m.formatData| < 0x1_0000_0000
    ensures r.Ok? ==> |r.value| == 12 + |m.formatData| && r.value[0] == MessageTypeToByte(m.subtype)
  {
    Containers.ByteVecIsBytes(4, m.formatData);
    var data :- OutField(DataRspOwnedTy, "format_data", Containers.EncodeVec(Containers.EncodeByteItem, 4, m.formatData));
    Ok(DataRspHead(m) + data)
  }

  /// The owned struct has the borrowed struct's wire form.
  lemma OwnedSameWire(m: DataRspMsg)
    ensures EncodeDataRspOwned(m).Ok? <==> EncodeDataRsp(m).Ok?
    ensures EncodeDataRspOwned(m).Ok? ==> EncodeDataRspOwned(m) == EncodeDataRsp(m)
  {
    Containers.ByteVecIsBytes(4, m.formatData);
  }

  /// The derived decoder, with the `Bytes32` read as intended: the data,
  /// and the cursor after it.
  function DecodeDataRsp(b: Bytes): (r: Result<Step<DataRspMsg>>)
    ensures r.Ok? ==> 12 + |r.value.value.formatData| <= |b| && MessageTypeToByte(r.value.value.subtype) == b[0]
                      && r.value.rest == b[12 + |r.value.value.formatData|..]
  {
    var head :- DecodeHead(DataRspTy, true, "sequence_id", b);
    var formatId :- U32Field(DataRspTy, "u32", "format_id", head.rest);
    var data :- InField(DataRspTy, "Bytes32 < 'a >", "format_data", Containers.DecodeBytes(4, formatId.rest));
    Ok(Step(DataRspMsg(head.value.subtype, head.value.flags, head.value.word, formatId.value, data.value), data.rest))
  }

  lemma DataRspRoundTrip(m: DataRspMsg, rest: Bytes)
    requires EncodeDataRsp(m).Ok?
    ensures DecodeDataRsp(EncodeDataRsp(m).value + rest) == Ok(Step(m, rest))
  {
    var e0, e1 := EncodeWord(WordMsg(m.subtype, m.flags, m.sequenceId)), U32(m.formatId);
    var e2 := Containers.EncodeBytes(4, m.formatData).value;
    assert EncodeDataRsp(m).value + rest == e0 + (e1 + (e2 + rest));
    HeadRoundTrip(DataRspTy, true, "sequence_id", WordMsg(m.subtype, m.flags, m.sequenceId), e1 + (e2 + rest));
    U32RoundTrip(DataRspTy, "u32", "format_id", m.formatId, e2 + rest);
    Containers.BytesRoundTrip(4, m.formatData, rest);
  }

  // ---------------------------------------------------------------- the meta enum

  /// The subtype each variant carries.
  function VariantType(m: NowClipboardMsg): ClipboardMessageType
  {
    match m
    case CapabilitiesReq(_) => CapabilitiesReqType
    case CapabilitiesRsp(_) => CapabilitiesRspType
    case ControlReq(_) => ControlReqType
    case ControlRsp(_) => ControlRspType
    case SuspendReq(_) => SuspendReqType
    case SuspendRsp(_) => SuspendRspType
    case ResumeReq(_) => ResumeReqType
    case ResumeRsp(_) => ResumeRspType
    case FormatListReq(_) => FormatListReqType
    case FormatListRsp(_) => FormatListRspType
    case FormatDataReq(_) => FormatDataReqType
    case FormatDataRsp(_) => FormatDataRspType
    case FormatDataRspOwned(_) => FormatDataRspType
  }

  /// The subtype field of the struct a variant holds.
  function MessageSubtype(m: NowClipboardMsg): ClipboardMessageType
  {
    match m
    case CapabilitiesReq(s) => s.subtype
    case CapabilitiesRsp(s) => s.subtype
    case ControlReq(s) => s.subtype
    case ControlRsp(s) => s.subtype
    case SuspendReq(s) => s.subtype
    case SuspendRsp(s) => s.subtype
    case ResumeReq(s) => s.subtype
    case ResumeRsp(s) => s.subtype
    case FormatListReq(s) => s.subtype
    case FormatListRsp(s) => s.subtype
    case FormatDataReq(s) => s.subtype
    case FormatDataRsp(s) => s.subtype
    case FormatDataRspOwned(s) => s.subtype
  }

  /// The variant names the derived errors carry.
  function VariantName(t: ClipboardMessageType): string
  {
    match t
    case CapabilitiesReqType => "CapabilitiesReq"
    case CapabilitiesRspType => "CapabilitiesRsp"
    case ControlReqType => "ControlReq"
    case ControlRspType => "ControlRsp"
    case SuspendReqType => "SuspendReq"
    case SuspendRspType => "SuspendRsp"
    case ResumeReqType => "ResumeReq"
    case ResumeRspType => "ResumeRsp"
    case FormatListReqType => "FormatListReq"
    case FormatListRspType => "FormatListRsp"
    case FormatDataReqType => "FormatDataReq"
    case FormatDataRspType => "FormatDataRsp"
  }

  /// The seven subtypes whose struct is a `WordMsg`.
  predicate IsWordType(t: ClipboardMessageType)
  {
    t in {CapabilitiesReqType, CapabilitiesRspType, SuspendReqType, SuspendRspType,
          ResumeReqType, ResumeRspType, FormatListRspType}
  }

  /// The variant of word subtype `t` holding `s`.
  function WordVariant(t: ClipboardMessageType, s: WordMsg): (m: NowClipboardMsg)
    requires IsWordType(t)
    ensures VariantType(m) == t && MessageSubtype(m) == s.subtype
  {
    match t
    case CapabilitiesReqType => CapabilitiesReq(s)
    case CapabilitiesRspType => CapabilitiesRsp(s)
    case SuspendReqType => SuspendReq(s)
    case SuspendRspType => SuspendRsp(s)
    case ResumeReqType => ResumeReq(s)
    case ResumeRspType => ResumeRsp(s)
    case FormatListRspType => FormatListRsp(s)
  }

  /// The variants whose encoding cannot fail: a fixed-size struct each.
  function EncodeFixed(m: NowClipboardMsg): (e: Bytes)
    requires !m.FormatListReq? && !m.FormatDataRsp? && !m.FormatDataRspOwned?
    ensures |e| >= 4 && e[0] == MessageTypeToByte(MessageSubtype(m))
  {
    match m
    case CapabilitiesReq(s) => EncodeWord(s)
    case CapabilitiesRsp(s) => EncodeWord(s)
    case ControlReq(s) => EncodeControl(s)
    case ControlRsp(s) => EncodeControl(s)
    case SuspendReq(s) => EncodeWord(s)
    case SuspendRsp(s) => EncodeWord(s)
    case ResumeReq(s) => EncodeWord(s)
    case ResumeRsp(s) => EncodeWord(s)
    case FormatListRsp(s) => EncodeWord(s)
    case FormatDataReq(s) => EncodeDataReq(s)
  }

  /// The derived meta-enum encoder: the variant's own encoding.
  function Encode(m: NowClipboardMsg): (r: Result<Bytes>)
    ensures r.Ok? ==> |r.value| >= 4 && r.value[0] == MessageTypeToByte(MessageSubtype(m))
    ensures r.Err? ==> (m.FormatListReq? || m.FormatDataRsp? || m.FormatDataRspOwned?)
                       && r.error.kind == Encoding(Ty)
  {
    match m
    case FormatListReq(s) => OutVariant(Ty, "FormatListReq", EncodeFormatList(s))
    case FormatDataRsp(s) => OutVariant(Ty, "FormatDataRsp", EncodeDataRsp(s))
    case FormatDataRspOwned(s) => OutVariant(Ty, "FormatDataRspOwned", EncodeDataRspOwned(s))
    case _ => Ok(EncodeFixed(m))
  }

  /// Only a format list too long or with an unencodable name, or data of
  /// 2^32 bytes or more, fail to encode.
  lemma EncodeFails(m: NowClipboardMsg)
    ensures Encode(m).Err? <==>
              (m.FormatListReq? && !(|m.formatListReq.formats| < 0x100 && FormatsValid(m.formatListReq.formats)))
              || (m.FormatDataRsp? && |m.formatDataRsp.formatData| >= 0x1_0000_0000)
              || (m.FormatDataRspOwned? && |m.formatDataRspOwned.formatData| >= 0x1_0000_0000)
  {
    match m
    case FormatListReq(s) =>
    case FormatDataRsp(s) =>
    case FormatDataRspOwned(s) =>
    case _ =>
  }

  /// The variant of a word subtype.
  function DecodeWordVariant(t: ClipboardMessageType, b: Bytes): (r: Result<Step<NowClipboardMsg>>)
    requires 0 < |b| && MessageTypeToByte(t) == b[0] && IsWordType(t)
    ensures r.Ok? ==> WellFormed(r.value.value) && !r.value.value.FormatDataRspOwned?
  {
    var s :- InVariant(Ty, VariantName(t), DecodeWord(t, b));
    MessageTypeInjective(s.value.subtype, t);
    Ok(Step(WordVariant(t, s.value), s.rest))
  }

  /// The variant of a control subtype.
  function DecodeControlVariant(t: ClipboardMessageType, b: Bytes): (r: Result<Step<NowClipboardMsg>>)
    requires 0 < |b| && MessageTypeToByte(t) == b[0] && t in {ControlReqType, ControlRspType}
    ensures r.Ok? ==> WellFormed(r.value.value) && !r.value.value.FormatDataRspOwned?
  {
    var s :- InVariant(Ty, VariantName(t), DecodeControl(t, b));
    MessageTypeInjective(s.value.subtype, t);
    Ok(Step(if t == ControlReqType then ControlReq(s.value) else ControlRsp(s.value), s.rest))
  }

  /// The variant holding a format-list request of its own subtype.
  function ListVariant(x: FormatListMsg): (m: NowClipboardMsg)
    requires x.subtype == FormatListReqType
    ensures WellFormed(m) && !m.FormatDataRspOwned?
  {
    FormatListReq(x)
  }

  function DecodeListVariant(b: Bytes): (r: Result<Step<NowClipboardMsg>>)
    requires 0 < |b| && MessageTypeToByte(FormatListReqType) == b[0]
    ensures r.Ok? ==> WellFormed(r.value.value) && !r.value.value.FormatDataRspOwned?
  {
    var s :- InVariant(Ty, "FormatListReq", DecodeFormatList(b));
    MessageTypeInjective(s.value.subtype, FormatListReqType);
    Ok(Step(ListVariant(s.value), s.rest))
  }

  function DecodeDataReqVariant(b: Bytes): (r: Result<Step<NowClipboardMsg>>)
    requires 0 < |b| && MessageTypeToByte(FormatDataReqType) == b[0]
    ensures r.Ok? ==> WellFormed(r.value.value) && !r.value.value.FormatDataRspOwned?
  {
    var s :- InVariant(Ty, "FormatDataReq", DecodeDataReq(b));
    MessageTypeInjective(s.value.subtype, FormatDataReqType);
    Ok(Step(FormatDataReq(s.value), s.rest))
  }

  function DecodeDataRspVariant(b: Bytes): (r: Result<Step<NowClipboardMsg>>)
    requires 0 < |b| && MessageTypeToByte(FormatDataRspType) == b[0]
    ensures r.Ok? ==> WellFormed(r.value.value) && !r.value.value.FormatDataRspOwned?
  {
    var s :- InVariant(Ty, "FormatDataRsp", DecodeDataRsp(b));
    MessageTypeInjective(s.value.subtype, FormatDataRspType);
    Ok(Step(FormatDataRsp(s.value), s.rest))
  }

  /// The derived meta-enum decoder: the subtype is peeked, refused when
  /// outside the table, and the variant of that subtype decoded from the
  /// same bytes.
  function Decode(b: Bytes): (r: Result<Step<NowClipboardMsg>>)
    ensures r.Ok? ==> 0 < |b| && 1 <= b[0] <= 12
    ensures r.Ok? ==> WellFormed(r.value.value) && !r.value.value.FormatDataRspOwned?
  {
    var subtype :- MetaSubtype(Ty, DecodeMessageType(b));
    match subtype
    case ControlReqType => DecodeControlVariant(subtype, b)
    case ControlRspType => DecodeControlVariant(subtype, b)
    case FormatListReqType => DecodeListVariant(b)
    case FormatDataReqType => DecodeDataReqVariant(b)
    case FormatDataRspType => DecodeDataRspVariant(b)
    case _ => DecodeWordVariant(subtype, b)
  }

  /// A message whose subtype field names its own variant.
  predicate WellFormed(m: NowClipboardMsg)
  {
    MessageSubtype(m) == VariantType(m)
  }

  lemma DecodeWordWellFormed(b: Bytes)
    requires Decode(b).Ok?
    requires IsWordType(MetaSubtype(Ty, DecodeMessageType(b)).value)
    ensures WellFormed(Decode(b).value.value) && !Decode(b).value.value.FormatDataRspOwned?
  {
    var t := MetaSubtype(Ty, DecodeMessageType(b)).value;
    assert Decode(b) == DecodeWordVariant(t, b);
  }

  lemma DecodeOtherWellFormed(b: Bytes)
    requires Decode(b).Ok?
    requires !IsWordType(MetaSubtype(Ty, DecodeMessageType(b)).value)
    ensures WellFormed(Decode(b).value.value) && !Decode(b).value.value.FormatDataRspOwned?
  {
    var t := MetaSubtype(Ty, DecodeMessageType(b)).value;
    var r := match t
      case ControlReqType => DecodeControlVariant(t, b)
      case ControlRspType => DecodeControlVariant(t, b)
      case FormatListReqType => DecodeListVariant(b)
      case FormatDataReqType => DecodeDataReqVariant(b)
      case FormatDataRspType => DecodeDataRspVariant(b);
    assert Decode(b) == r;
  }

  /// Decoding succeeds only on a listed subtype, never yields the owned
  /// response, and yields a message whose subtype names its variant.
  lemma DecodeWellFormed(b: Bytes)
    ensures Decode(b).Ok? ==> 0 < |b| && 1 <= b[0] <= 12
    ensures Decode(b).Ok? ==> WellFormed(Decode(b).value.value) && !Decode(b).value.value.FormatDataRspOwned?
  {
    if Decode(b).Ok? {
      if IsWordType(MetaSubtype(Ty, DecodeMessageType(b)).value) {
        DecodeWordWellFormed(b);
      } else {
        DecodeOtherWellFormed(b);
      }
    }
  }

  /// What decoding gives back for a message: itself, except that an owned
  /// response comes back as a borrowed one.
  function AsDecoded(m: NowClipboardMsg): NowClipboardMsg
  {
    if m.FormatDataRspOwned? then FormatDataRsp(m.formatDataRspOwned) else m
  }

  lemma SubtypeSelects(t: ClipboardMessageType, e: Bytes, rest: Bytes)
    requires 0 < |e| && e[0] == MessageTypeToByte(t)
    ensures MetaSubtype(Ty, DecodeMessageType(e + rest)) == Ok(t)
  {
    MessageTypeTable(e[0], t);
  }

  /// A word struct decodes back into the variant of its subtype.
  lemma WordVariantRoundTrip(s: WordMsg, rest: Bytes)
    requires IsWordType(s.subtype)
    ensures Decode(EncodeWord(s) + rest) == Ok(Step(WordVariant(s.subtype, s), rest))
  {
    SubtypeSelects(s.subtype, EncodeWord(s), rest);
    HeadRoundTrip(WordTy(s.subtype), IsResponse(s.subtype), WordField(s.subtype), s, rest);
  }

  lemma ControlVariantRoundTrip(m: NowClipboardMsg, rest: Bytes)
    requires WellFormed(m) && (m.ControlReq? || m.ControlRsp?)
    ensures Encode(m).Ok? && Decode(Encode(m).value + rest) == Ok(Step(m, rest))
  {
    var s := if m.ControlReq? then m.controlReq else m.controlRsp;
    SubtypeSelects(s.subtype, EncodeControl(s), rest);
    ControlRoundTrip(s.subtype, s, rest);
  }

  lemma ListVariantRoundTrip(s: FormatListMsg, rest: Bytes)
    requires s.subtype == FormatListReqType && EncodeFormatList(s).Ok?
    ensures Decode(EncodeFormatList(s).value + rest) == Ok(Step(FormatListReq(s), rest))
  {
    SubtypeSelects(s.subtype, EncodeFormatList(s).value, rest);
    FormatListRoundTrip(s, rest);
  }

  lemma DataReqVariantRoundTrip(s: DataReqMsg, rest: Bytes)
    requires s.subtype == FormatDataReqType
    ensures Decode(EncodeDataReq(s) + rest) == Ok(Step(FormatDataReq(s), rest))
  {
    SubtypeSelects(s.subtype, EncodeDataReq(s), rest);
    DataReqRoundTrip(s, rest);
  }

  lemma DataRspVariantRoundTrip(s: DataRspMsg, rest: Bytes)
    requires s.subtype == FormatDataRspType && EncodeDataRsp(s).Ok?
    ensures Decode(EncodeDataRsp(s).value + rest) == Ok(Step(FormatDataRsp(s), rest))
  {
    SubtypeSelects(s.subtype, EncodeDataRsp(s).value, rest);
    DataRspRoundTrip(s, rest);
  }

  lemma WordMessageRoundTrip(m: NowClipboardMsg, rest: Bytes)
    requires WellFormed(m) && IsWordType(VariantType(m))
    ensures Encode(m).Ok? && Decode(Encode(m).value + rest) == Ok(Step(m, rest))
  {
    match m
    case CapabilitiesReq(s) => WordVariantRoundTrip(s, rest);
    case CapabilitiesRsp(s) => WordVariantRoundTrip(s, rest);
    case SuspendReq(s) => WordVariantRoundTrip(s, rest);
    case SuspendRsp(s) => WordVariantRoundTrip(s, rest);
    case ResumeReq(s) => WordVariantRoundTrip(s, rest);
    case ResumeRsp(s) => WordVariantRoundTrip(s, rest);
    case FormatListRsp(s) => WordVariantRoundTrip(s, rest);
  }

  lemma OtherMessageRoundTrip(m: NowClipboardMsg, rest: Bytes)
    requires WellFormed(m) && !IsWordType(VariantType(m)) && Encode(m).Ok?
    ensures Decode(Encode(m).value + rest) == Ok(Step(AsDecoded(m), rest))
  {
    match m
    case ControlReq(s) => ControlVariantRoundTrip(m, rest);
    case ControlRsp(s) => ControlVariantRoundTrip(m, rest);
    case FormatListReq(s) => ListVariantRoundTrip(s, rest);
    case FormatDataReq(s) => DataReqVariantRoundTrip(s, rest);
    case FormatDataRsp(s) => DataRspVariantRoundTrip(s, rest);
    case FormatDataRspOwned(s) => OwnedSameWire(s); DataRspVariantRoundTrip(s, rest);
  }

  /// Decoding an encoded well-formed message gives it back (an owned
  /// response as the borrowed one with the same fields) and leaves what
  /// follows it unread.
  lemma RoundTrip(m: NowClipboardMsg, rest: Bytes)
    requires WellFormed(m) && Encode(m).Ok?
    ensures Decode(Encode(m).value + rest) == Ok(Step(AsDecoded(m), rest))
  {
    if IsWordType(VariantType(m)) {
      WordMessageRoundTrip(m, rest);
    } else {
      OtherMessageRoundTrip(m, rest);
    }
  }

  /// A subtype byte outside 1 to 12 is refused before any variant is read.
  lemma UnknownSubtypeRefused(b: Bytes)
    requires 0 < |b| && (b[0] == 0 || b[0] > 12)
    ensures Decode(b) == Err(ProtoError(Decoding(Ty), Some(Plain("couldn't decode subtype")),
                                        Some(FromKind(Decoding("ClipboardMessageType")))))
  {
  }

  // ---------------------------------------------------------------- test vectors

  /// The capabilities request's body in `NOW_CLIPBOARD_CAPS_REQ_WITH_HEADER`.
  const CapabilitiesReqBytes: Bytes := [0x01, 0x00, 0x00, 0x00]

  /// `CLIPBOARD_CONTROL_RSP`
  const ControlRspBytes: Bytes := [0x04, 0x00, 0x01, 0x00]

  lemma CapabilitiesReqVector()
    ensures Encode(CapabilitiesReq(NewWordMsg(CapabilitiesReqType, 0))) == Ok(CapabilitiesReqBytes)
    ensures Decode(CapabilitiesReqBytes) == Ok(Step(CapabilitiesReq(NewWordMsg(CapabilitiesReqType, 0)), []))
  {
    ZeroEncodings();
    var m := CapabilitiesReq(NewWordMsg(CapabilitiesReqType, 0));
    assert EncodeWord(m.capabilitiesReq) == [1] + [0] + [0, 0] == CapabilitiesReqBytes;
    RoundTrip(m, []);
    assert CapabilitiesReqBytes + [] == CapabilitiesReqBytes;
  }

  /// The control response of `Auto`, with no flag.
  lemma ControlRspVector()
    ensures Encode(ControlRsp(NewControlRsp(Auto, 0))) == Ok(ControlRspBytes)
    ensures Decode(ControlRspBytes) == Ok(Step(ControlRsp(NewControlRsp(Auto, 0)), []))
  {
    Pow256Widths();
    var m := ControlRsp(NewControlRsp(Auto, 0));
    LeBytesOfLeValue(U16(1));
    assert U16(1) == [1, 0];
    assert EncodeControl(m.controlRsp) == [4] + [0] + [1, 0] == ControlRspBytes;
    RoundTrip(m, []);
    assert ControlRspBytes + [] == ControlRspBytes;
  }
}
