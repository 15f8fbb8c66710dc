/// `NowAssociateMsg`: the session association exchange (info, request,
/// response), a meta enum on a one-byte subtype with a fallback variant
/// that keeps the undecoded rest of the buffer.
module Associate {
  import opened Wire
  import opened Errors
  import opened Derived
  import Flags
  import Status

  const Ty := "NowAssociateMsg"
  const InfoTy := "NowAssociateInfoMsg"
  const RequestTy := "NowAssociateRequestMsg"
  const ResponseTy := "NowAssociateResponseMsg"

  /// `AssociateMessageType`, with its fallback `Other(v)`.
  datatype AssociateMessageType = InfoSubtype | RequestSubtype | ResponseSubtype | OtherSubtype(value: u8)

  function SubtypeFromByte(v: u8): (t: AssociateMessageType)
    ensures t.OtherSubtype? <==> v !in {1, 2, 3}
    ensures t.OtherSubtype? ==> t.value == v
  {
    match v
    case 1 => InfoSubtype
    case 2 => RequestSubtype
    case 3 => ResponseSubtype
    case _ => OtherSubtype(v)
  }

  function SubtypeToByte(t: AssociateMessageType): u8
  {
    match t
    case InfoSubtype => 1
    case RequestSubtype => 2
    case ResponseSubtype => 3
    case OtherSubtype(v) => v
  }

  /// `OtherSubtype(v)` only stands for a value outside the table.
  predicate CanonicalSubtype(t: AssociateMessageType)
  {
    t.OtherSubtype? ==> t.value !in {1, 2, 3}
  }

  /// The two directions of the subtype table.
  lemma SubtypeTable(v: u8, t: AssociateMessageType)
    ensures CanonicalSubtype(SubtypeFromByte(v)) && SubtypeToByte(SubtypeFromByte(v)) == v
    ensures CanonicalSubtype(t) ==> SubtypeFromByte(SubtypeToByte(t)) == t
  {
  }

  /// `AssociateInfoFlags`
  const Active: Flags.Word := 0x0001
  const InfoFailure: Flags.Word := 0x8000
  /// `AssociateRequestFlags`
  const Force: Flags.Word := 0x0001
  const RequestFailure: Flags.Word := 0x8000
  /// `AssociateResponseFlags`
  const ResponseFailure: Flags.Word := 0x8000

  /// The layout `NowAssociateInfoMsg` and `NowAssociateRequestMsg` share:
  /// they differ only in their names and their flags' names.
  datatype SessionMsg = SessionMsg(subtype: AssociateMessageType, reserved: u8, flags: u16, sessionId: u32)

  /// `NowAssociateResponseMsg`: the same four leading fields, then a status.
  datatype NowAssociateResponseMsg = NowAssociateResponseMsg(head: SessionMsg, status: Status.NowStatus)

  datatype NowAssociateMsg =
    | Info(info: SessionMsg)
    | Request(request: SessionMsg)
    | Response(response: NowAssociateResponseMsg)
    | Custom(payload: Bytes)

  // ---------------------------------------------------------------- constructors

  /// `NowAssociateInfoMsg::new_with_session_id` (and `new`, with session 0).
  function NewInfo(flags: u16, sessionId: u32): (m: SessionMsg)
    ensures m.subtype == InfoSubtype && m.reserved == 0 && m.flags == flags && m.sessionId == sessionId
  {
    SessionMsg(InfoSubtype, 0, flags, sessionId)
  }

  /// `NowAssociateRequestMsg::new_with_session_id` (and `new`, with session 0).
  function NewRequest(flags: u16, sessionId: u32): (m: SessionMsg)
    ensures m.subtype == RequestSubtype && m.reserved == 0 && m.flags == flags && m.sessionId == sessionId
  {
    SessionMsg(RequestSubtype, 0, flags, sessionId)
  }

  /// `NowAssociateResponseMsg::new_with_session_id` (and `new`, with session 0).
  function NewResponse(flags: u16, status: Status.NowStatus, sessionId: u32): (m: NowAssociateResponseMsg)
    ensures m.head.subtype == ResponseSubtype && m.head.reserved == 0 && m.head.flags == flags
    ensures m.head.sessionId == sessionId && m.status == status
  {
    NowAssociateResponseMsg(SessionMsg(ResponseSubtype, 0, flags, sessionId), status)
  }

  /// `new_info`, `new_request`, `new_response`: no flag, session 0.
  const InfoMsg := Info(NewInfo(0, 0))
  const RequestMsg := Request(NewRequest(0, 0))
  const ResponseMsg := Response(NewResponse(0, Status.DefaultStatus, 0))

  /// `new_response_with_status`
  function NewResponseWithStatus(status: Status.NowStatus): (m: NowAssociateMsg)
    ensures m.Response? && m.response == NewResponse(0, status, 0)
  {
    Response(NewResponse(0, status, 0))
  }

  // ---------------------------------------------------------------- structs

  function EncodeSession(m: SessionMsg): (e: Bytes)
    ensures |e| == 8 && e[0] == SubtypeToByte(m.subtype)
  {
    U8(SubtypeToByte(m.subtype)) + U8(m.reserved) + U16(m.flags) + U32(m.sessionId)
  }

  /// A struct's subtype field: a byte through the subtype table, which
  /// never refuses one.
  function SubtypeField(structTy: string, b: Bytes): (r: Result<Step<AssociateMessageType>>)
    ensures r.Ok? <==> 0 < |b|
    ensures r.Ok? ==> r.value == Step(SubtypeFromByte(b[0]), b[1..])
  {
    var x :- U8Field(structTy, "AssociateMessageType", "subtype", b);
    U8FieldReads(structTy, "AssociateMessageType", "subtype", b);
    Ok(Step(SubtypeFromByte(x.value), x.rest))
  }

  /// The derived decoder of the shared layout under the struct's and its
  /// flags' names; the subtype read is not checked against the struct.
  function DecodeSession(structTy: string, flagsTy: string, b: Bytes): (r: Result<Step<SessionMsg>>)
    ensures r.Ok? <==> 8 <= |b|
    ensures r.Ok? ==> r.value.rest == b[8..] && CanonicalSubtype(r.value.value.subtype)
                      && r.value.value.subtype == SubtypeFromByte(b[0])
  {
    var subtype :- SubtypeField(structTy, b);
    var reserved :- U8Field(structTy, "u8", "reserved", subtype.rest);
    var flags :- Flags16Field(structTy, flagsTy, "flags", reserved.rest);
    var sessionId :- U32Field(structTy, "u32", "session_id", flags.rest);
    SubtypeTable(b[0], subtype.value);
    Ok(Step(SessionMsg(subtype.value, reserved.value, flags.value, sessionId.value), sessionId.rest))
  }

  /// What the shared layout's decoder reads is the encoding of what it
  /// returns.
  lemma SessionReadsEncoding(structTy: string, flagsTy: string, b: Bytes)
    requires 8 <= |b|
    ensures EncodeSession(DecodeSession(structTy, flagsTy, b).value.value) == b[..8]
  {
    var m := DecodeSession(structTy, flagsTy, b).value.value;
    FieldsReadEncodings(structTy, "u8", "reserved", b[1..], 1);
    FieldsReadEncodings(structTy, flagsTy, "flags", b[2..], 2);
    FieldsReadEncodings(structTy, "u32", "session_id", b[4..], 4);
    SubtypeTable(b[0], m.subtype);
    assert b[1..][1..] == b[2..] && b[2..][2..] == b[4..];
    assert b[..8] == [b[0]] + b[1..][..1] + b[2..][..2] + b[4..][..4];
  }

  lemma SessionRoundTrip(structTy: string, flagsTy: string, m: SessionMsg, rest: Bytes)
    requires CanonicalSubtype(m.subtype)
    ensures DecodeSession(structTy, flagsTy, EncodeSession(m) + rest) == Ok(Step(m, rest))
  {
    var e0, e1, e2, e3 := U8(SubtypeToByte(m.subtype)), U8(m.reserved), U16(m.flags), U32(m.sessionId);
    assert EncodeSession(m) + rest == e0 + (e1 + (e2 + (e3 + rest)));
    SubtypeTable(SubtypeToByte(m.subtype), m.subtype);
    U8RoundTrip(structTy, "AssociateMessageType", "subtype", SubtypeToByte(m.subtype), e1 + (e2 + (e3 + rest)));
    U8RoundTrip(structTy, "u8", "reserved", m.reserved, e2 + (e3 + rest));
    U16RoundTrip(structTy, flagsTy, "flags", m.flags, e3 + rest);
    U32RoundTrip(structTy, "u32", "session_id", m.sessionId, rest);
  }

  function EncodeResponse(m: NowAssociateResponseMsg): (e: Bytes)
    ensures |e| == 12 && e[0] == SubtypeToByte(m.head.subtype)
  {
    EncodeSession(m.head) + Status.Encode(m.status)
  }

  /// The derived decoder: the leading fields under the response's names,
  /// then the status.
  function DecodeResponse(b: Bytes): (r: Result<Step<NowAssociateResponseMsg>>)
    ensures r.Ok? <==> 12 <= |b|
    ensures r.Ok? ==> r.value.rest == b[12..] && CanonicalSubtype(r.value.value.head.subtype)
                      && Status.Consistent(r.value.value.status)
  {
    var head :- DecodeSession(ResponseTy, "AssociateResponseFlags", b);
    var status :- InField(ResponseTy, "NowStatus < AssociateStatusCode >", "status", Status.Decode(head.rest));
    Ok(Step(NowAssociateResponseMsg(head.value, status.value), status.rest))
  }

  /// What the response's decoder reads is the encoding of what it returns.
  lemma ResponseReadsEncoding(b: Bytes)
    requires 12 <= |b|
    ensures EncodeResponse(DecodeResponse(b).value.value) == b[..12]
  {
    SessionReadsEncoding(ResponseTy, "AssociateResponseFlags", b);
    assert b[..12] == b[..8] + b[8..][..4];
  }

  lemma ResponseRoundTrip(m: NowAssociateResponseMsg, rest: Bytes)
    requires CanonicalSubtype(m.head.subtype) && Status.Consistent(m.status)
    ensures DecodeResponse(EncodeResponse(m) + rest) == Ok(Step(m, rest))
  {
    assert EncodeResponse(m) + rest == EncodeSession(m.head) + (Status.Encode(m.status) + rest);
    SessionRoundTrip(ResponseTy, "AssociateResponseFlags", m.head, Status.Encode(m.status) + rest);
    Status.RoundTrip(m.status, rest);
  }

  // ---------------------------------------------------------------- meta enum

  /// The derived meta-enum encoder; no variant can fail, and the fallback
  /// writes its bytes as they are.
  function Encode(m: NowAssociateMsg): (e: Bytes)
    ensures m.Custom? ==> e == m.payload
    ensures !m.Custom? ==> |e| >= 8
  {
    match m
    case Info(s) => EncodeSession(s)
    case Request(s) => EncodeSession(s)
    case Response(s) => EncodeResponse(s)
    case Custom(payload) => payload
  }

  /// The derived meta-enum decoder: the subtype is peeked; a listed subtype
  /// decodes its variant from the same bytes, any other keeps all of them
  /// and leaves them unread.
  function Decode(b: Bytes): (r: Result<Step<NowAssociateMsg>>)
    ensures r.Ok? ==> 0 < |b|
    ensures r.Ok? && r.value.value.Custom? ==> r.value == Step(Custom(b), b) && b[0] !in {1, 2, 3}
    ensures 0 < |b| && b[0] !in {1, 2, 3} ==> r == Ok(Step(Custom(b), b))
  {
    var raw :- Subtype(Ty, 1, b);
    assert raw == b[0] by { assert b[..1] == [b[0]]; }
    match SubtypeFromByte(raw)
    case InfoSubtype =>
      var s :- InVariant(Ty, "Info", DecodeSession(InfoTy, "AssociateInfoFlags", b));
      Ok(Step(Info(s.value), s.rest))
    case RequestSubtype =>
      var s :- InVariant(Ty, "Request", DecodeSession(RequestTy, "AssociateRequestFlags", b));
      Ok(Step(Request(s.value), s.rest))
    case ResponseSubtype =>
      var s :- InVariant(Ty, "Response", DecodeResponse(b));
      Ok(Step(Response(s.value), s.rest))
    case OtherSubtype(_) =>
      var all := Rest(b);
      Ok(Step(Custom(all.value), all.rest))
  }

  /// A message whose subtype field names its own variant, with a status
  /// `try_from` would produce; a custom payload starts with an unlisted
  /// subtype.
  predicate WellFormed(m: NowAssociateMsg)
  {
    match m
    case Info(s) => s.subtype == InfoSubtype
    case Request(s) => s.subtype == RequestSubtype
    case Response(s) => s.head.subtype == ResponseSubtype && Status.Consistent(s.status)
    case Custom(payload) => |payload| > 0 && payload[0] !in {1, 2, 3}
  }

  /// Whatever decodes is well formed: the variant chosen is the one its
  /// subtype names.
  lemma DecodedIsWellFormed(b: Bytes)
    requires Decode(b).Ok?
    ensures WellFormed(Decode(b).value.value)
  {
    assert b[..1] == [b[0]];
  }

  /// Decoding an encoded well-formed message gives it back and leaves what
  /// follows it unread; a custom message takes every byte after it too and
  /// leaves them all unread, so it comes back only when nothing follows it.
  lemma RoundTrip(m: NowAssociateMsg, rest: Bytes)
    requires WellFormed(m)
    requires m.Custom? ==> rest == []
    ensures m.Custom? ==> Decode(Encode(m)) == Ok(Step(m, m.payload))
    ensures !m.Custom? ==> Decode(Encode(m) + rest) == Ok(Step(m, rest))
  {
    match m
    case Info(s) =>
      assert (Encode(m) + rest)[..1] == [1];
      SessionRoundTrip(InfoTy, "AssociateInfoFlags", s, rest);
    case Request(s) =>
      assert (Encode(m) + rest)[..1] == [2];
      SessionRoundTrip(RequestTy, "AssociateRequestFlags", s, rest);
    case Response(s) =>
      assert (Encode(m) + rest)[..1] == [3];
      ResponseRoundTrip(s, rest);
    case Custom(payload) =>
      assert payload[..1] == [payload[0]];
  }

  /// A buffer holding exactly one encoded well-formed message decodes to it.
  lemma DecodesOwnEncoding(m: NowAssociateMsg)
    requires WellFormed(m) && !m.Custom?
    ensures Decode(Encode(m)) == Ok(Step(m, []))
  {
    RoundTrip(m, []);
    assert Encode(m) + [] == Encode(m);
  }

  // ---------------------------------------------------------------- vectors

  /// `ASSOCIATE_MSG_INFO`, `ASSOCIATE_MSG_REQUEST`, `ASSOCIATE_MSG_RESPONSE`
  const InfoBytes: Bytes := [0x01] + [0x00] + [0x00, 0x00] + [0x00, 0x00, 0x00, 0x00]
  const RequestBytes: Bytes := [0x02] + [0x00] + [0x00, 0x00] + [0x00, 0x00, 0x00, 0x00]
  const ResponseBytes: Bytes := [0x03] + [0x00] + [0x00, 0x00] + [0x00, 0x00, 0x00, 0x00] + [0x00, 0x00, 0x00, 0x00]

  /// The default info encodes to its vector, which decodes back to it.
  lemma InfoVector()
    ensures Encode(InfoMsg) == InfoBytes && Decode(InfoBytes) == Ok(Step(InfoMsg, []))
  {
    ZeroEncodings();
    assert EncodeSession(InfoMsg.info) == InfoBytes;
    DecodesOwnEncoding(InfoMsg);
  }

  lemma RequestVector()
    ensures Encode(RequestMsg) == RequestBytes && Decode(RequestBytes) == Ok(Step(RequestMsg, []))
  {
    ZeroEncodings();
    assert EncodeSession(RequestMsg.request) == RequestBytes;
    DecodesOwnEncoding(RequestMsg);
  }

  /// A response with the default's fields, as `new_response` builds it,
  /// encodes to the test bytes, which decode back to it.
  lemma ResponseVector(m: NowAssociateMsg)
    requires m.Response? && m.response.head == NewResponse(0, m.response.status, 0).head
    requires m.response.status == Status.NowStatus(0, Status.Info, Status.NoType, 0)
    ensures Encode(m) == ResponseBytes
    ensures Decode(ResponseBytes) == Ok(Step(m, []))
  {
    assert Encode(m) == EncodeResponse(m.response);
    assert EncodeResponse(m.response) == ResponseBytes by { ZeroEncodings(); }
    assert WellFormed(m) by { Status.DefaultIsZero(); }
    DecodesOwnEncoding(m);
  }

  /// `new_response` has the default's fields.
  lemma DefaultResponseFields()
    ensures ResponseMsg.response.head == NewResponse(0, ResponseMsg.response.status, 0).head
    ensures ResponseMsg.response.status == Status.NowStatus(0, Status.Info, Status.NoType, 0)
  {
    Status.DefaultIsZero();
  }

  /// The info struct's decoder reads a request's bytes without complaint:
  /// the subtype it keeps is the request's.
  lemma InfoDecoderKeepsForeignSubtype()
    ensures DecodeSession(InfoTy, "AssociateInfoFlags", RequestBytes) == Ok(Step(NewRequest(0, 0), []))
  {
    ZeroEncodings();
    assert EncodeSession(NewRequest(0, 0)) + [] == RequestBytes;
    SessionRoundTrip(InfoTy, "AssociateInfoFlags", NewRequest(0, 0), []);
  }
}
