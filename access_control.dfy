/// `NowAccessMsg`: access-control requests, responses and notifications,
/// a meta enum on a one-byte subtype over three six-byte structs that share
/// one layout: subtype, flags, the access code, and a last 16-bit word
/// (the request's timeout, the response's reason, the notification's
/// status).
module AccessControl {
  import opened Wire
  import opened Errors
  import opened Derived
  import Flags
  import Layout
  import Capsets

  const Ty := "NowAccessMsg"
  const ReqTy := "NowAcessControlReq"
  const RspTy := "NowAcessControlRsp"
  const NtfTy := "NowAcessControlNtf"

  /// `AccessControlFlags`
  const Failure: Flags.Word := 0x80

  /// `AccessReason`: `disabled` is the union of the other two masks.
  const Denied: Flags.Word := 0x0001
  const Timeout: Flags.Word := 0x0002
  const Disabled: Flags.Word := 0x0003

  /// `AccessControlMessageType`, with its fallback `Other(v)`.
  datatype AccessControlMessageType = ReqSubtype | RspSubtype | NtfSubtype | Other(value: u8)

  function MessageTypeFromU8(v: u8): (t: AccessControlMessageType)
    ensures t.Other? <==> !(1 <= v <= 3)
    ensures t.Other? ==> t.value == v
  {
    match v
    case 1 => ReqSubtype
    case 2 => RspSubtype
    case 3 => NtfSubtype
    case _ => Other(v)
  }

  function MessageTypeToU8(t: AccessControlMessageType): u8
  {
    match t
    case ReqSubtype => 1
    case RspSubtype => 2
    case NtfSubtype => 3
    case Other(v) => v
  }

  /// `Other(v)` only stands for a value outside the table.
  predicate MessageTypeCanonical(t: AccessControlMessageType)
  {
    t.Other? ==> !(1 <= t.value <= 3)
  }

  /// The two directions of the subtype table.
  lemma MessageTypeTable(t: AccessControlMessageType)
    ensures forall v: u8 :: MessageTypeCanonical(MessageTypeFromU8(v)) && MessageTypeToU8(MessageTypeFromU8(v)) == v
    ensures MessageTypeCanonical(t) ==> MessageTypeFromU8(MessageTypeToU8(t)) == t
  {
  }

  /// `disabled()` holds exactly when `denied()` or `timeout()` does: its
  /// mask is the union of theirs, and a query asks for any of its bits.
  lemma DisabledOverlaps(reason: u16)
    ensures Flags.Has(reason, Disabled) <==> Flags.Has(reason, Denied) || Flags.Has(reason, Timeout)
  {
    Flags.HasLowTwoBits(reason);
  }

  // ---------------------------------------------------------------- the shared layout

  /// The three structs' fields: only the last one's name and type differ.
  function FieldsOf(last: string, lastTy: string, lastIsFlags: bool): seq<Layout.Field>
  {
    [Layout.UInt("subtype", "AccessControlMessageType", 1), Layout.FlagsOf("flags", "AccessControlFlags", 1),
     Layout.UInt("id", "AccessControlCode", 2), Layout.Field(last, lastTy, 2, lastIsFlags)]
  }

  const ReqFields := FieldsOf("timeout", "u16", false)
  const RspFields := FieldsOf("reason", "AccessReason", true)
  const NtfFields := FieldsOf("status", "AccessFlags", true)

  /// One of the three structs: subtype, flags, access code, last word.
  datatype AccessBody = AccessBody(subtype: AccessControlMessageType, flags: u8, id: Capsets.AccessControlCode, word: u16)

  /// `NowAcessControlReq::new`: its own subtype and no flags.
  function NewReq(id: Capsets.AccessControlCode, timeout: u16): (m: AccessBody)
    ensures m.subtype == ReqSubtype && m.flags == 0 && m.id == id && m.word == timeout
  {
    AccessBody(ReqSubtype, 0, id, timeout)
  }

  /// Four values within the fields' widths.
  predicate ValuesFit(vs: seq<nat>)
  {
    |vs| == 4 && vs[0] < 0x100 && vs[1] < 0x100 && vs[2] < 0x1_0000 && vs[3] < 0x1_0000
  }

  predicate AccessLayout(fs: seq<Layout.Field>)
  {
    fs in {ReqFields, RspFields, NtfFields}
  }

  lemma ValuesFitLayout(fs: seq<Layout.Field>, vs: seq<nat>)
    requires AccessLayout(fs)
    ensures Layout.Fits(fs, vs) <==> ValuesFit(vs)
  {
    Pow256Widths();
  }

  function Values(m: AccessBody): (vs: seq<nat>)
    ensures ValuesFit(vs)
  {
    [MessageTypeToU8(m.subtype), m.flags, Capsets.AccessToU16(m.id), m.word]
  }

  /// A struct's bytes under its own field list; the field names and types
  /// only ever reach the errors, so every list writes the same six bytes.
  function EncodeBody(fs: seq<Layout.Field>, m: AccessBody): (e: Bytes)
    requires AccessLayout(fs)
    ensures |e| == 6
  {
    ValuesFitLayout(fs, Values(m));
    Layout.Encode(fs, Values(m))
  }

  function BodyOf(vs: seq<nat>): (m: AccessBody)
    requires ValuesFit(vs)
    ensures MessageTypeCanonical(m.subtype) && Capsets.AccessCanonical(m.id) && Values(m) == vs
  {
    MessageTypeTable(MessageTypeFromU8(vs[0]));
    AccessBody(MessageTypeFromU8(vs[0]), vs[1], Capsets.AccessFromU16(vs[2]), vs[3])
  }

  /// The derived decoder of one of the structs: six bytes, and what it
  /// reads is the encoding of what it returns; the subtype read is not
  /// checked against the struct.
  function DecodeBody(ty: string, fs: seq<Layout.Field>, b: Bytes): (r: Result<Step<AccessBody>>)
    requires AccessLayout(fs)
    ensures r.Ok? <==> 6 <= |b|
    ensures r.Ok? ==> r.value.rest == b[6..] && EncodeBody(fs, r.value.value) == b[..6]
                      && MessageTypeCanonical(r.value.value.subtype) && Capsets.AccessCanonical(r.value.value.id)
    ensures r.Err? ==> r.error.kind == Decoding(ty)
  {
    var x :- Layout.Decode(ty, fs, b);
    ValuesFitLayout(fs, x.value);
    Ok(Step(BodyOf(x.value), x.rest))
  }

  /// The subtype is the first byte written.
  lemma FirstByte(fs: seq<Layout.Field>, m: AccessBody, rest: Bytes)
    requires AccessLayout(fs)
    ensures (EncodeBody(fs, m) + rest)[..1] == [MessageTypeToU8(m.subtype)]
  {
    ValuesFitLayout(fs, Values(m));
    Layout.FirstByte(fs, Values(m));
  }

  /// The subtype a struct decodes is the first byte it reads.
  lemma DecodedSubtype(ty: string, fs: seq<Layout.Field>, b: Bytes)
    requires AccessLayout(fs) && DecodeBody(ty, fs, b).Ok?
    ensures MessageTypeToU8(DecodeBody(ty, fs, b).value.value.subtype) == b[0]
  {
    var vs := Layout.Decode(ty, fs, b).value.value;
    ValuesFitLayout(fs, vs);
    Layout.FirstByte(fs, vs);
    MessageTypeTable(MessageTypeFromU8(vs[0]));
  }

  lemma BodyRoundTrip(ty: string, fs: seq<Layout.Field>, m: AccessBody, rest: Bytes)
    requires AccessLayout(fs)
    requires MessageTypeCanonical(m.subtype) && Capsets.AccessCanonical(m.id)
    ensures DecodeBody(ty, fs, EncodeBody(fs, m) + rest) == Ok(Step(m, rest))
  {
    Layout.RoundTrip(ty, fs, Values(m), rest);
    MessageTypeTable(m.subtype);
    Capsets.AccessTable(m.id);
  }

  // ---------------------------------------------------------------- meta enum

  datatype NowAccessMsg = Req(req: AccessBody) | Rsp(rsp: AccessBody) | Ntf(ntf: AccessBody)

  /// A message whose subtype field names its own variant, with an access
  /// code the table would produce.
  predicate WellFormed(m: NowAccessMsg)
  {
    match m
    case Req(r) => r.subtype == ReqSubtype && Capsets.AccessCanonical(r.id)
    case Rsp(r) => r.subtype == RspSubtype && Capsets.AccessCanonical(r.id)
    case Ntf(r) => r.subtype == NtfSubtype && Capsets.AccessCanonical(r.id)
  }

  /// The derived meta-enum encoder: the variant's struct.
  function Encode(m: NowAccessMsg): (e: Bytes)
    ensures |e| == 6
  {
    match m
    case Req(r) => EncodeBody(ReqFields, r)
    case Rsp(r) => EncodeBody(RspFields, r)
    case Ntf(r) => EncodeBody(NtfFields, r)
  }

  /// The derived meta-enum decoder: the subtype is peeked and the struct
  /// it names decoded from the same bytes; the enum has no fallback
  /// variant, so any other subtype is refused.
  function Decode(b: Bytes): (r: Result<Step<NowAccessMsg>>)
    ensures r.Ok? ==> 6 <= |b| && 1 <= b[0] <= 3 && r.value.rest == b[6..] && WellFormed(r.value.value)
    ensures 0 < |b| && !(1 <= b[0] <= 3) ==> r == Err(Unlisted(Ty))
  {
    var raw :- Subtype(Ty, 1, b);
    assert raw == b[0] by { assert b[..1] == [b[0]]; }
    match MessageTypeFromU8(raw)
    case ReqSubtype =>
      var x :- InVariant(Ty, "Req", DecodeBody(ReqTy, ReqFields, b));
      assert x.value.subtype == ReqSubtype by { DecodedSubtype(ReqTy, ReqFields, b); }
      Ok(Step(Req(x.value), x.rest))
    case RspSubtype =>
      var x :- InVariant(Ty, "Rsp", DecodeBody(RspTy, RspFields, b));
      assert x.value.subtype == RspSubtype by { DecodedSubtype(RspTy, RspFields, b); }
      Ok(Step(Rsp(x.value), x.rest))
    case NtfSubtype =>
      var x :- InVariant(Ty, "Ntf", DecodeBody(NtfTy, NtfFields, b));
      assert x.value.subtype == NtfSubtype by { DecodedSubtype(NtfTy, NtfFields, b); }
      Ok(Step(Ntf(x.value), x.rest))
    case Other(_) => Err(Unlisted(Ty))
  }

  /// Decoding an encoded well-formed message gives it back and leaves what
  /// follows it unread.
  lemma ReqReadsBack(r: AccessBody, rest: Bytes)
    requires WellFormed(Req(r))
    ensures Decode(EncodeBody(ReqFields, r) + rest) == Ok(Step(Req(r), rest))
  {
    FirstByte(ReqFields, r, rest);
    BodyRoundTrip(ReqTy, ReqFields, r, rest);
  }

  lemma RspReadsBack(r: AccessBody, rest: Bytes)
    requires WellFormed(Rsp(r))
    ensures Decode(EncodeBody(RspFields, r) + rest) == Ok(Step(Rsp(r), rest))
  {
    FirstByte(RspFields, r, rest);
    BodyRoundTrip(RspTy, RspFields, r, rest);
  }

  lemma NtfReadsBack(r: AccessBody, rest: Bytes)
    requires WellFormed(Ntf(r))
    ensures Decode(EncodeBody(NtfFields, r) + rest) == Ok(Step(Ntf(r), rest))
  {
    FirstByte(NtfFields, r, rest);
    BodyRoundTrip(NtfTy, NtfFields, r, rest);
  }

  /// Decoding an encoded well-formed message gives it back and leaves what
  /// follows it unread.
  lemma RoundTrip(m: NowAccessMsg, rest: Bytes)
    requires WellFormed(m)
    ensures Decode(Encode(m) + rest) == Ok(Step(m, rest))
  {
    match m
    case Req(r) => ReqReadsBack(r, rest);
    case Rsp(r) => RspReadsBack(r, rest);
    case Ntf(r) => NtfReadsBack(r, rest);
  }

  // ---------------------------------------------------------------- vectors

  /// `ACCESS_CONTROL_REQ_MSG`, `ACCESS_CONTROL_RSP_MSG`, `ACCESS_CONTROL_NTF_MSG`
  const ReqBytes: Bytes := [0x01, 0x00, 0x06, 0x00, 0x1e, 0x00]
  const RspBytes: Bytes := [0x02, 0x80, 0x06, 0x00, 0x02, 0x00]
  const NtfBytes: Bytes := [0x03, 0x00, 0x03, 0x00, 0x01, 0x00]

  /// A six-byte vector is a message's encoding exactly when it decodes to
  /// that message.
  lemma VectorOf(m: NowAccessMsg, bytes: Bytes)
    requires WellFormed(m) && Encode(m) == bytes
    ensures Decode(bytes) == Ok(Step(m, []))
  {
    RoundTrip(m, []);
    assert bytes + [] == bytes;
  }

  /// The six bytes of a struct: each field little-endian at its width.
  lemma BodyBytes(fs: seq<Layout.Field>, m: AccessBody)
    requires AccessLayout(fs)
    ensures EncodeBody(fs, m) == U8(MessageTypeToU8(m.subtype)) + U8(m.flags) + U16(Capsets.AccessToU16(m.id)) + U16(m.word)
  {
    var vs := Values(m);
    ValuesFitLayout(fs, vs);
    Layout.EncodeCons(fs, vs);
    Layout.EncodeCons(fs[1..], vs[1..]);
    Layout.EncodeCons(fs[1..][1..], vs[1..][1..]);
    Layout.EncodeCons(fs[1..][1..][1..], vs[1..][1..][1..]);
  }

  /// A chat request with a 30-second timeout, as `new` builds it, encodes
  /// to the request vector, which decodes back to it.
  lemma ReqVector()
    ensures Encode(Req(NewReq(Capsets.Chat, 30))) == ReqBytes
    ensures Decode(ReqBytes) == Ok(Step(Req(NewReq(Capsets.Chat, 30)), []))
  {
    Pow256Widths();
    BodyBytes(ReqFields, NewReq(Capsets.Chat, 30));
    VectorOf(Req(NewReq(Capsets.Chat, 30)), ReqBytes);
  }

  /// The response vector is a failed chat response whose reason is the
  /// timeout.
  lemma RspVector()
    ensures Decode(RspBytes) == Ok(Step(Rsp(AccessBody(RspSubtype, Failure, Capsets.Chat, Timeout)), []))
  {
    Pow256Widths();
    BodyBytes(RspFields, AccessBody(RspSubtype, Failure, Capsets.Chat, Timeout));
    VectorOf(Rsp(AccessBody(RspSubtype, Failure, Capsets.Chat, Timeout)), RspBytes);
  }

  /// The notification vector allows the clipboard.
  lemma NtfVector()
    ensures Decode(NtfBytes) == Ok(Step(Ntf(AccessBody(NtfSubtype, 0, Capsets.Clipboard, Capsets.Allowed)), []))
  {
    Pow256Widths();
    BodyBytes(NtfFields, AccessBody(NtfSubtype, 0, Capsets.Clipboard, Capsets.Allowed));
    VectorOf(Ntf(AccessBody(NtfSubtype, 0, Capsets.Clipboard, Capsets.Allowed)), NtfBytes);
  }
}
