/// `NowAuthenticateMsg`: the authentication exchange, a meta enum over the
/// token, success and failure messages, and the value enums it and the
/// negotiation use.
module Authenticate {
  import opened Wire
  import opened Errors
  import opened Derived
  import Serialization
  import Containers
  import Flags
  import Status

  // ---------------------------------------------------------------- value enums

  /// `SRPMessageType`
  datatype SrpMessageType = SrpInitiate | SrpOffer | SrpAccept | SrpConfirm

  function SrpFromByte(x: u8): (r: Option<SrpMessageType>)
    ensures r.Some? <==> 1 <= x <= 4
  {
    match x
    case 1 => Some(SrpInitiate)
    case 2 => Some(SrpOffer)
    case 3 => Some(SrpAccept)
    case 4 => Some(SrpConfirm)
    case _ => None
  }

  function SrpToByte(t: SrpMessageType): u8
  {
    match t
    case SrpInitiate => 1
    case SrpOffer => 2
    case SrpAccept => 3
    case SrpConfirm => 4
  }

  /// The SRP table is a bijection between its four types and bytes 1 to 4.
  lemma SrpTable(x: u8, t: SrpMessageType)
    ensures SrpFromByte(x) == Some(t) <==> SrpToByte(t) == x
  {
  }

  /// `AuthenticateMessageType`, the subtype of the meta enum.
  datatype AuthenticateMessageType = TokenSubtype | SuccessSubtype | FailureSubtype

  function MessageTypeFromByte(x: u8): (r: Option<AuthenticateMessageType>)
    ensures r.Some? <==> 1 <= x <= 3
  {
    match x
    case 1 => Some(TokenSubtype)
    case 2 => Some(SuccessSubtype)
    case 3 => Some(FailureSubtype)
    case _ => None
  }

  function MessageTypeToByte(t: AuthenticateMessageType): u8
  {
    match t
    case TokenSubtype => 1
    case SuccessSubtype => 2
    case FailureSubtype => 3
  }

  lemma MessageTypeTable(x: u8, t: AuthenticateMessageType)
    ensures MessageTypeFromByte(x) == Some(t) <==> MessageTypeToByte(t) == x
  {
  }

  /// `AuthType`: the authentication methods, numbered 0 to 8.
  datatype AuthType = AuthNone | Pfp | Srp | Ignored1 | Ntlm | Spnego | Kerberos | CredSsp | Srd

  function AuthTypeFromByte(x: u8): (r: Option<AuthType>)
    ensures r.Some? <==> x <= 8
  {
    match x
    case 0 => Some(AuthNone)
    case 1 => Some(Pfp)
    case 2 => Some(Srp)
    case 3 => Some(Ignored1)
    case 4 => Some(Ntlm)
    case 5 => Some(Spnego)
    case 6 => Some(Kerberos)
    case 7 => Some(CredSsp)
    case 8 => Some(Srd)
    case _ => None
  }

  function AuthTypeToByte(t: AuthType): u8
  {
    match t
    case AuthNone => 0
    case Pfp => 1
    case Srp => 2
    case Ignored1 => 3
    case Ntlm => 4
    case Spnego => 5
    case Kerberos => 6
    case CredSsp => 7
    case Srd => 8
  }

  lemma AuthTypeTable(x: u8, t: AuthType)
    ensures AuthTypeFromByte(x) == Some(t) <==> AuthTypeToByte(t) == x
  {
  }

  /// The derived codecs of the two enums: one byte, and a byte outside the
  /// table refused.
  function DecodeMessageType(b: Bytes): (r: Result<Step<AuthenticateMessageType>>)
    ensures r.Ok? <==> 0 < |b| && 1 <= b[0] <= 3
    ensures r.Ok? ==> r.value.rest == b[1..] && MessageTypeToByte(r.value.value) == b[0]
  {
    var r := ListedByte("AuthenticateMessageType", MessageTypeFromByte, b);
    if r.Ok? then MessageTypeTable(b[0], r.value.value); r else r
  }

  function DecodeAuthType(b: Bytes): (r: Result<Step<AuthType>>)
    ensures r.Ok? <==> 0 < |b| && b[0] <= 8
    ensures r.Ok? ==> r.value.rest == b[1..] && AuthTypeToByte(r.value.value) == b[0]
  {
    var r := ListedByte("AuthType", AuthTypeFromByte, b);
    if r.Ok? then AuthTypeTable(b[0], r.value.value); r else r
  }

  function EncodeAuthType(t: AuthType): (r: Result<Bytes>)
    ensures r == Ok([AuthTypeToByte(t)])
  {
    Ok(U8(AuthTypeToByte(t)))
  }

  /// Each enum's byte reads back, whatever follows it.
  lemma MessageTypeRoundTrip(t: AuthenticateMessageType, rest: Bytes)
    ensures DecodeMessageType(U8(MessageTypeToByte(t)) + rest) == Ok(Step(t, rest))
  {
    MessageTypeTable(MessageTypeToByte(t), t);
    ListedByteRoundTrip("AuthenticateMessageType", MessageTypeFromByte, MessageTypeToByte(t), t, rest);
  }

  lemma AuthTypeRoundTrip(t: AuthType, rest: Bytes)
    ensures DecodeAuthType(U8(AuthTypeToByte(t)) + rest) == Ok(Step(t, rest))
  {
    AuthTypeTable(AuthTypeToByte(t), t);
    ListedByteRoundTrip("AuthType", AuthTypeFromByte, AuthTypeToByte(t), t, rest);
  }

  /// The auth type codec undoes itself on any list of auth types, which
  /// makes `Vec8<AuthType>` read back (the negotiation's list).
  lemma AuthTypeInverse(xs: seq<AuthType>)
    ensures Containers.InverseOn(EncodeAuthType, DecodeAuthType, xs)
  {
    forall x, rest: Bytes | x in xs && EncodeAuthType(x).Ok?
      ensures DecodeAuthType(EncodeAuthType(x).value + rest) == Ok(Step(x, rest))
    {
      AuthTypeRoundTrip(x, rest);
    }
  }

  /// `AuthentificationFailureFlags`
  const Retry: Flags.Word := 0x01

  // ---------------------------------------------------------------- messages

  const Ty := "NowAuthenticateMsg"
  const TokenTy := "NowAuthenticateTokenMsg"
  const OwnedTokenTy := "NowAuthenticateTokenMsgOwned"
  const SuccessTy := "NowAuthenticateSuccessMsg"
  const FailureTy := "NowAuthenticateFailureMsg"

  /// The token message; the borrowed and the owned variant hold the same
  /// fields and differ only in the container of the token bytes.
  datatype TokenMsg = TokenMsg(subtype: AuthenticateMessageType, flags: u8, authType: AuthType, authFlags: u8,
                               tokenData: Bytes)

  datatype SuccessMsg = SuccessMsg(subtype: AuthenticateMessageType, flags: u8, reserved: u16, sessionId: u32,
                                   cookie: Serialization.U32Array4)

  datatype FailureMsg = FailureMsg(subtype: AuthenticateMessageType, flags: u8, reserved: u16,
                                   status: Status.NowStatus)

  datatype NowAuthenticateMsg =
    | Token(token: TokenMsg)
    | Success(success: SuccessMsg)
    | Failure(failure: FailureMsg)
    | OwnedToken(owned: TokenMsg)

  /// `REQUIRED_SIZE` of each message.
  const TokenRequiredSize: nat := 6
  const SuccessRequiredSize: nat := 24
  const FailureRequiredSize: nat := 5

  /// `NowAuthenticateTokenMsg::new` (and the owned `new`): the token
  /// subtype, no flag.
  function NewToken(authType: AuthType, tokenData: Bytes): (m: TokenMsg)
    ensures m.subtype == TokenSubtype && m.flags == 0 && m.authFlags == 0
    ensures m.authType == authType && m.tokenData == tokenData
  {
    TokenMsg(TokenSubtype, 0, authType, 0, tokenData)
  }

  function NewSuccess(sessionId: u32, cookie: Serialization.U32Array4): (m: SuccessMsg)
    ensures m.subtype == SuccessSubtype && m.flags == 0 && m.reserved == 0
    ensures m.sessionId == sessionId && m.cookie == cookie
  {
    SuccessMsg(SuccessSubtype, 0, 0, sessionId, cookie)
  }

  /// `Default` of the success message: `new(0, [0; 4])`.
  const DefaultSuccess := NewSuccess(0, [0, 0, 0, 0])

  function NewFailure(flags: u8, status: Status.NowStatus): (m: FailureMsg)
    ensures m.subtype == FailureSubtype && m.reserved == 0 && m.flags == flags && m.status == status
  {
    FailureMsg(FailureSubtype, flags, 0, status)
  }

  // token

  function EncodeToken(m: TokenMsg): (r: Result<Bytes>)
    ensures r.Ok? <==> |m.tokenData| < 0x1_0000
    ensures r.Ok? ==> |r.value| == TokenRequiredSize + |m.tokenData| && r.value[0] == MessageTypeToByte(m.subtype)
  {
    Pow256Widths();
    var data :- OutField(TokenTy, "token_data", Containers.EncodeBytes(2, m.tokenData));
    Ok(U8(MessageTypeToByte(m.subtype)) + U8(m.flags) + U8(AuthTypeToByte(m.authType)) + U8(m.authFlags) + data)
  }

  /// The owned token writes its bytes as a `Vec16<u8>`.
  function EncodeOwnedToken(m: TokenMsg): (r: Result<Bytes>)
  {
    var data :- OutField(OwnedTokenTy, "token_data", Containers.EncodeVec(Containers.EncodeByteItem, 2, m.tokenData));
    Ok(U8(MessageTypeToByte(m.subtype)) + U8(m.flags) + U8(AuthTypeToByte(m.authType)) + U8(m.authFlags) + data)
  }

  /// The owned token has the borrowed token's wire form.
  lemma OwnedTokenSameWire(m: TokenMsg)
    ensures EncodeOwnedToken(m).Ok? <==> EncodeToken(m).Ok?
    ensures EncodeOwnedToken(m).Ok? ==> EncodeOwnedToken(m) == EncodeToken(m)
  {
    Containers.ByteVecIsBytes(2, m.tokenData);
  }

  /// The token's derived decoder, corrected: `token_data` is read with the
  /// `Bytes16` decoder that moves past the data.
  function DecodeToken(b: Bytes): (r: Result<Step<TokenMsg>>)
    ensures r.Ok? ==> TokenRequiredSize + |r.value.value.tokenData| <= |b|
                      && r.value.rest == b[TokenRequiredSize + |r.value.value.tokenData|..]
  {
    var subtype :- InField(TokenTy, "AuthenticateMessageType", "subtype", DecodeMessageType(b));
    var flags :- U8Field(TokenTy, "u8", "flags", subtype.rest);
    var authType :- InField(TokenTy, "AuthType", "auth_type", DecodeAuthType(flags.rest));
    var authFlags :- U8Field(TokenTy, "u8", "auth_flags", authType.rest);
    var data :- InField(TokenTy, "Bytes16 < 'a >", "token_data", Containers.DecodeBytes(2, authFlags.rest));
    Ok(Step(TokenMsg(subtype.value, flags.value, authType.value, authFlags.value, data.value), data.rest))
  }

  /// Decoding an encoded token message gives it back and leaves what
  /// follows it unread.
  lemma TokenRoundTrip(m: TokenMsg, rest: Bytes)
    requires EncodeToken(m).Ok?
    ensures DecodeToken(EncodeToken(m).value + rest) == Ok(Step(m, rest))
  {
    var e0, e1, e2, e3 := U8(MessageTypeToByte(m.subtype)), U8(m.flags), U8(AuthTypeToByte(m.authType)), U8(m.authFlags);
    var e4 := Containers.EncodeBytes(2, m.tokenData).value;
    assert EncodeToken(m).value + rest == e0 + (e1 + (e2 + (e3 + (e4 + rest))));
    MessageTypeRoundTrip(m.subtype, e1 + (e2 + (e3 + (e4 + rest))));
    U8RoundTrip(TokenTy, "u8", "flags", m.flags, e2 + (e3 + (e4 + rest)));
    AuthTypeRoundTrip(m.authType, e3 + (e4 + rest));
    U8RoundTrip(TokenTy, "u8", "auth_flags", m.authFlags, e4 + rest);
    Containers.BytesRoundTrip(2, m.tokenData, rest);
  }

  // success

  function EncodeSuccess(m: SuccessMsg): (e: Bytes)
    ensures |e| == SuccessRequiredSize && e[0] == MessageTypeToByte(m.subtype)
  {
    U8(MessageTypeToByte(m.subtype)) + U8(m.flags) + U16(m.reserved) + U32(m.sessionId)
    + Serialization.EncodeU32x4(m.cookie)
  }

  function DecodeSuccess(b: Bytes): (r: Result<Step<SuccessMsg>>)
    ensures r.Ok? ==> SuccessRequiredSize <= |b| && r.value.rest == b[SuccessRequiredSize..]
  {
    var subtype :- InField(SuccessTy, "AuthenticateMessageType", "subtype", DecodeMessageType(b));
    var flags :- U8Field(SuccessTy, "u8", "flags", subtype.rest);
    var reserved :- U16Field(SuccessTy, "u16", "reserved", flags.rest);
    var sessionId :- U32Field(SuccessTy, "u32", "session_id", reserved.rest);
    var cookie :- InField(SuccessTy, "[u32 ; 4]", "cookie", Serialization.DecodeU32x4(sessionId.rest));
    Ok(Step(SuccessMsg(subtype.value, flags.value, reserved.value, sessionId.value, cookie.value), cookie.rest))
  }

  /// Decoding an encoded success message gives it back and leaves what
  /// follows it unread.
  lemma SuccessRoundTrip(m: SuccessMsg, rest: Bytes)
    ensures DecodeSuccess(EncodeSuccess(m) + rest) == Ok(Step(m, rest))
  {
    var e0, e1, e2, e3 := U8(MessageTypeToByte(m.subtype)), U8(m.flags), U16(m.reserved), U32(m.sessionId);
    var e4 := Serialization.EncodeU32x4(m.cookie);
    assert EncodeSuccess(m) + rest == e0 + (e1 + (e2 + (e3 + (e4 + rest))));
    MessageTypeRoundTrip(m.subtype, e1 + (e2 + (e3 + (e4 + rest))));
    U8RoundTrip(SuccessTy, "u8", "flags", m.flags, e2 + (e3 + (e4 + rest)));
    U16RoundTrip(SuccessTy, "u16", "reserved", m.reserved, e3 + (e4 + rest));
    U32RoundTrip(SuccessTy, "u32", "session_id", m.sessionId, e4 + rest);
    Serialization.U32x4RoundTrip(m.cookie, rest);
  }

  // failure

  function EncodeFailure(m: FailureMsg): (e: Bytes)
    ensures |e| == 8 && e[0] == MessageTypeToByte(m.subtype)
  {
    U8(MessageTypeToByte(m.subtype)) + U8(m.flags) + U16(m.reserved) + Status.Encode(m.status)
  }

  function DecodeFailure(b: Bytes): (r: Result<Step<FailureMsg>>)
    ensures r.Ok? ==> 8 <= |b| && r.value.rest == b[8..] && Status.Consistent(r.value.value.status)
  {
    var subtype :- InField(FailureTy, "AuthenticateMessageType", "subtype", DecodeMessageType(b));
    var flags :- Flags8Field(FailureTy, "AuthentificationFailureFlags", "flags", subtype.rest);
    var reserved :- U16Field(FailureTy, "u16", "reserved", flags.rest);
    var status :- InField(FailureTy, "NowStatus < AuthStatusCode >", "status", Status.Decode(reserved.rest));
    Ok(Step(FailureMsg(subtype.value, flags.value, reserved.value, status.value), status.rest))
  }

  /// Decoding an encoded failure message gives it back, provided its status
  /// is one `try_from` would produce, and leaves what follows it unread.
  lemma FailureRoundTrip(m: FailureMsg, rest: Bytes)
    requires Status.Consistent(m.status)
    ensures DecodeFailure(EncodeFailure(m) + rest) == Ok(Step(m, rest))
  {
    var e0, e1, e2, e3 := U8(MessageTypeToByte(m.subtype)), U8(m.flags), U16(m.reserved), Status.Encode(m.status);
    assert EncodeFailure(m) + rest == e0 + (e1 + (e2 + (e3 + rest)));
    MessageTypeRoundTrip(m.subtype, e1 + (e2 + (e3 + rest)));
    U8RoundTrip(FailureTy, "AuthentificationFailureFlags", "flags", m.flags, e2 + (e3 + rest));
    U16RoundTrip(FailureTy, "u16", "reserved", m.reserved, e3 + rest);
    Status.RoundTrip(m.status, rest);
  }

  // the meta enum

  /// The derived meta-enum encoder: the variant's own encoding.
  function Encode(m: NowAuthenticateMsg): (r: Result<Bytes>)
    ensures r.Ok? <==> (m.Token? ==> |m.token.tokenData| < 0x1_0000) && (m.OwnedToken? ==> |m.owned.tokenData| < 0x1_0000)
  {
    match m
    case Token(t) => OutVariant(Ty, "Token", EncodeToken(t))
    case Success(s) => OutVariant(Ty, "Success", Ok(EncodeSuccess(s)))
    case Failure(f) => OutVariant(Ty, "Failure", Ok(EncodeFailure(f)))
    case OwnedToken(t) => OwnedTokenSameWire(t); OutVariant(Ty, "OwnedToken", EncodeOwnedToken(t))
  }

  /// The derived meta-enum decoder: the subtype is peeked and the variant
  /// of that subtype decoded from the same bytes; the owned token is never
  /// produced, and a subtype outside the table is refused.
  function Decode(b: Bytes): (r: Result<Step<NowAuthenticateMsg>>)
    ensures r.Ok? ==> !r.value.value.OwnedToken?
    ensures r.Ok? ==> 0 < |b| && MessageTypeFromByte(b[0]).Some?
  {
    var subtype :- MetaSubtype(Ty, DecodeMessageType(b));
    match subtype
    case TokenSubtype =>
      var t :- InVariant(Ty, "Token", DecodeToken(b));
      Ok(Step(Token(t.value), t.rest))
    case SuccessSubtype =>
      var s :- InVariant(Ty, "Success", DecodeSuccess(b));
      Ok(Step(Success(s.value), s.rest))
    case FailureSubtype =>
      var f :- InVariant(Ty, "Failure", DecodeFailure(b));
      Ok(Step(Failure(f.value), f.rest))
  }

  /// A message whose subtype field names its own variant, with a status
  /// `try_from` would produce.
  predicate WellFormed(m: NowAuthenticateMsg)
  {
    match m
    case Token(t) => t.subtype == TokenSubtype
    case Success(s) => s.subtype == SuccessSubtype
    case Failure(f) => f.subtype == FailureSubtype && Status.Consistent(f.status)
    case OwnedToken(t) => t.subtype == TokenSubtype
  }

  /// What decoding gives back for a message: itself, except that an owned
  /// token comes back as a borrowed one.
  function AsDecoded(m: NowAuthenticateMsg): NowAuthenticateMsg
  {
    if m.OwnedToken? then Token(m.owned) else m
  }

  /// Whatever decodes is well formed: the variant chosen is the one its
  /// subtype names.
  lemma DecodedIsWellFormed(b: Bytes)
    requires Decode(b).Ok?
    ensures WellFormed(Decode(b).value.value)
  {
  }

  /// The subtype byte at the head of a message selects its variant.
  lemma SubtypeSelects(t: AuthenticateMessageType, e: Bytes, rest: Bytes)
    requires 0 < |e| && e[0] == MessageTypeToByte(t)
    ensures MetaSubtype(Ty, DecodeMessageType(e + rest)) == Ok(t)
  {
    MessageTypeTable(e[0], t);
  }

  /// The round trip of each variant, stated as for the whole enum.
  lemma TokenVariantRoundTrip(t: TokenMsg, rest: Bytes)
    requires t.subtype == TokenSubtype && EncodeToken(t).Ok?
    ensures Decode(EncodeToken(t).value + rest) == Ok(Step(Token(t), rest))
  {
    SubtypeSelects(t.subtype, EncodeToken(t).value, rest);
    TokenRoundTrip(t, rest);
  }

  lemma SuccessVariantRoundTrip(s: SuccessMsg, rest: Bytes)
    requires s.subtype == SuccessSubtype
    ensures Decode(EncodeSuccess(s) + rest) == Ok(Step(Success(s), rest))
  {
    SubtypeSelects(s.subtype, EncodeSuccess(s), rest);
    SuccessRoundTrip(s, rest);
  }

  lemma FailureVariantRoundTrip(f: FailureMsg, rest: Bytes)
    requires f.subtype == FailureSubtype && Status.Consistent(f.status)
    ensures Decode(EncodeFailure(f) + rest) == Ok(Step(Failure(f), rest))
  {
    SubtypeSelects(f.subtype, EncodeFailure(f), rest);
    FailureRoundTrip(f, rest);
  }

  /// Decoding an encoded well-formed message gives it back (an owned token
  /// as the borrowed token with the same fields) and leaves what follows it
  /// unread.
  lemma RoundTrip(m: NowAuthenticateMsg, rest: Bytes)
    requires WellFormed(m) && Encode(m).Ok?
    ensures Decode(Encode(m).value + rest) == Ok(Step(AsDecoded(m), rest))
  {
    match m
    case Token(t) => TokenVariantRoundTrip(t, rest);
    case OwnedToken(t) =>
      OwnedTokenSameWire(t);
      TokenVariantRoundTrip(t, rest);
    case Success(s) => SuccessVariantRoundTrip(s, rest);
    case Failure(f) => FailureVariantRoundTrip(f, rest);
  }

  /// A subtype byte outside 1 to 3 is refused before any variant is read.
  lemma UnknownSubtypeRefused(b: Bytes)
    requires 0 < |b| && (b[0] == 0 || b[0] > 3)
    ensures Decode(b) == Err(ProtoError(Decoding(Ty), Some(Plain("couldn't decode subtype")),
                                        Some(FromKind(Decoding("AuthenticateMessageType")))))
  {
  }

  // ---------------------------------------------------------------- test vectors

  /// `AUTHENTICATE_FAILURE_MSG`
  const FailureBytes: Bytes := [0x03] + [0x01] + [0x00, 0x00] + [0xff, 0xff, 0x17, 0x80]

  /// The failure message with the retry flag and an Error/Auth/Failure
  /// status.
  const RetryFailure := NewFailure(0x01, Status.Build(Status.Error, Status.Auth, 0xFFFF))

  lemma FailureFields(m: FailureMsg)
    requires m == RetryFailure
    ensures U8(MessageTypeToByte(m.subtype)) == [0x03] && U8(m.flags) == [0x01] && U16(m.reserved) == [0x00, 0x00]
    ensures Status.Encode(m.status) == [0xff, 0xff, 0x17, 0x80] && Status.Consistent(m.status)
  {
    ZeroEncodings();
    Status.AuthFailureVector();
    Status.BuildThenParse(Status.Error, Status.Auth, 0xFFFF);
    Pow256Widths();
    LeValueOfLeBytes(0x8017_ffff, 4);
    assert LeBytes(0x8017_ffff, 4) == [0xff, 0xff, 0x17, 0x80];
  }

  /// A message with nothing after it decodes back with nothing left over.
  lemma ReadsBack(m: NowAuthenticateMsg)
    requires WellFormed(m) && Encode(m).Ok?
    ensures Decode(Encode(m).value) == Ok(Step(AsDecoded(m), []))
  {
    RoundTrip(m, []);
    assert Encode(m).value + [] == Encode(m).value;
  }

  /// The failure vector is the encoding of the retry failure, and decodes
  /// (as a meta enum) back to it, with the retry flag set.
  lemma FailureVector()
    ensures EncodeFailure(RetryFailure) == FailureBytes
    ensures Decode(FailureBytes) == Ok(Step(Failure(RetryFailure), []))
    ensures Flags.Has(RetryFailure.flags, Retry)
  {
    FailureFields(RetryFailure);
    ReadsBack(Failure(RetryFailure));
    Flags.LowBitHas(RetryFailure.flags, Retry);
  }

  /// `AUTHENTICATE_SUCCESS_MSG`
  const SuccessBytes: Bytes := [0x02] + [0x00] + [0x00, 0x00] + [0x00, 0x00, 0x00, 0x00]
    + ([0x00, 0x00, 0x00, 0x00] + [0x00, 0x00, 0x00, 0x00] + [0x00, 0x00, 0x00, 0x00] + [0x00, 0x00, 0x00, 0x00])

  lemma SuccessFields(m: SuccessMsg)
    requires m == DefaultSuccess
    ensures U8(MessageTypeToByte(m.subtype)) == [0x02] && U8(m.flags) == [0x00] && U16(m.reserved) == [0x00, 0x00]
    ensures U32(m.sessionId) == [0x00, 0x00, 0x00, 0x00]
    ensures Serialization.EncodeU32x4(m.cookie) == [0, 0, 0, 0] + [0, 0, 0, 0] + [0, 0, 0, 0] + [0, 0, 0, 0]
  {
    ZeroEncodings();
    Serialization.U32x4Zero();
    assert m.cookie == [0, 0, 0, 0];
  }

  /// The default success message encodes to the 24-byte vector, which
  /// decodes back to it.
  lemma SuccessVector()
    ensures EncodeSuccess(DefaultSuccess) == SuccessBytes
    ensures Decode(SuccessBytes) == Ok(Step(Success(DefaultSuccess), []))
  {
    SuccessFields(DefaultSuccess);
    ReadsBack(Success(DefaultSuccess));
  }

  /// `AUTHENTICATE_TOKEN_MSG`, of any 281 token bytes: the SRP token
  /// message announces a 281-byte (0x0119) token after its four one-byte
  /// fields, decodes as the token variant, and re-encodes identically.
  lemma TokenVector(data: Bytes)
    requires |data| == 281
    ensures EncodeToken(NewToken(Srp, data)) == Ok([0x01, 0x00, 0x02, 0x00] + [0x19, 0x01] + data)
    ensures Decode([0x01, 0x00, 0x02, 0x00] + [0x19, 0x01] + data) == Ok(Step(Token(NewToken(Srp, data)), []))
  {
    var m := NewToken(Srp, data);
    var e := EncodeToken(m).value;
    Pow256Widths();
    LeValueOfLeBytes(281, 2);
    assert LeBytes(281, 2) == [0x19, 0x01];
    assert Containers.EncodeBytes(2, data).value == [0x19, 0x01] + data;
    ZeroEncodings();
    assert U8(1) == [0x01] && U8(2) == [0x02];
    assert e == [0x01] + [0x00] + [0x02] + [0x00] + ([0x19, 0x01] + data);
    assert e == [0x01, 0x00, 0x02, 0x00] + [0x19, 0x01] + data;
    ReadsBack(Token(m));
  }
}
