/// `NowAuthPFP`: the tokens of the "PFP" authentication method, carried in
/// the data of an authenticate token message. A meta enum on a `u16`
/// subtype over three structs: negotiate (the client's friendly name and
/// text), challenge (an optional question) and response (the answer).
module Pfp {
  import opened Wire
  import opened Errors
  import opened Derived
  import Layout
  import NowStrings
  import Text
  import Authenticate

  const Ty := "NowAuthPFP"

  // ---------------------------------------------------------------- value enums

  /// `PFPMessageType`, values 1 to 3 and the fallback.
  datatype PfpMessageType = Negotiate | Challenge | Response | Other(value: u16)

  function MessageTypeFromU16(v: u16): (t: PfpMessageType)
    ensures t.Other? <==> !(1 <= v <= 3)
    ensures t.Other? ==> t.value == v
  {
    match v
    case 1 => Negotiate
    case 2 => Challenge
    case 3 => Response
    case _ => PfpMessageType.Other(v)
  }

  function MessageTypeToU16(t: PfpMessageType): u16
  {
    match t
    case Negotiate => 1
    case Challenge => 2
    case Response => 3
    case Other(v) => v
  }

  /// `Other(v)` only ever stands for a value outside the table.
  predicate TypeCanonical(t: PfpMessageType)
  {
    t.Other? ==> !(1 <= t.value <= 3)
  }

  /// The two directions of the table.
  lemma MessageTypeTable(v: u16, t: PfpMessageType)
    ensures MessageTypeToU16(MessageTypeFromU16(v)) == v && TypeCanonical(MessageTypeFromU16(v))
    ensures TypeCanonical(t) ==> MessageTypeFromU16(MessageTypeToU16(t)) == t
  {
  }

  /// `PFPMessageFlags`: no challenge 0, question 1, and the fallback.
  datatype PfpMessageFlags = NoChallenge | Question | Other(value: u16)

  function FlagsFromU16(v: u16): (f: PfpMessageFlags)
    ensures f.Other? <==> v > 1
    ensures f.Other? ==> f.value == v
  {
    match v
    case 0 => NoChallenge
    case 1 => Question
    case _ => PfpMessageFlags.Other(v)
  }

  function FlagsToU16(f: PfpMessageFlags): u16
  {
    match f
    case NoChallenge => 0
    case Question => 1
    case Other(v) => v
  }

  predicate FlagsCanonical(f: PfpMessageFlags)
  {
    f.Other? ==> f.value > 1
  }

  lemma FlagsTable(v: u16, f: PfpMessageFlags)
    ensures FlagsToU16(FlagsFromU16(v)) == v && FlagsCanonical(FlagsFromU16(v))
    ensures FlagsCanonical(f) ==> FlagsFromU16(FlagsToU16(f)) == f
  {
  }

  // ---------------------------------------------------------------- the structs

  /// `NowAuthPFPNegotiate`: a `NowString64` name and a `NowString256` text.
  datatype NegotiateMsg = NegotiateMsg(subtype: PfpMessageType, flags: PfpMessageFlags, friendlyName: Bytes,
                                       friendlyText: Bytes)

  /// `NowAuthPFPChallenge`: a `NowString256` question.
  datatype ChallengeMsg = ChallengeMsg(subtype: PfpMessageType, flags: PfpMessageFlags, question: Bytes)

  /// `NowAuthPFPResponse`: a `NowString256` answer.
  datatype ResponseMsg = ResponseMsg(subtype: PfpMessageType, flags: PfpMessageFlags, answer: Bytes)

  datatype NowAuthPfp =
    | NegotiateToken(negotiate: NegotiateMsg)
    | ChallengeToken(challenge: ChallengeMsg)
    | ResponseToken(response: ResponseMsg)

  /// A `NowString64` and a `NowString256` value, as the types keep them.
  predicate Str64(s: Bytes) { Layout.StrValid(64, 1, s) }
  predicate Str256(s: Bytes) { Layout.StrValid(256, 1, s) }

  // ---------------------------------------------------------------- constructors

  /// `NowAuthPFPNegotiate::new`: the negotiate subtype, with a question.
  function NewNegotiate(friendlyName: Bytes, friendlyText: Bytes): (m: NegotiateMsg)
    ensures m.subtype == Negotiate && m.flags == Question
    ensures m.friendlyName == friendlyName && m.friendlyText == friendlyText
  {
    NegotiateMsg(Negotiate, Question, friendlyName, friendlyText)
  }

  /// `new_without_question`: no challenge, an empty question.
  function NewChallengeWithoutQuestion(): (m: ChallengeMsg)
    ensures m.subtype == Challenge && m.flags == NoChallenge && m.question == []
  {
    ChallengeMsg(Challenge, NoChallenge, [])
  }

  /// `new_with_question`.
  function NewChallengeWithQuestion(question: Bytes): (m: ChallengeMsg)
    ensures m.subtype == Challenge && m.flags == Question && m.question == question
  {
    ChallengeMsg(Challenge, Question, question)
  }

  /// `NowAuthPFPResponse::new`: the response subtype, with a question flag.
  function NewResponse(answer: Bytes): (m: ResponseMsg)
    ensures m.subtype == Response && m.flags == Question && m.answer == answer
  {
    ResponseMsg(Response, Question, answer)
  }

  // ---------------------------------------------------------------- field codecs

  /// The `subtype` field of struct `ty`: a `u16` through the table.
  function SubtypeField(ty: string, b: Bytes): (r: Result<Step<PfpMessageType>>)
    ensures r.Ok? <==> 2 <= |b|
    ensures r.Ok? ==> r.value.rest == b[2..] && TypeCanonical(r.value.value)
                      && MessageTypeToU16(r.value.value) == LeValue(b[..2])
  {
    var x :- U16Field(ty, "PFPMessageType", "subtype", b);
    FieldsReadEncodings(ty, "PFPMessageType", "subtype", b, 2);
    LeValueOfLeBytes(x.value, 2);
    MessageTypeTable(x.value, Negotiate);
    Ok(Step(MessageTypeFromU16(x.value), x.rest))
  }

  lemma SubtypeFieldRoundTrip(ty: string, t: PfpMessageType, rest: Bytes)
    requires TypeCanonical(t)
    ensures SubtypeField(ty, U16(MessageTypeToU16(t)) + rest) == Ok(Step(t, rest))
  {
    U16RoundTrip(ty, "PFPMessageType", "subtype", MessageTypeToU16(t), rest);
    MessageTypeTable(MessageTypeToU16(t), t);
  }

  /// The `flags` field of struct `ty`: a `u16` through the table.
  function FlagsField(ty: string, b: Bytes): (r: Result<Step<PfpMessageFlags>>)
    ensures r.Ok? <==> 2 <= |b|
    ensures r.Ok? ==> r.value.rest == b[2..] && FlagsCanonical(r.value.value)
  {
    var x :- U16Field(ty, "PFPMessageFlags", "flags", b);
    FlagsTable(x.value, NoChallenge);
    Ok(Step(FlagsFromU16(x.value), x.rest))
  }

  lemma FlagsFieldRoundTrip(ty: string, f: PfpMessageFlags, rest: Bytes)
    requires FlagsCanonical(f)
    ensures FlagsField(ty, U16(FlagsToU16(f)) + rest) == Ok(Step(f, rest))
  {
    U16RoundTrip(ty, "PFPMessageFlags", "flags", FlagsToU16(f), rest);
    FlagsTable(FlagsToU16(f), f);
  }

  /// The four bytes every token starts with.
  function EncodeHead(t: PfpMessageType, f: PfpMessageFlags): (e: Bytes)
    ensures |e| == 4
  {
    U16(MessageTypeToU16(t)) + U16(FlagsToU16(f))
  }

  /// Subtype and flags, as the struct `ty` reads them.
  function DecodeHead(ty: string, b: Bytes): (r: Result<Step<(PfpMessageType, PfpMessageFlags)>>)
    ensures r.Ok? <==> 4 <= |b|
    ensures r.Ok? ==> r.value.rest == b[4..] && TypeCanonical(r.value.value.0) && FlagsCanonical(r.value.value.1)
                      && MessageTypeToU16(r.value.value.0) == LeValue(b[..2])
  {
    var subtype :- SubtypeField(ty, b);
    var flags :- FlagsField(ty, subtype.rest);
    Ok(Step((subtype.value, flags.value), flags.rest))
  }

  lemma HeadRoundTrip(ty: string, t: PfpMessageType, f: PfpMessageFlags, rest: Bytes)
    requires TypeCanonical(t) && FlagsCanonical(f)
    ensures DecodeHead(ty, EncodeHead(t, f) + rest) == Ok(Step((t, f), rest))
  {
    var e2 := U16(FlagsToU16(f));
    assert EncodeHead(t, f) + rest == U16(MessageTypeToU16(t)) + (e2 + rest);
    SubtypeFieldRoundTrip(ty, t, e2 + rest);
    FlagsFieldRoundTrip(ty, f, rest);
  }

  // ---------------------------------------------------------------- negotiate

  const NegotiateTy := "NowAuthPFPNegotiate"

  /// Subtype, flags, name and text, in declaration order.
  function EncodeNegotiate(m: NegotiateMsg): (e: Bytes)
    requires Str64(m.friendlyName) && Str256(m.friendlyText)
    ensures |e| == 8 + |m.friendlyName| + |m.friendlyText|
  {
    EncodeHead(m.subtype, m.flags) + Layout.Str(64, 1, m.friendlyName) + Layout.Str(256, 1, m.friendlyText)
  }

  function DecodeNegotiate(b: Bytes): (r: Result<Step<NegotiateMsg>>)
    ensures r.Ok? ==> 4 <= |b| && MessageTypeToU16(r.value.value.subtype) == LeValue(b[..2])
                      && TypeCanonical(r.value.value.subtype) && FlagsCanonical(r.value.value.flags)
                      && Str64(r.value.value.friendlyName) && Str256(r.value.value.friendlyText)
  {
    var head :- DecodeHead(NegotiateTy, b);
    var name :- Layout.StrField(NegotiateTy, "friendly_name", 64, 1, head.rest);
    var text :- Layout.StrField(NegotiateTy, "friendly_text", 256, 1, name.rest);
    Ok(Step(NegotiateMsg(head.value.0, head.value.1, name.value, text.value), text.rest))
  }

  /// A negotiate token with canonical values reads back, leaving exactly
  /// what follows it.
  lemma NegotiateRoundTrip(m: NegotiateMsg, rest: Bytes)
    requires TypeCanonical(m.subtype) && FlagsCanonical(m.flags) && Str64(m.friendlyName) && Str256(m.friendlyText)
    ensures DecodeNegotiate(EncodeNegotiate(m) + rest) == Ok(Step(m, rest))
  {
    var e2 := Layout.Str(64, 1, m.friendlyName);
    var e3 := Layout.Str(256, 1, m.friendlyText);
    assert EncodeNegotiate(m) + rest == EncodeHead(m.subtype, m.flags) + (e2 + (e3 + rest));
    HeadRoundTrip(NegotiateTy, m.subtype, m.flags, e2 + (e3 + rest));
    Layout.StrRoundTrip(NegotiateTy, "friendly_name", 64, 1, m.friendlyName, e3 + rest);
    Layout.StrRoundTrip(NegotiateTy, "friendly_text", 256, 1, m.friendlyText, rest);
  }

  // ---------------------------------------------------------------- challenge and response

  const ChallengeTy := "NowAuthPFPChallenge"
  const ResponseTy := "NowAuthPFPResponse"

  function EncodeChallenge(m: ChallengeMsg): (e: Bytes)
    requires Str256(m.question)
    ensures |e| == 6 + |m.question|
  {
    EncodeHead(m.subtype, m.flags) + Layout.Str(256, 1, m.question)
  }

  function DecodeChallenge(b: Bytes): (r: Result<Step<ChallengeMsg>>)
    ensures r.Ok? ==> 4 <= |b| && MessageTypeToU16(r.value.value.subtype) == LeValue(b[..2])
                      && TypeCanonical(r.value.value.subtype) && FlagsCanonical(r.value.value.flags)
                      && Str256(r.value.value.question)
  {
    var head :- DecodeHead(ChallengeTy, b);
    var question :- Layout.StrField(ChallengeTy, "question", 256, 1, head.rest);
    Ok(Step(ChallengeMsg(head.value.0, head.value.1, question.value), question.rest))
  }

  lemma ChallengeRoundTrip(m: ChallengeMsg, rest: Bytes)
    requires TypeCanonical(m.subtype) && FlagsCanonical(m.flags) && Str256(m.question)
    ensures DecodeChallenge(EncodeChallenge(m) + rest) == Ok(Step(m, rest))
  {
    var e2 := Layout.Str(256, 1, m.question);
    assert EncodeChallenge(m) + rest == EncodeHead(m.subtype, m.flags) + (e2 + rest);
    HeadRoundTrip(ChallengeTy, m.subtype, m.flags, e2 + rest);
    Layout.StrRoundTrip(ChallengeTy, "question", 256, 1, m.question, rest);
  }

  function EncodeResponse(m: ResponseMsg): (e: Bytes)
    requires Str256(m.answer)
    ensures |e| == 6 + |m.answer|
  {
    EncodeHead(m.subtype, m.flags) + Layout.Str(256, 1, m.answer)
  }

  function DecodeResponse(b: Bytes): (r: Result<Step<ResponseMsg>>)
    ensures r.Ok? ==> 4 <= |b| && MessageTypeToU16(r.value.value.subtype) == LeValue(b[..2])
                      && TypeCanonical(r.value.value.subtype) && FlagsCanonical(r.value.value.flags)
                      && Str256(r.value.value.answer)
  {
    var head :- DecodeHead(ResponseTy, b);
    var answer :- Layout.StrField(ResponseTy, "answer", 256, 1, head.rest);
    Ok(Step(ResponseMsg(head.value.0, head.value.1, answer.value), answer.rest))
  }

  lemma ResponseRoundTrip(m: ResponseMsg, rest: Bytes)
    requires TypeCanonical(m.subtype) && FlagsCanonical(m.flags) && Str256(m.answer)
    ensures DecodeResponse(EncodeResponse(m) + rest) == Ok(Step(m, rest))
  {
    var e2 := Layout.Str(256, 1, m.answer);
    assert EncodeResponse(m) + rest == EncodeHead(m.subtype, m.flags) + (e2 + rest);
    HeadRoundTrip(ResponseTy, m.subtype, m.flags, e2 + rest);
    Layout.StrRoundTrip(ResponseTy, "answer", 256, 1, m.answer, rest);
  }

  // ---------------------------------------------------------------- the meta enum

  /// A token as decoding produces it: each variant's struct carries that
  /// variant's subtype, canonical flags and valid strings.
  predicate WellFormed(m: NowAuthPfp)
  {
    match m
    case NegotiateToken(n) => n.subtype == Negotiate && FlagsCanonical(n.flags) && Str64(n.friendlyName)
                              && Str256(n.friendlyText)
    case ChallengeToken(c) => c.subtype == Challenge && FlagsCanonical(c.flags) && Str256(c.question)
    case ResponseToken(r) => r.subtype == Response && FlagsCanonical(r.flags) && Str256(r.answer)
  }

  /// The derived meta-enum encoder: the variant's struct.
  function Encode(m: NowAuthPfp): (e: Bytes)
    requires WellFormed(m)
    ensures 4 <= |e| && LeValue(e[..2]) == MessageTypeToU16(SubtypeOf(m))
  {
    var e := match m
      case NegotiateToken(n) => EncodeNegotiate(n)
      case ChallengeToken(c) => EncodeChallenge(c)
      case ResponseToken(r) => EncodeResponse(r);
    LeValueOfLeBytes(MessageTypeToU16(SubtypeOf(m)), 2);
    assert e[..2] == U16(MessageTypeToU16(SubtypeOf(m)));
    e
  }

  /// The subtype a well-formed token carries.
  function SubtypeOf(m: NowAuthPfp): PfpMessageType
  {
    match m
    case NegotiateToken(n) => n.subtype
    case ChallengeToken(c) => c.subtype
    case ResponseToken(r) => r.subtype
  }

  function NegotiateVariant(r: Result<Step<NegotiateMsg>>, b: Bytes): (o: Result<Step<NowAuthPfp>>)
    requires 2 <= |b| && LeValue(b[..2]) == 1
    requires r == DecodeNegotiate(b)
    ensures o.Ok? ==> WellFormed(o.value.value)
  {
    var x :- InVariant(Ty, "Negotiate", r);
    Ok(Step(NegotiateToken(x.value), x.rest))
  }

  function ChallengeVariant(r: Result<Step<ChallengeMsg>>, b: Bytes): (o: Result<Step<NowAuthPfp>>)
    requires 2 <= |b| && LeValue(b[..2]) == 2
    requires r == DecodeChallenge(b)
    ensures o.Ok? ==> WellFormed(o.value.value)
  {
    var x :- InVariant(Ty, "Challenge", r);
    Ok(Step(ChallengeToken(x.value), x.rest))
  }

  function ResponseVariant(r: Result<Step<ResponseMsg>>, b: Bytes): (o: Result<Step<NowAuthPfp>>)
    requires 2 <= |b| && LeValue(b[..2]) == 3
    requires r == DecodeResponse(b)
    ensures o.Ok? ==> WellFormed(o.value.value)
  {
    var x :- InVariant(Ty, "Response", r);
    Ok(Step(ResponseToken(x.value), x.rest))
  }

  /// The derived meta-enum decoder: the `u16` subtype is peeked, and the
  /// struct it names is decoded from the same bytes; the fallback subtype
  /// names no variant and is refused.
  function Decode(b: Bytes): (r: Result<Step<NowAuthPfp>>)
    ensures r.Ok? ==> 2 <= |b| && 1 <= LeValue(b[..2]) <= 3 && WellFormed(r.value.value)
                      && MessageTypeToU16(SubtypeOf(r.value.value)) == LeValue(b[..2])
    ensures 2 <= |b| && !(1 <= LeValue(b[..2]) <= 3) ==> r == Err(Unlisted(Ty))
  {
    var raw :- Subtype(Ty, 2, b);
    match MessageTypeFromU16(raw)
    case Negotiate => NegotiateVariant(DecodeNegotiate(b), b)
    case Challenge => ChallengeVariant(DecodeChallenge(b), b)
    case Response => ResponseVariant(DecodeResponse(b), b)
    case Other(_) => Err(Unlisted(Ty))
  }

  /// Every well-formed token reads back, leaving what follows it.
  lemma RoundTrip(m: NowAuthPfp, rest: Bytes)
    requires WellFormed(m)
    ensures Decode(Encode(m) + rest) == Ok(Step(m, rest))
  {
    var e := Encode(m) + rest;
    assert e[..2] == Encode(m)[..2];
    match m
    case NegotiateToken(n) => NegotiateRoundTrip(n, rest);
    case ChallengeToken(c) => ChallengeRoundTrip(c, rest);
    case ResponseToken(r) => ResponseRoundTrip(r, rest);
  }

  // ---------------------------------------------------------------- the token builder

  /// `new_owned_negotiate_token`, corrected: the name and text must fit
  /// their string types, with the text limited to 255 bytes (as written a
  /// 256-byte text passes `from_str` and the encoding then panics); the result is an owned authenticate token of the PFP method
  /// whose data is the negotiate token's encoding.
  function NewOwnedNegotiateToken(friendlyName: Bytes, friendlyText: Bytes): (r: Result<Authenticate.NowAuthenticateMsg>)
    requires Text.Utf8(friendlyName) && Text.Utf8(friendlyText)
    ensures r.Ok? <==> |friendlyName| <= 64 && |friendlyText| <= 255
    ensures r.Ok? ==> r.value.OwnedToken? && r.value.owned.authType == Authenticate.Pfp
                      && Decode(r.value.owned.tokenData)
                         == Ok(Step(NegotiateToken(NewNegotiate(friendlyName, friendlyText)), []))
  {
    var name :- NowStrings.TryFrom(64, 1, friendlyName);
    var text :- NowStrings.TryFrom(256, 1, friendlyText);
    var m := NewNegotiate(name, text);
    RoundTrip(NegotiateToken(m), []);
    assert EncodeNegotiate(m) + [] == EncodeNegotiate(m);
    Ok(Authenticate.OwnedToken(Authenticate.NewToken(Authenticate.Pfp, EncodeNegotiate(m))))
  }

  // ---------------------------------------------------------------- test vectors

  /// "Johnny Doe", "It's me.", "How are you?" and "元気".
  const JohnnyDoe: Bytes := [0x4a, 0x6f, 0x68, 0x6e, 0x6e, 0x79, 0x20, 0x44, 0x6f, 0x65]
  const ItsMe: Bytes := [0x49, 0x74, 0x27, 0x73, 0x20, 0x6d, 0x65, 0x2e]
  const HowAreYou: Bytes := [0x48, 0x6f, 0x77, 0x20, 0x61, 0x72, 0x65, 0x20, 0x79, 0x6f, 0x75, 0x3f]
  const Genki: Bytes := [0xe5, 0x85, 0x83, 0xe6, 0xb0, 0x97]

  /// `PFP_NEGOTIATE_TOKEN`
  const NegotiateBytes: Bytes := [0x01, 0x00, 0x01, 0x00] + ([0x0a] + JohnnyDoe + [0x00]) + ([0x08] + ItsMe + [0x00])
  /// `PFP_CHALLENGE_TOKEN`
  const ChallengeBytes: Bytes := [0x02, 0x00, 0x01, 0x00] + ([0x0c] + HowAreYou + [0x00])
  /// `PFP_NO_CHALLENGE_TOKEN`
  const NoChallengeBytes: Bytes := [0x02, 0x00, 0x00, 0x00] + ([0x00] + [] + [0x00])
  /// `PFP_RESPONSE_TOKEN`
  const ResponseBytes: Bytes := [0x03, 0x00, 0x01, 0x00] + ([0x06] + Genki + [0x00])

  lemma HeadBytes()
    ensures EncodeHead(Negotiate, Question) == [0x01, 0x00, 0x01, 0x00]
    ensures EncodeHead(Challenge, Question) == [0x02, 0x00, 0x01, 0x00]
    ensures EncodeHead(Challenge, NoChallenge) == [0x02, 0x00, 0x00, 0x00]
    ensures EncodeHead(Response, Question) == [0x03, 0x00, 0x01, 0x00]
  {
    Pow256Widths();
    ZeroEncodings();
    assert LeBytes(1, 2) == [0x01, 0x00];
    assert LeBytes(2, 2) == [0x02, 0x00];
    assert LeBytes(3, 2) == [0x03, 0x00];
  }

  /// A string with a one-byte length: the length, the bytes, a zero.
  lemma ShortStrBytes(size: nat, s: Bytes)
    requires Layout.StrValid(size, 1, s)
    ensures Layout.Str(size, 1, s) == [|s| as u8] + s + [0x00]
  {
  }

  lemma ReadsBack(m: NowAuthPfp)
    requires WellFormed(m)
    ensures Decode(Encode(m)) == Ok(Step(m, []))
  {
    RoundTrip(m, []);
    assert Encode(m) + [] == Encode(m);
  }

  lemma NegotiateEncoding()
    ensures Str64(JohnnyDoe) && Str256(ItsMe)
    ensures EncodeNegotiate(NewNegotiate(JohnnyDoe, ItsMe)) == NegotiateBytes
  {
    Text.AsciiIsUtf8(JohnnyDoe);
    Text.AsciiIsUtf8(ItsMe);
    HeadBytes();
    ShortStrBytes(64, JohnnyDoe);
    ShortStrBytes(256, ItsMe);
  }

  /// The negotiate token of the test encodes to the test bytes, which
  /// decode back to it.
  lemma NegotiateVector()
    ensures Str64(JohnnyDoe) && Str256(ItsMe)
    ensures EncodeNegotiate(NewNegotiate(JohnnyDoe, ItsMe)) == NegotiateBytes
    ensures Decode(NegotiateBytes) == Ok(Step(NegotiateToken(NewNegotiate(JohnnyDoe, ItsMe)), []))
  {
    NegotiateEncoding();
    ReadsBack(NegotiateToken(NewNegotiate(JohnnyDoe, ItsMe)));
  }

  /// The challenge with a question, and the one without, encode to the
  /// test bytes, which decode back to them.
  lemma ChallengeVectors()
    ensures Str256(HowAreYou)
    ensures EncodeChallenge(NewChallengeWithQuestion(HowAreYou)) == ChallengeBytes
    ensures Decode(ChallengeBytes) == Ok(Step(ChallengeToken(NewChallengeWithQuestion(HowAreYou)), []))
    ensures EncodeChallenge(NewChallengeWithoutQuestion()) == NoChallengeBytes
    ensures Decode(NoChallengeBytes) == Ok(Step(ChallengeToken(NewChallengeWithoutQuestion()), []))
  {
    Text.AsciiIsUtf8(HowAreYou);
    Text.AsciiIsUtf8([]);
    HeadBytes();
    ShortStrBytes(256, HowAreYou);
    ShortStrBytes(256, []);
    ReadsBack(ChallengeToken(NewChallengeWithQuestion(HowAreYou)));
    ReadsBack(ChallengeToken(NewChallengeWithoutQuestion()));
  }

  /// The response of the test, two three-byte characters, encodes to the
  /// test bytes, which decode back to it.
  lemma ResponseVector()
    ensures Str256(Genki)
    ensures EncodeResponse(NewResponse(Genki)) == ResponseBytes
    ensures Decode(ResponseBytes) == Ok(Step(ResponseToken(NewResponse(Genki)), []))
  {
    assert Text.Utf8SeqLen(Genki, 0) == 3 && Text.Utf8SeqLen(Genki, 3) == 3;
    assert Text.Utf8From(Genki, 6) && Text.Utf8Next(Genki, 3) && Text.Utf8Next(Genki, 0);
    HeadBytes();
    ShortStrBytes(256, Genki);
    ReadsBack(ResponseToken(NewResponse(Genki)));
  }
}
