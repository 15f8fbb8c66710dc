/// `NowSharingMsg`: a sharee suspends (with a message for the user) or
/// resumes the sharing of its screen. A meta enum on a one-byte subtype
/// with a fallback variant that keeps the undecoded rest of the buffer.
module Sharing {
  import opened Wire
  import opened Errors
  import opened Derived
  import Layout
  import Text

  const Ty := "NowSharingMsg"
  const SuspendTy := "NowSharingSuspendMsg"
  const ResumeTy := "NowSharingResumeMsg"

  /// `SharingMessageType`, with its fallback `Other(v)`.
  datatype SharingMessageType = SuspendSubtype | ResumeSubtype | Other(value: u8)

  function MessageTypeFromU8(v: u8): (t: SharingMessageType)
    ensures t.Other? <==> v !in {1, 2}
    ensures t.Other? ==> t.value == v
  {
    match v
    case 1 => SuspendSubtype
    case 2 => ResumeSubtype
    case _ => Other(v)
  }

  function MessageTypeToU8(t: SharingMessageType): u8
  {
    match t
    case SuspendSubtype => 1
    case ResumeSubtype => 2
    case Other(v) => v
  }

  /// `Other(v)` only stands for a value outside the table.
  predicate MessageTypeCanonical(t: SharingMessageType)
  {
    t.Other? ==> t.value !in {1, 2}
  }

  /// The two directions of the subtype table.
  lemma MessageTypeTable(t: SharingMessageType)
    ensures forall v: u8 :: MessageTypeCanonical(MessageTypeFromU8(v)) && MessageTypeToU8(MessageTypeFromU8(v)) == v
    ensures MessageTypeCanonical(t) ==> MessageTypeFromU8(MessageTypeToU8(t)) == t
  {
  }

  /// The leading fields both structs share: subtype, flags, reserved word.
  const HeadFields := [Layout.UInt("subtype", "SharingMessageType", 1), Layout.UInt("flags", "u8", 1),
                        Layout.UInt("reserved", "u16", 2)]

  /// `NowSharingSuspendMsg`: the head and a `NowString256` message.
  datatype SuspendMsg = SuspendMsg(subtype: SharingMessageType, flags: u8, reserved: u16, message: Bytes)

  /// `NowSharingResumeMsg`: the head alone.
  datatype ResumeMsg = ResumeMsg(subtype: SharingMessageType, flags: u8, reserved: u16)

  datatype NowSharingMsg =
    | Suspend(suspend: SuspendMsg)
    | Resume(resume: ResumeMsg)
    | Custom(payload: Bytes)

  // ---------------------------------------------------------------- constructors

  /// `NowSharingSuspendMsg::default` (and `new`): its own subtype, no flag,
  /// an empty message.
  const DefaultSuspend := SuspendMsg(SuspendSubtype, 0, 0, [])

  /// `new_with_message`: the default with the message given.
  function NewWithMessage(message: Bytes): (m: SuspendMsg)
    ensures m.subtype == SuspendSubtype && m.flags == 0 && m.reserved == 0 && m.message == message
    ensures message == [] ==> m == DefaultSuspend
  {
    DefaultSuspend.(message := message)
  }

  // ---------------------------------------------------------------- structs

  function HeadValues(subtype: SharingMessageType, flags: u8, reserved: u16): (vs: seq<nat>)
    ensures Layout.Fits(HeadFields, vs) && |vs| == 3
  {
    Pow256Widths();
    [MessageTypeToU8(subtype), flags, reserved]
  }

  function EncodeHead(subtype: SharingMessageType, flags: u8, reserved: u16): (e: Bytes)
    ensures |e| == 4 && e[0] == MessageTypeToU8(subtype)
  {
    Layout.FirstByte(HeadFields, HeadValues(subtype, flags, reserved));
    Layout.Encode(HeadFields, HeadValues(subtype, flags, reserved))
  }

  /// The head's values, read back as the fields' types.
  datatype Head = Head(subtype: SharingMessageType, flags: u8, reserved: u16)

  function HeadOf(vs: seq<nat>): (h: Head)
    requires Layout.Fits(HeadFields, vs)
    ensures MessageTypeCanonical(h.subtype) && HeadValues(h.subtype, h.flags, h.reserved) == vs
  {
    Pow256Widths();
    assert vs[0] < Pow256(1) && vs[1] < Pow256(1) && vs[2] < Pow256(2);
    MessageTypeTable(Other(0));
    Head(MessageTypeFromU8(vs[0]), vs[1], vs[2])
  }

  /// The derived decoder of the head under the struct's name: four bytes,
  /// and what it reads is the encoding of what it returns.
  function DecodeHead(structTy: string, b: Bytes): (r: Result<Step<Head>>)
    ensures r.Ok? <==> 4 <= |b|
    ensures r.Ok? ==> r.value.rest == b[4..] && MessageTypeCanonical(r.value.value.subtype)
                      && EncodeHead(r.value.value.subtype, r.value.value.flags, r.value.value.reserved) == b[..4]
                      && r.value.value.subtype == MessageTypeFromU8(b[0])
    ensures r.Err? ==> r.error.kind == Decoding(structTy)
  {
    var x :- Layout.Decode(structTy, HeadFields, b);
    var h := HeadOf(x.value);
    assert b[0] == MessageTypeToU8(h.subtype) by {
      Layout.FirstByte(HeadFields, x.value);
    }
    MessageTypeTable(h.subtype);
    Ok(Step(h, x.rest))
  }

  lemma HeadRoundTrip(structTy: string, h: Head, rest: Bytes)
    requires MessageTypeCanonical(h.subtype)
    ensures DecodeHead(structTy, EncodeHead(h.subtype, h.flags, h.reserved) + rest) == Ok(Step(h, rest))
  {
    var vs := HeadValues(h.subtype, h.flags, h.reserved);
    Layout.RoundTrip(structTy, HeadFields, vs, rest);
    MessageTypeTable(h.subtype);
  }

  function EncodeSuspend(m: SuspendMsg): (e: Bytes)
    requires Layout.StrValid(256, 1, m.message)
    ensures |e| == 6 + |m.message| && e[0] == MessageTypeToU8(m.subtype)
  {
    EncodeHead(m.subtype, m.flags, m.reserved) + Layout.Str(256, 1, m.message)
  }

  /// The derived decoder: the head, then the message.
  function DecodeSuspend(b: Bytes): (r: Result<Step<SuspendMsg>>)
    ensures r.Ok? ==> 4 <= |b| && MessageTypeCanonical(r.value.value.subtype)
                      && r.value.value.subtype == MessageTypeFromU8(b[0])
                      && Layout.StrValid(256, 1, r.value.value.message) && |r.value.rest| < |b| - 4
  {
    var h :- DecodeHead(SuspendTy, b);
    var message :- Layout.StrField(SuspendTy, "message", 256, 1, h.rest);
    Ok(Step(SuspendMsg(h.value.subtype, h.value.flags, h.value.reserved, message.value), message.rest))
  }

  lemma SuspendRoundTrip(m: SuspendMsg, rest: Bytes)
    requires MessageTypeCanonical(m.subtype) && Layout.StrValid(256, 1, m.message)
    ensures DecodeSuspend(EncodeSuspend(m) + rest) == Ok(Step(m, rest))
  {
    var head := EncodeHead(m.subtype, m.flags, m.reserved);
    var message := Layout.Str(256, 1, m.message);
    assert head + message + rest == head + (message + rest);
    HeadRoundTrip(SuspendTy, Head(m.subtype, m.flags, m.reserved), message + rest);
    Layout.StrRoundTrip(SuspendTy, "message", 256, 1, m.message, rest);
  }

  function EncodeResume(m: ResumeMsg): (e: Bytes)
    ensures |e| == 4 && e[0] == MessageTypeToU8(m.subtype)
  {
    EncodeHead(m.subtype, m.flags, m.reserved)
  }

  /// The derived decoder: four bytes, whatever their subtype.
  function DecodeResume(b: Bytes): (r: Result<Step<ResumeMsg>>)
    ensures r.Ok? <==> 4 <= |b|
    ensures r.Ok? ==> r.value.rest == b[4..] && MessageTypeCanonical(r.value.value.subtype)
                      && r.value.value.subtype == MessageTypeFromU8(b[0]) && EncodeResume(r.value.value) == b[..4]
  {
    var h :- DecodeHead(ResumeTy, b);
    Ok(Step(ResumeMsg(h.value.subtype, h.value.flags, h.value.reserved), h.rest))
  }

  lemma ResumeRoundTrip(m: ResumeMsg, rest: Bytes)
    requires MessageTypeCanonical(m.subtype)
    ensures DecodeResume(EncodeResume(m) + rest) == Ok(Step(m, rest))
  {
    HeadRoundTrip(ResumeTy, Head(m.subtype, m.flags, m.reserved), rest);
  }

  // ---------------------------------------------------------------- meta enum

  /// A message whose subtype field names its own variant, holding values
  /// the decoders can return; a custom payload starts with an unlisted
  /// subtype.
  predicate WellFormed(m: NowSharingMsg)
  {
    match m
    case Suspend(s) => s.subtype == SuspendSubtype && Layout.StrValid(256, 1, s.message)
    case Resume(s) => s.subtype == ResumeSubtype
    case Custom(payload) => |payload| > 0 && payload[0] !in {1, 2}
  }

  /// What the encoder needs: a suspend message's text fits its
  /// `NowString256`, which the string type guarantees. Any fallback payload
  /// is written, even one the decoder would read as another variant.
  predicate Encodable(m: NowSharingMsg)
  {
    m.Suspend? ==> Layout.StrValid(256, 1, m.suspend.message)
  }

  /// The derived meta-enum encoder; the fallback writes its bytes as they
  /// are.
  function Encode(m: NowSharingMsg): (e: Bytes)
    requires Encodable(m)
    ensures m.Custom? ==> e == m.payload
    ensures !m.Custom? ==> |e| >= 4
  {
    match m
    case Suspend(s) => EncodeSuspend(s)
    case Resume(s) => EncodeResume(s)
    case Custom(payload) => payload
  }

  /// The derived meta-enum decoder: the subtype is peeked; a listed subtype
  /// decodes its variant from the same bytes, any other keeps all of them
  /// and leaves them unread.
  function Decode(b: Bytes): (r: Result<Step<NowSharingMsg>>)
    ensures r.Ok? ==> 0 < |b| && WellFormed(r.value.value)
    ensures 0 < |b| && b[0] !in {1, 2} ==> r == Ok(Step(Custom(b), b))
    ensures r.Err? ==> |b| < 4 || (0 < |b| && b[0] == 1)
  {
    var raw :- Subtype(Ty, 1, b);
    assert raw == b[0] by { assert b[..1] == [b[0]]; }
    match MessageTypeFromU8(raw)
    case SuspendSubtype =>
      var s :- InVariant(Ty, "Suspend", DecodeSuspend(b));
      Ok(Step(Suspend(s.value), s.rest))
    case ResumeSubtype =>
      var s :- InVariant(Ty, "Resume", DecodeResume(b));
      Ok(Step(Resume(s.value), s.rest))
    case Other(_) =>
      var all := Rest(b);
      Ok(Step(Custom(all.value), all.rest))
  }

  /// Decoding an encoded well-formed message gives it back and leaves what
  /// follows it unread; a custom message takes every byte after it too and
  /// leaves them all unread, so it comes back only when nothing follows it.
  lemma RoundTrip(m: NowSharingMsg, rest: Bytes)
    requires WellFormed(m)
    requires m.Custom? ==> rest == []
    ensures m.Custom? ==> Decode(Encode(m)) == Ok(Step(m, m.payload))
    ensures !m.Custom? ==> Decode(Encode(m) + rest) == Ok(Step(m, rest))
  {
    match m
    case Suspend(s) =>
      assert (Encode(m) + rest)[..1] == [1];
      SuspendRoundTrip(s, rest);
    case Resume(s) =>
      assert (Encode(m) + rest)[..1] == [2];
      ResumeRoundTrip(s, rest);
    case Custom(payload) =>
      assert payload[..1] == [payload[0]];
  }

  /// A resume is never refused once its four bytes are there.
  lemma ResumeNeverRefused(b: Bytes)
    requires 4 <= |b| && b[0] == 2
    ensures Decode(b).Ok? && Decode(b).value == Step(Resume(DecodeResume(b).value.value), b[4..])
  {
    assert b[..1] == [b[0]];
  }

  // ---------------------------------------------------------------- vectors

  /// `NOW_SHARING_SUSPEND_MSG`
  const SuspendBytes: Bytes := [0x01, 0x00, 0x00, 0x00, 0x00, 0x00]

  /// The suspend built with an empty message writes the test bytes.
  lemma SuspendEncoding()
    ensures Layout.StrValid(256, 1, NewWithMessage([]).message)
    ensures EncodeSuspend(NewWithMessage([])) == SuspendBytes
  {
    assert Layout.StrValid(256, 1, []) by { Text.AsciiIsUtf8([]); }
    assert EncodeHead(SuspendSubtype, 0, 0) == [1, 0, 0, 0] by {
      ZeroEncodings();
      Layout.EncodeCons(HeadFields, HeadValues(SuspendSubtype, 0, 0));
    }
    assert Layout.Str(256, 1, []) == [0, 0] by { Pow256Widths(); }
  }

  /// The suspend built with an empty message encodes to the test bytes,
  /// which decode to the default suspend.
  lemma SuspendVector()
    ensures Layout.StrValid(256, 1, NewWithMessage([]).message)
    ensures Encode(Suspend(NewWithMessage([]))) == SuspendBytes
    ensures Decode(SuspendBytes) == Ok(Step(Suspend(DefaultSuspend), []))
  {
    SuspendEncoding();
    RoundTrip(Suspend(NewWithMessage([])), []);
    assert SuspendBytes + [] == SuspendBytes;
  }
}
