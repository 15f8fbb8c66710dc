/// `NowHandshakeMsg`: the first message of the connection sequence, a
/// fixed 40-byte layout carrying the protocol version, flags, a status, the
/// reconnection cookie and the session identifier.
module Handshake {
  import opened Wire
  import opened Errors
  import opened Derived
  import Serialization
  import Flags
  import Status

  const Ty := "NowHandshakeMsg"

  /// The protocol version the library speaks (21.1.0).
  const VersionMajor: u8 := 21
  const VersionMinor: u8 := 1
  const VersionPatch: u8 := 0

  /// `HanshakeFlags`
  const Failure: Flags.Word := 0x0000_0001
  const Reconnect: Flags.Word := 0x0000_0002
  const Reserved1: Flags.Word := 0x0000_0004

  /// `REQUIRED_SIZE`
  const RequiredSize: nat := 40

  datatype NowHandshakeMsg = NowHandshakeMsg(
    versionMajor: u8,
    versionMinor: u8,
    versionPatch: u8,
    reserved1: u8,
    flags: u32,
    status: Status.NowStatus,
    reserved2: u16,
    reserved3: u16,
    cookie: Serialization.U32Array4,
    sessionId: u32,
    sessionFlags: u32)

  /// `Default`, which `new` and `new_success` both return: this library's
  /// version, no flag, the default status, and zeros elsewhere.
  const DefaultMsg := NowHandshakeMsg(VersionMajor, VersionMinor, VersionPatch, 0, 0, Status.DefaultStatus,
                                      0, 0, [0, 0, 0, 0], 0, 0)

  /// `configure_failure`: the failure flag set and the status replaced.
  function ConfigureFailure(m: NowHandshakeMsg, status: Status.NowStatus): (r: NowHandshakeMsg)
    ensures Flags.Has(r.flags, Failure) && r.status == status
    ensures r == m.(flags := r.flags, status := status)
  {
    m.(flags := Flags.With(m.flags, Failure), status := status)
  }

  /// `configure_reconnect`: the reconnect flag set, the cookie and the
  /// session identifier replaced.
  function ConfigureReconnect(m: NowHandshakeMsg, cookie: Serialization.U32Array4, sessionId: u32): (r: NowHandshakeMsg)
    ensures Flags.Has(r.flags, Reconnect) && r.cookie == cookie && r.sessionId == sessionId
    ensures r == m.(flags := r.flags, cookie := cookie, sessionId := sessionId)
  {
    m.(flags := Flags.With(m.flags, Reconnect), cookie := cookie, sessionId := sessionId)
  }

  /// The derived encoder: every field in declaration order.
  function Encode(m: NowHandshakeMsg): (e: Bytes)
    ensures |e| == RequiredSize
  {
    U8(m.versionMajor) + U8(m.versionMinor) + U8(m.versionPatch) + U8(m.reserved1) + U32(m.flags)
    + Status.Encode(m.status) + U16(m.reserved2) + U16(m.reserved3) + Serialization.EncodeU32x4(m.cookie)
    + U32(m.sessionId) + U32(m.sessionFlags)
  }

  /// The derived decoder: every field in declaration order, a failing field
  /// tagged with its name.
  function Decode(b: Bytes): (r: Result<Step<NowHandshakeMsg>>)
    ensures r.Ok? <==> RequiredSize <= |b|
    ensures r.Ok? ==> |r.value.rest| == |b| - RequiredSize && Status.Consistent(r.value.value.status)
  {
    var major :- U8Field(Ty, "u8", "version_major", b);
    var minor :- U8Field(Ty, "u8", "version_minor", major.rest);
    var patch :- U8Field(Ty, "u8", "version_patch", minor.rest);
    var reserved1 :- U8Field(Ty, "u8", "reserved1", patch.rest);
    var flags :- Flags32Field(Ty, "HanshakeFlags", "flags", reserved1.rest);
    var status :- InField(Ty, "NowStatus < HandshakeStatusCode >", "status", Status.Decode(flags.rest));
    var reserved2 :- U16Field(Ty, "u16", "reserved2", status.rest);
    var reserved3 :- U16Field(Ty, "u16", "reserved3", reserved2.rest);
    var cookie :- InField(Ty, "[u32 ; 4]", "cookie", Serialization.DecodeU32x4(reserved3.rest));
    var sessionId :- U32Field(Ty, "u32", "session_id", cookie.rest);
    var sessionFlags :- U32Field(Ty, "u32", "session_flags", sessionId.rest);
    Ok(Step(NowHandshakeMsg(major.value, minor.value, patch.value, reserved1.value, flags.value, status.value,
                            reserved2.value, reserved3.value, cookie.value, sessionId.value, sessionFlags.value),
            sessionFlags.rest))
  }

  /// The encoding of the fields from `status` on, followed by `rest`.
  function Tail(m: NowHandshakeMsg, rest: Bytes): Bytes
  {
    Status.Encode(m.status) + (U16(m.reserved2) + (U16(m.reserved3) + (Serialization.EncodeU32x4(m.cookie)
    + (U32(m.sessionId) + (U32(m.sessionFlags) + rest)))))
  }

  /// An encoding followed by more bytes is each field's encoding in turn.
  lemma Pieces(m: NowHandshakeMsg, rest: Bytes)
    ensures Encode(m) + rest
            == U8(m.versionMajor) + (U8(m.versionMinor) + (U8(m.versionPatch) + (U8(m.reserved1)
               + (U32(m.flags) + Tail(m, rest)))))
  {
  }

  /// Decoding an encoded handshake gives it back, provided its status is
  /// one `try_from` would produce, and leaves what follows it unread.
  lemma RoundTrip(m: NowHandshakeMsg, rest: Bytes)
    requires Status.Consistent(m.status)
    ensures Decode(Encode(m) + rest) == Ok(Step(m, rest))
  {
    Pieces(m, rest);
    var t := Tail(m, rest);
    var c, i, f := Serialization.EncodeU32x4(m.cookie), U32(m.sessionId), U32(m.sessionFlags);
    U8RoundTrip(Ty, "u8", "version_major", m.versionMajor, U8(m.versionMinor) + (U8(m.versionPatch) + (U8(m.reserved1) + (U32(m.flags) + t))));
    U8RoundTrip(Ty, "u8", "version_minor", m.versionMinor, U8(m.versionPatch) + (U8(m.reserved1) + (U32(m.flags) + t)));
    U8RoundTrip(Ty, "u8", "version_patch", m.versionPatch, U8(m.reserved1) + (U32(m.flags) + t));
    U8RoundTrip(Ty, "u8", "reserved1", m.reserved1, U32(m.flags) + t);
    U32RoundTrip(Ty, "HanshakeFlags", "flags", m.flags, t);
    Status.RoundTrip(m.status, U16(m.reserved2) + (U16(m.reserved3) + (c + (i + (f + rest)))));
    U16RoundTrip(Ty, "u16", "reserved2", m.reserved2, U16(m.reserved3) + (c + (i + (f + rest))));
    U16RoundTrip(Ty, "u16", "reserved3", m.reserved3, c + (i + (f + rest)));
    Serialization.U32x4RoundTrip(m.cookie, i + (f + rest));
    U32RoundTrip(Ty, "u32", "session_id", m.sessionId, f + rest);
    U32RoundTrip(Ty, "u32", "session_flags", m.sessionFlags, rest);
  }

  /// A handshake configured for failure or for reconnection travels as
  /// such: the peer decodes the same message and reads the flag set.
  lemma ConfiguredMessagesTravel(m: NowHandshakeMsg, status: Status.NowStatus, cookie: Serialization.U32Array4, sessionId: u32, rest: Bytes)
    requires Status.Consistent(m.status) && Status.Consistent(status)
    ensures var f := ConfigureFailure(m, status);
            Decode(Encode(f) + rest) == Ok(Step(f, rest)) && Flags.Has(Decode(Encode(f) + rest).value.value.flags, Failure)
    ensures var c := ConfigureReconnect(m, cookie, sessionId);
            Decode(Encode(c) + rest) == Ok(Step(c, rest)) && Flags.Has(Decode(Encode(c) + rest).value.value.flags, Reconnect)
  {
    RoundTrip(ConfigureFailure(m, status), rest);
    RoundTrip(ConfigureReconnect(m, cookie, sessionId), rest);
  }

  /// `HANDSHAKE_MSG_SUCCESS`, field by field.
  const SuccessBytes: Bytes :=
    [21] + [1] + [0]                               // version
    + [0x00]                                       // reserved1
    + [0x00, 0x00, 0x00, 0x00]                     // flags
    + [0x00, 0x00, 0x00, 0x00]                     // status
    + [0x00, 0x00]                                 // reserved2
    + [0x00, 0x00]                                 // reserved3
    + ([0x00, 0x00, 0x00, 0x00] + [0x00, 0x00, 0x00, 0x00]
       + [0x00, 0x00, 0x00, 0x00] + [0x00, 0x00, 0x00, 0x00]) // cookie
    + [0x00, 0x00, 0x00, 0x00]                     // session id
    + [0x00, 0x00, 0x00, 0x00]                     // session flags

  /// The fields of the default handshake, one encoding at a time.
  lemma DefaultFields(m: NowHandshakeMsg)
    requires m == DefaultMsg
    ensures m.versionMajor == 21 && m.versionMinor == 1 && m.versionPatch == 0 && m.reserved1 == 0 && m.flags == 0
    ensures Status.Encode(m.status) == [0, 0, 0, 0] && Status.Consistent(m.status)
    ensures m.reserved2 == 0 && m.reserved3 == 0 && m.sessionId == 0 && m.sessionFlags == 0
    ensures Serialization.EncodeU32x4(m.cookie) == [0, 0, 0, 0] + [0, 0, 0, 0] + [0, 0, 0, 0] + [0, 0, 0, 0]
  {
    ZeroEncodings();
    Status.DefaultIsZero();
    Serialization.U32x4Zero();
    assert m.cookie == [0, 0, 0, 0];
  }

  /// A handshake with the default's fields encodes to the test bytes.
  lemma SuccessEncodingOf(m: NowHandshakeMsg)
    requires m.versionMajor == 21 && m.versionMinor == 1 && m.versionPatch == 0 && m.reserved1 == 0 && m.flags == 0
    requires Status.Encode(m.status) == [0, 0, 0, 0]
    requires m.reserved2 == 0 && m.reserved3 == 0 && m.sessionId == 0 && m.sessionFlags == 0
    requires Serialization.EncodeU32x4(m.cookie) == [0, 0, 0, 0] + [0, 0, 0, 0] + [0, 0, 0, 0] + [0, 0, 0, 0]
    ensures Encode(m) == SuccessBytes
  {
    ZeroEncodings();
  }

  /// A handshake with a consistent status decodes back from its encoding
  /// alone, with nothing left over.
  lemma ReadsBack(m: NowHandshakeMsg)
    requires Status.Consistent(m.status)
    ensures Decode(Encode(m)) == Ok(Step(m, []))
  {
    RoundTrip(m, []);
    assert Encode(m) + [] == Encode(m);
  }

  /// `HANDSHAKE_MSG_SUCCESS` is the encoding of the success handshake, and
  /// decodes back to it with no failure flag.
  lemma SuccessVector()
    ensures Encode(DefaultMsg) == SuccessBytes
    ensures Decode(SuccessBytes) == Ok(Step(DefaultMsg, []))
    ensures !Flags.Has(DefaultMsg.flags, Failure)
  {
    DefaultFields(DefaultMsg);
    SuccessEncodingOf(DefaultMsg);
    ReadsBack(DefaultMsg);
    Flags.EmptyHasNothing(Failure);
  }
}
