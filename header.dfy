/// The packet header: a short form of four bytes for bodies whose length fits
/// a `u16`, a long form of six bytes otherwise. The fourth byte tells them
/// apart: it is the short header's flags, whose short bit makes it larger
/// than 7, and the top byte of the long header's length.
module Header {
  import opened Wire
  import opened Errors
  import Io
  import Flags
  import Derived
  import opened MessageTypes

  /// `HEADER_VIRTUAL_CHANNEL_FLAG`: the body belongs to a virtual channel.
  const VirtualChannelFlag: Flags.Word := 0x01

  /// The flag that marks a short header.
  const ShortBit: u8 := 0x80

  /// `NowShortHeader::SIZE` and `NowLongHeader::SIZE`
  const ShortSize: nat := 4
  const LongSize: nat := 6

  datatype NowShortHeader = NowShortHeader(bodyLen: u16, bodyType: BodyType, flags: u8)

  datatype NowLongHeader = NowLongHeader(bodyLen: u32, flags: u8, bodyType: BodyType)

  datatype NowHeader = Short(short: NowShortHeader) | Long(long: NowLongHeader)

  /// `flags & HEADER_VIRTUAL_CHANNEL_FLAG != 0`, the test on the lowest bit.
  predicate HasChannelFlag(flags: u8)
  {
    flags % 2 == 1
  }

  /// The test is the flag word's own.
  lemma ChannelFlagIsLowBit(flags: u8)
    ensures HasChannelFlag(flags) <==> Flags.Has(flags, VirtualChannelFlag)
  {
    Flags.HasLowBit(flags);
  }

  /// The channel flag a body type calls for.
  function ChannelBit(t: BodyType): (f: u8)
    ensures HasChannelFlag(f) <==> t.VirtualChannel?
  {
    if t.VirtualChannel? then 1 else 0
  }

  // ---------------------------------------------------------------- constructors

  /// `NowShortHeader::new`: the short bit, with the channel flag for a
  /// channel body (the two bits are disjoint, so `|` is `+`).
  function NewShort(bodyType: BodyType, bodyLen: u16): (h: NowShortHeader)
    ensures h.bodyLen == bodyLen && h.bodyType == bodyType
    ensures h.flags > 7 && h.flags / 0x80 == 1
    ensures HasChannelFlag(h.flags) <==> bodyType.VirtualChannel?
  {
    NowShortHeader(bodyLen, bodyType, ShortBit + ChannelBit(bodyType))
  }

  /// `NowLongHeader::new` as written: the size is masked with `0x7FFF`, the
  /// short header's mask, so only its low 15 bits are kept.
  function NewLongAsWritten(bodyType: BodyType, bodySize: u32): (h: NowLongHeader)
    ensures h.bodyLen < 0x8000 && h.bodyLen <= bodySize
    ensures bodySize < 0x8000 ==> h.bodyLen == bodySize
    ensures h.bodyType == bodyType
    ensures HasChannelFlag(h.flags) <==> bodyType.VirtualChannel?
  {
    NowLongHeader(bodySize % 0x8000, ChannelBit(bodyType), bodyType)
  }

  /// `NowLongHeader::new` as evidently intended: the whole size.
  function NewLong(bodyType: BodyType, bodySize: u32): (h: NowLongHeader)
    ensures h.bodyLen == bodySize && h.bodyType == bodyType
    ensures HasChannelFlag(h.flags) <==> bodyType.VirtualChannel?
  {
    NowLongHeader(bodySize, ChannelBit(bodyType), bodyType)
  }

  /// `NowHeader::new` as written: a long header exactly when the length
  /// does not fit a `u16`.
  function NewAsWritten(bodyType: BodyType, bodyLen: u32): (h: NowHeader)
    ensures h.Long? <==> bodyLen > 0xFFFF
  {
    if bodyLen > 0xFFFF then Long(NewLongAsWritten(bodyType, bodyLen))
    else Short(NewShort(bodyType, bodyLen as u16))
  }

  /// `NowHeader::new` over the corrected long header.
  function New(bodyType: BodyType, bodyLen: u32): (h: NowHeader)
    ensures h.Long? <==> bodyLen > 0xFFFF
  {
    if bodyLen > 0xFFFF then Long(NewLong(bodyType, bodyLen))
    else Short(NewShort(bodyType, bodyLen as u16))
  }

  // ---------------------------------------------------------------- AbstractNowHeader

  function Len(h: NowHeader): nat
  {
    if h.Short? then ShortSize else LongSize
  }

  /// `flags()`: a short header's flags without the short bit; a long
  /// header's as they are.
  function FlagsOf(h: NowHeader): (f: u8)
    ensures f < 0x80 || h.Long?
  {
    match h
    case Short(s) => s.flags % 0x80
    case Long(l) => l.flags
  }

  function BodyTypeOf(h: NowHeader): BodyType
  {
    match h
    case Short(s) => s.bodyType
    case Long(l) => l.bodyType
  }

  function BodyLen(h: NowHeader): nat
  {
    match h
    case Short(s) => s.bodyLen
    case Long(l) => l.bodyLen
  }

  /// `packet_len()`: the header and its body.
  function PacketLen(h: NowHeader): (n: nat)
    ensures n == BodyLen(h) + Len(h)
  {
    match h
    case Short(s) => s.bodyLen as nat + ShortSize
    case Long(l) => l.bodyLen as nat + LongSize
  }

  // ---------------------------------------------------------------- encoding

  /// The derived encoding of a short header: its fields in declaration order.
  function EncodeShort(h: NowShortHeader): (e: Bytes)
    ensures |e| == ShortSize && e[2..] == EncodeBodyType(h.bodyType) + [h.flags]
  {
    Derived.U16(h.bodyLen) + EncodeBodyType(h.bodyType) + [h.flags]
  }

  function EncodeLong(h: NowLongHeader): (e: Bytes)
    ensures |e| == LongSize && e[4..] == [h.flags] + EncodeBodyType(h.bodyType)
  {
    Derived.U32(h.bodyLen) + [h.flags] + EncodeBodyType(h.bodyType)
  }

  function Encode(h: NowHeader): (e: Bytes)
    ensures |e| == Len(h)
  {
    match h
    case Short(s) => EncodeShort(s)
    case Long(l) => EncodeLong(l)
  }

  // ---------------------------------------------------------------- decoding

  /// What `read_exact` reports when the input runs out, converted into
  /// the crate's I/O error by its description.
  const FillError := Io.NoStdIoError(Io.UnexpectedEof, Some("failed to fill whole buffer"))

  /// A failed read of the header's bytes.
  function ReadFail<T>(desc: Desc): (r: Result<T>)
    ensures r.Err? && r.error == ProtoError(Decoding("NowHeader"), Some(desc), Some(FromIo(FillError)))
  {
    OrDesc(Chain(Err(FromIo(FillError)), Decoding("NowHeader")), desc)
  }

  /// The body type byte read under the given flags: a channel id when the
  /// channel flag is set, a message type otherwise (which never fails).
  function BodyTypeFrom(raw: u8, flags: u8): (t: BodyType)
    ensures t.VirtualChannel? <==> HasChannelFlag(flags)
    ensures EncodeBodyType(t) == [raw]
    ensures t.Message? ==> Canonical(t.ty)
  {
    ByteRoundTrip(raw);
    if HasChannelFlag(flags) then BodyType.VirtualChannel(raw) else Message(FromByte(raw))
  }

  function DecodeShort(b: Bytes): (h: NowShortHeader)
    requires ShortSize <= |b|
    ensures h.flags == b[3] && EncodeBodyType(h.bodyType) == [b[2]]
  {
    NowShortHeader(LeValue(b[..2]), BodyTypeFrom(b[2], b[3]), b[3])
  }

  function DecodeLong(b: Bytes): (h: NowLongHeader)
    requires LongSize <= |b|
    ensures h.flags == b[4] && EncodeBodyType(h.bodyType) == [b[5]]
  {
    Pow256Widths();
    NowLongHeader(LeValue(b[..4]), b[4], BodyTypeFrom(b[5], b[4]))
  }

  /// `NowHeader::read_from`: four bytes, then two more unless the fourth
  /// has the short bit.
  function Decode(b: Bytes): (r: Result<Step<NowHeader>>)
    ensures r.Ok? <==> ShortSize <= |b| && (b[3] > 7 || LongSize <= |b|)
    ensures r.Ok? ==> (r.value.value.Short? <==> b[3] > 7)
                      && Len(r.value.value) <= |b| && r.value.rest == b[Len(r.value.value)..]
                      && Encode(r.value.value) == b[..Len(r.value.value)]
    ensures r.Err? ==> r.error.kind == Decoding("NowHeader") && r.error.source == Some(FromIo(FillError))
  {
    if ShortSize > |b| then ReadFail(Plain("couldn't read short bit (no enough bytes provided"))
    else if b[3] > 7 then
      var h := DecodeShort(b);
      LeBytesOfLeValue(b[..2]);
      assert Derived.U16(h.bodyLen) == b[..2] by { LeBytesOfLeValue(Derived.U16(h.bodyLen)); }
      assert EncodeShort(h) == b[..ShortSize];
      Ok(Step(Short(h), b[ShortSize..]))
    else if LongSize > |b| then ReadFail(Plain("not enough bytes provided to parse long header"))
    else
      var h := DecodeLong(b);
      LeBytesOfLeValue(b[..4]);
      assert Derived.U32(h.bodyLen) == b[..4] by { LeBytesOfLeValue(Derived.U32(h.bodyLen)); }
      assert EncodeLong(h) == b[..LongSize];
      Ok(Step(Long(h), b[LongSize..]))
  }

  // ---------------------------------------------------------------- round trip

  /// A body type its flags agree with, a message type in its canonical form.
  predicate Consistent(t: BodyType, flags: u8)
  {
    (t.VirtualChannel? <==> HasChannelFlag(flags)) && (t.Message? ==> Canonical(t.ty))
  }

  /// A header whose bytes read back as itself: a short header's flags carry
  /// the short bit, and a long header's length leaves the fourth byte at
  /// most 7.
  predicate Decodable(h: NowHeader)
  {
    match h
    case Short(s) => s.flags > 7 && Consistent(s.bodyType, s.flags)
    case Long(l) => l.bodyLen < 0x0800_0000 && Consistent(l.bodyType, l.flags)
  }

  /// The top byte of a little-endian `u32` is at most 7 exactly below 2^27.
  lemma U32TopByte(v: u32)
    ensures Derived.U32(v)[3] <= 7 <==> v < 0x0800_0000
  {
    var e := Derived.U32(v);
    assert LeValue(e[3..]) == e[3] by { assert e[3..][1..] == []; }
    assert LeValue(e[2..]) == e[2] + 256 * LeValue(e[3..]) by { assert e[2..][1..] == e[3..]; }
    assert LeValue(e[1..]) == e[1] + 256 * LeValue(e[2..]) by { assert e[1..][1..] == e[2..]; }
    assert v == e[0] as nat + 256 * (e[1] as nat) + 0x1_0000 * (e[2] as nat) + 0x100_0000 * (e[3] as nat);
  }

  /// Reading back the byte of a body type under flags that agree with it.
  lemma BodyTypeFromEncoding(t: BodyType, flags: u8)
    requires Consistent(t, flags)
    ensures BodyTypeFrom(EncodeBodyType(t)[0], flags) == t
  {
    if t.Message? {
      TypeRoundTrip(t.ty);
    }
  }

  lemma ShortRoundTrip(s: NowShortHeader, rest: Bytes)
    requires s.flags > 7 && Consistent(s.bodyType, s.flags)
    ensures Decode(EncodeShort(s) + rest) == Ok(Step(Short(s), rest))
  {
    var e := EncodeShort(s);
    var b := e + rest;
    assert b[..2] == e[..2] == Derived.U16(s.bodyLen);
    assert b[2] == EncodeBodyType(s.bodyType)[0] && b[3] == s.flags;
    assert b[ShortSize..] == rest;
    BodyTypeFromEncoding(s.bodyType, s.flags);
    assert DecodeShort(b) == s;
  }

  lemma LongRoundTrip(l: NowLongHeader, rest: Bytes)
    requires l.bodyLen < 0x0800_0000 && Consistent(l.bodyType, l.flags)
    ensures Decode(EncodeLong(l) + rest) == Ok(Step(Long(l), rest))
  {
    var e := EncodeLong(l);
    var b := e + rest;
    U32TopByte(l.bodyLen);
    assert b[..4] == e[..4] == Derived.U32(l.bodyLen);
    assert b[3] == Derived.U32(l.bodyLen)[3];
    assert b[4] == l.flags && b[5] == EncodeBodyType(l.bodyType)[0];
    assert b[LongSize..] == rest;
    BodyTypeFromEncoding(l.bodyType, l.flags);
    assert DecodeLong(b) == l;
  }

  /// Reading a decodable header's bytes gives it back and leaves whatever
  /// follows them unread.
  lemma RoundTrip(h: NowHeader, rest: Bytes)
    requires Decodable(h)
    ensures Decode(Encode(h) + rest) == Ok(Step(h, rest))
  {
    if h.Short? {
      ShortRoundTrip(h.short, rest);
    } else {
      LongRoundTrip(h.long, rest);
    }
  }

  /// A long header of 2^27 bytes or more reads back as a short one: the
  /// top byte of its length is taken for a short header's flags.
  lemma HugeLongReadAsShort(l: NowLongHeader, rest: Bytes)
    requires l.bodyLen >= 0x0800_0000
    ensures Decode(EncodeLong(l) + rest).Ok? && Decode(EncodeLong(l) + rest).value.value.Short?
  {
    U32TopByte(l.bodyLen);
    assert (EncodeLong(l) + rest)[3] == EncodeLong(l)[3];
  }

  // ---------------------------------------------------------------- constructors, as written and corrected

  /// The corrected `new` builds a header that says what it was given and
  /// that reads back as itself, for every body below 2^27 bytes.
  lemma NewRoundTrip(t: BodyType, n: u32, rest: Bytes)
    requires n < 0x0800_0000 && (t.Message? ==> Canonical(t.ty))
    ensures Decodable(New(t, n))
    ensures BodyLen(New(t, n)) == n && BodyTypeOf(New(t, n)) == t
    ensures PacketLen(New(t, n)) == n + Len(New(t, n))
    ensures FlagsOf(New(t, n)) == ChannelBit(t)
    ensures Decode(Encode(New(t, n)) + rest) == Ok(Step(New(t, n), rest))
  {
    RoundTrip(New(t, n), rest);
  }

  /// Up to `u16::MAX` the constructor as written is the corrected one.
  lemma AsWrittenAgreesUpTo16Bits(t: BodyType, n: u32)
    requires n <= 0xFFFF
    ensures NewAsWritten(t, n) == New(t, n)
  {
  }

  /// As written, every length that needs a long header is cut to its low
  /// 15 bits: the header no longer gives the body's length.
  lemma AsWrittenLosesLongLength(t: BodyType, n: u32)
    requires n > 0xFFFF
    ensures BodyLen(NewAsWritten(t, n)) < 0x8000 && BodyLen(NewAsWritten(t, n)) != n
    ensures BodyLen(New(t, n)) == n
  {
  }

  /// A body of 64 KiB announced by the header as written: length zero.
  lemma AsWrittenAnnouncesEmptyBody()
    ensures BodyLen(NewAsWritten(Message(Update), 0x1_0000)) == 0
  {
  }

  // ---------------------------------------------------------------- vectors

  /// `SHORT_HEADER_MSG`
  const ShortHeaderBytes: Bytes := [0x28, 0x00] + [0x01] + [0x80]

  lemma ShortHeaderVector()
    ensures Encode(New(Message(Handshake), 40)) == ShortHeaderBytes
    ensures Decode(ShortHeaderBytes) == Ok(Step(New(Message(Handshake), 40), []))
    ensures New(Message(Handshake), 40).Short? && New(Message(Handshake), 40).short.flags == 0x80
    ensures FlagsOf(New(Message(Handshake), 40)) == 0
  {
    Pow256Widths();
    LeBytesOfLeValue(Derived.U16(40));
    assert Derived.U16(40) == [0x28, 0x00];
    NewRoundTrip(Message(Handshake), 40, []);
    assert ShortHeaderBytes + [] == ShortHeaderBytes;
  }

  /// `LONG_HEADER_MSG`
  const LongHeaderBytes: Bytes := [0x1d, 0x03, 0x00, 0x00] + [0x00] + [0x42]

  lemma LongHeaderVector()
    ensures NewLongAsWritten(Message(Update), 797) == NewLong(Message(Update), 797)
    ensures Encode(Long(NewLong(Message(Update), 797))) == LongHeaderBytes
    ensures Decode(LongHeaderBytes) == Ok(Step(Long(NewLong(Message(Update), 797)), []))
    ensures FlagsOf(Long(NewLong(Message(Update), 797))) == 0
  {
    var h := Long(NewLong(Message(Update), 797));
    Pow256Widths();
    LeBytesOfLeValue(Derived.U32(797));
    assert Derived.U32(797) == [0x1d, 0x03, 0x00, 0x00];
    assert Encode(h) == LongHeaderBytes;
    RoundTrip(h, []);
    assert LongHeaderBytes + [] == LongHeaderBytes;
  }

  /// `VIRTUAL_CHANNEL_HEADER`: a channel header followed by its body.
  const ChannelHeaderBytes: Bytes := [0x10, 0x00] + [0x01] + [0x81]
  const ChannelBody: Bytes := [0x00, 0x00, 0x00, 0x00, 0x00, 0x00, 0x00, 0x00, 0x00, 0x20, 0x00, 0x00, 0x00, 0x00, 0x00, 0x00]

  lemma ChannelHeaderVector()
    ensures Encode(New(BodyType.VirtualChannel(1), 16)) == ChannelHeaderBytes
    ensures Decode(ChannelHeaderBytes + ChannelBody) == Ok(Step(New(BodyType.VirtualChannel(1), 16), ChannelBody))
    ensures FlagsOf(New(BodyType.VirtualChannel(1), 16)) == VirtualChannelFlag
  {
    var h := New(BodyType.VirtualChannel(1), 16);
    Pow256Widths();
    LeBytesOfLeValue(Derived.U16(16));
    assert Derived.U16(16) == [0x10, 0x00];
    assert Encode(h) == ChannelHeaderBytes;
    RoundTrip(h, ChannelBody);
  }
}
