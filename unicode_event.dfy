/// The hand-written codec of `NowInputEventUnicode`: the subtype byte, a
/// flags byte whose top two bits hold the code length minus one, then the
/// 1 to 4 code bytes.
module UnicodeEvent {
  import opened Wire
  import opened Errors
  import Io

  /// `InputMessageType::Unicode`
  const UnicodeSubtype: nat := 4

  /// `(self.code.len() as u8 - 1) << 6` with overflow checks on: the length
  /// is truncated to 8 bits, a truncated length of 0 underflows, and the
  /// shift drops all but the low two bits of the length minus one.
  function CodeFlags(len: nat): (r: Io.Panicking<u8>)
    ensures r.Panicked? <==> len % 256 == 0
  {
    var l8 := len % 256;
    if l8 == 0 then Io.Panicked else Io.Returned(((l8 - 1) * 64) % 256)
  }

  /// The code size a flags byte announces: `(flags >> 6) + 1`.
  function CodeSize(flags: u8): (n: nat)
    ensures 1 <= n <= 4
  {
    flags / 64 + 1
  }

  /// A code of 1 to 4 bytes announces its own length; the flags byte has
  /// its low six bits clear.
  lemma ShortCodesAnnounceTheirLength(len: nat)
    requires 1 <= len <= 4
    ensures CodeFlags(len) == Io.Returned((len - 1) * 64)
    ensures CodeSize((len - 1) * 64) == len
  {
  }

  /// An empty code panics, and a 5-byte code announces a 1-byte code.
  lemma OtherLengthsMisannounce()
    ensures CodeFlags(0) == Io.Panicked
    ensures CodeFlags(5) == Io.Returned(0) && CodeSize(0) == 1
  {
  }

  /// The error of a code that does not end where the check expects.
  function SizeMismatch(): ProtoError
  {
    FromKind(Decoding("NowInputEventUnicode: bytes_left != end_exclusive"))
  }

  /// `encode_into`: the subtype, the flags byte, the code; a code length the
  /// flags computation panics on is the error the model gives instead.
  function Encode(subtype: u8, code: Bytes): (r: Result<Bytes>)
    ensures r.Ok? <==> |code| % 256 != 0
    ensures r.Ok? ==> |r.value| == 2 + |code| && r.value[0] == subtype && r.value[2..] == code
  {
    match CodeFlags(|code|)
    case Panicked => Err(FromKind(Encoding("NowInputEventUnicode")))
    case Returned(flags) => Ok([subtype, flags] + code)
  }

  /// `decode_from` as written, on the whole buffer `b` with the cursor at
  /// `p`: after the subtype and flags bytes, at `start`, it accepts only
  /// when `len - start + 2 == start + code_size`, and it leaves the cursor
  /// at `start` rather than after the code.
  function DecodeAsWritten(b: Bytes, p: nat): (r: Result<Step<Bytes>>)
    ensures r.Ok? ==> p + 2 <= |b| && r.value.rest == b[p + 2..]
  {
    if |b| < p + 2 then Err(FromIo(Io.Eof))
    else
      var start := p + 2;
      var size := CodeSize(b[p + 1]);
      if |b| - start + 2 == start + size then Ok(Step(b[start..start + size], b[start..]))
      else Err(SizeMismatch())
  }

  /// `decode_from` as intended: the announced number of code bytes after
  /// the flags byte, wherever the event starts, and the cursor after them.
  function Decode(b: Bytes): (r: Result<Step<Bytes>>)
    ensures r.Ok? ==> 1 <= |r.value.value| <= 4 && 2 + |r.value.value| <= |b|
    ensures r.Ok? ==> r.value.value == b[2..2 + |r.value.value|] && r.value.rest == b[2 + |r.value.value|..]
  {
    var subtype :- Lift(Io.TakeUInt(b, 1));
    var flags :- Lift(Io.TakeUInt(subtype.rest, 1));
    var size := CodeSize(flags.value);
    assert flags.value == b[1] by { assert subtype.rest[..1] == [b[1]]; }
    if size <= |flags.rest| then Ok(Step(flags.rest[..size], flags.rest[size..]))
    else Err(SizeMismatch())
  }

  /// The as-written decoder succeeds only when the buffer ends exactly
  /// `p + 2` bytes after the code, so only an event at the very start of
  /// the buffer, and the last thing in it, decodes.
  lemma AsWrittenDependsOnPosition(b: Bytes, p: nat)
    requires DecodeAsWritten(b, p).Ok?
    ensures p + 2 <= |b| && |b| == 2 * (p + 2) + CodeSize(b[p + 1]) - 2
  {
  }

  /// Where the as-written decoder succeeds, the corrected one reads the
  /// same code bytes from the cursor on.
  lemma DecodersAgreeOnCode(b: Bytes, p: nat)
    requires DecodeAsWritten(b, p).Ok?
    ensures Decode(b[p..]).Ok? && Decode(b[p..]).value.value == DecodeAsWritten(b, p).value.value
  {
    var u := b[p..];
    assert u[..1] == [b[p]] && u[1..][..1] == [b[p + 1]];
    assert LeValue([b[p + 1]]) == b[p + 1];
    var size := CodeSize(b[p + 1]);
    assert u[1..][1..][..size] == b[p + 2..p + 2 + size];
  }

  /// Decoding an encoded event of 1 to 4 code bytes gives the code back and
  /// leaves what follows it unread.
  lemma RoundTrip(subtype: u8, code: Bytes, rest: Bytes)
    requires 1 <= |code| <= 4
    ensures Decode(Encode(subtype, code).value + rest) == Ok(Step(code, rest))
  {
    ShortCodesAnnounceTheirLength(|code|);
    var flags := (|code| - 1) * 64;
    var b := Encode(subtype, code).value + rest;
    assert b == [subtype] + ([flags] + (code + rest));
    assert b[..1] == [subtype] && b[1..] == [flags] + (code + rest);
    assert b[1..][..1] == [flags] && b[1..][1..] == code + rest;
    assert LeValue([flags]) == flags;
    assert (code + rest)[..|code|] == code && (code + rest)[|code|..] == rest;
  }

  /// `[0x04, 0xC0, e4 05 77 02]`: decodes at the start of the buffer, and
  /// fails as written once a single byte precedes it, where the corrected
  /// decoder still reads it.
  const Event: Bytes := [0x04, 0xC0, 0xe4, 0x05, 0x77, 0x02]
  const Code: Bytes := [0xe4, 0x05, 0x77, 0x02]

  lemma Vectors()
    ensures Encode(4, Code) == Ok(Event)
    ensures DecodeAsWritten(Event, 0) == Ok(Step(Code, Code))
    ensures DecodeAsWritten([0x00] + Event, 1) == Err(SizeMismatch())
    ensures Decode(([0x00] + Event)[1..]) == Ok(Step(Code, []))
  {
    ShortCodesAnnounceTheirLength(4);
    assert [0x04, 0xC0] + Code == Event;
    assert Event[2..] == Code;
    RoundTrip(4, Code, []);
    assert ([0x00] + Event)[1..] == Event + [];
  }
}
