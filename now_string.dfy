/// `NowString<Size, SizeType>`: a UTF-8 string of at most `Size` bytes on the
/// wire as its byte length (of `SizeType`), the bytes, and a terminator.
///
/// A string is held as its UTF-8 bytes. The six instances are
/// `NowString16`…`NowString256` with a `u8` length and `NowString65535`
/// with a `u16` length.
module NowStrings {
  import opened Wire
  import opened Text
  import opened Errors
  import Io

  /// The (size limit, length width) pairs the crate instantiates.
  predicate Kind(size: nat, width: nat)
  {
    (width == 1 && size in {16, 32, 64, 128, 256}) || (width == 2 && size == 65535)
  }

  /// The type name the error texts use, `NowString64` and so on.
  function Name(size: nat): string
  {
    "NowString" + NatToString(size)
  }

  /// `encoded_len`: the bytes, one terminator byte, and the length field.
  function EncodedLen(width: nat, s: Bytes): (n: nat)
    ensures n == |s| + 1 + width
  {
    |s| + 1 + width
  }

  /// The error of a declared length above the size limit.
  function TooLong(size: nat, len: nat): ProtoError
  {
    ProtoError(Decoding("NowString"),
               Some(StringTooLong(len, Name(size))),
               None)
  }

  /// The error of a declared length larger than the bytes left.
  function NotEnoughBytes(size: nat, len: nat): ProtoError
  {
    ProtoError(Decoding("NowString"),
               Some(StringShort(Name(size), len)),
               Some(FromIo(Io.Eof)))
  }

  /// What follows a declared length `len`: the bytes, then one terminator
  /// byte whatever its value, then the UTF-8 check.
  function DecodeBody(size: nat, len: nat, b: Bytes): (r: Result<Step<Bytes>>)
    ensures r.Ok? ==> len + 1 <= |b| && r.value.value == b[..len] && r.value.rest == b[len + 1..]
                      && Utf8(r.value.value)
  {
    if len > |b| then Err(NotEnoughBytes(size, len))
    else if len + 1 > |b| then Err(FromIo(Io.Eof))
    else
      var data := b[..len];
      if !Utf8(data) then Err(ProtoError(Decoding("NowString"), None, Some(FromUtf8Error())))
      else Ok(Step(data, b[len + 1..]))
  }

  /// `decode_from`: the length, rejected above the limit before any data is
  /// read, then the body.
  function Decode(size: nat, width: nat, b: Bytes): (r: Result<Step<Bytes>>)
    requires Kind(size, width)
    ensures r.Ok? ==> |r.value.rest| < |b| - width
  {
    var len :- Lift(Io.TakeUInt(b, width));
    if len.value > size then Err(TooLong(size, len.value))
    else DecodeBody(size, len.value, len.rest)
  }

  /// What a successful decode means: the declared length is within the
  /// limit, the string is the bytes after the length and is UTF-8, and one
  /// more byte is consumed after it; a declared length over the limit is
  /// always the size error.
  lemma DecodeMeaning(size: nat, width: nat, b: Bytes)
    requires Kind(size, width)
    ensures var r := Decode(size, width, b);
            r.Ok? ==> width <= |b| && var len := LeValue(b[..width]);
                      len <= size && width + len + 1 <= |b|
                      && r.value.value == b[width..width + len] && r.value.rest == b[width + len + 1..]
                      && Utf8(r.value.value)
    ensures width <= |b| && LeValue(b[..width]) > size ==>
              Decode(size, width, b) == Err(TooLong(size, LeValue(b[..width])))
  {
    if width <= |b| {
      var len := LeValue(b[..width]);
      if width + len + 1 <= |b| {
        assert b[width..][..len] == b[width..width + len];
        assert b[width..][len + 1..] == b[width + len + 1..];
      }
    }
  }

  /// The longest string the length field can carry.
  function MaxForWidth(width: nat): nat
  {
    Pow256(width) - 1
  }

  /// `encode_into` as written: the length conversion is unwrapped, so a
  /// string the length field cannot hold panics.
  function EncodeAsWritten(width: nat, s: Bytes): (r: Io.Panicking<Bytes>)
    ensures r.Panicked? <==> |s| > MaxForWidth(width)
    ensures r.Returned? ==> r.value == Encode(width, s)
  {
    if |s| > MaxForWidth(width) then Io.Panicked
    else Io.Returned(LeBytes(|s|, width) + s + [0])
  }

  /// `try_from` as written: only the size limit is checked.
  function TryFromAsWritten(size: nat, s: Bytes): (r: Result<Bytes>)
    ensures r.Ok? <==> |s| <= size
    ensures r.Ok? ==> r.value == s
  {
    if |s| > size then
      Err(ProtoError(Decoding("NowString"),
                     Some(StringOverLimit(|s|, Name(size))),
                     None))
    else Ok(s)
  }

  /// `NowString256` accepts a 256-byte string that its `u8` length field
  /// cannot encode.
  lemma NowString256AcceptsUnencodable(s: Bytes)
    requires |s| == 256
    ensures TryFromAsWritten(256, s) == Ok(s)
    ensures EncodeAsWritten(1, s) == Io.Panicked
  {
    Pow256Widths();
  }

  /// The size limit a string must meet: the declared `Size`, capped at what
  /// the length field can hold.
  function Limit(size: nat, width: nat): (n: nat)
    requires Kind(size, width)
    ensures n <= size && n <= MaxForWidth(width)
    ensures size < Pow256(width) ==> n == size
  {
    Pow256Widths();
    Min(size, MaxForWidth(width))
  }

  /// `try_from`/`from_str` with the limit every encodable string meets.
  function TryFrom(size: nat, width: nat, s: Bytes): (r: Result<Bytes>)
    requires Kind(size, width)
    ensures r.Ok? <==> |s| <= Limit(size, width)
    ensures r.Ok? ==> r.value == s
  {
    if |s| > Limit(size, width) then
      Err(ProtoError(Decoding("NowString"),
                     Some(StringOverLimit(|s|, Name(size))),
                     None))
    else Ok(s)
  }

  /// Everything the corrected `try_from` accepts encodes without panicking.
  lemma AcceptedStringsEncode(size: nat, width: nat, s: Bytes)
    requires Kind(size, width) && TryFrom(size, width, s).Ok?
    ensures EncodeAsWritten(width, s) == Io.Returned(Encode(width, s))
  {
  }

  /// `encode_into` of a string that fits its length field: the length, the
  /// bytes, and a zero terminator.
  function Encode(width: nat, s: Bytes): (e: Bytes)
    requires |s| <= MaxForWidth(width)
    ensures |e| == EncodedLen(width, s)
    ensures e[width..width + |s|] == s && e[|e| - 1] == 0
  {
    LeBytes(|s|, width) + s + [0]
  }

  /// `helper_write_into` with the corrected limit: too long is an encoding
  /// error, otherwise the same bytes as `encode_into`.
  function WriteChecked(size: nat, width: nat, s: Bytes): (r: Result<Bytes>)
    requires Kind(size, width)
    ensures r.Ok? <==> |s| <= Limit(size, width)
    ensures r.Ok? ==> r.value == Encode(width, s)
  {
    if |s| > Limit(size, width) then
      Err(ProtoError(Encoding("NowString"),
                     Some(StringOverLimit(|s|, Name(size))),
                     None))
    else Ok(Encode(width, s))
  }

  /// The terminator is consumed but not checked: a string followed by any
  /// byte in the terminator's place decodes as if the byte were zero.
  lemma TerminatorNotChecked(size: nat, width: nat, s: Bytes, t: u8, rest: Bytes)
    requires Kind(size, width) && |s| <= Limit(size, width) && Utf8(s)
    ensures Decode(size, width, LeBytes(|s|, width) + s + [t] + rest) == Ok(Step(s, rest))
  {
    var tail := s + ([t] + rest);
    var e := LeBytes(|s|, width) + s + [t] + rest;
    assert Lift(Io.TakeUInt(e, width)) == Ok(Step(|s|, tail)) by {
      assert e == LeBytes(|s|, width) + tail;
      Io.TakeUIntOfLeBytes(|s|, width, tail);
    }
    assert |s| <= size;
    BodyAnyTerminator(size, s, t, rest);
  }

  lemma BodyAnyTerminator(size: nat, s: Bytes, t: u8, rest: Bytes)
    requires Utf8(s)
    ensures DecodeBody(size, |s|, s + ([t] + rest)) == Ok(Step(s, rest))
  {
    var tail := s + ([t] + rest);
    assert tail[..|s|] == s;
    assert tail[|s| + 1..] == rest;
  }

  /// Decoding a valid string's encoding gives it back and leaves whatever
  /// follows the terminator unread.
  lemma RoundTrip(size: nat, width: nat, s: Bytes, rest: Bytes)
    requires Kind(size, width) && |s| <= Limit(size, width) && Utf8(s)
    ensures Decode(size, width, Encode(width, s) + rest) == Ok(Step(s, rest))
  {
    TerminatorNotChecked(size, width, s, 0, rest);
  }

  /// "简介" as `NowString64` and `NowString65535`.
  const Chinese: Bytes := [0xe7, 0xae, 0x80, 0xe4, 0xbb, 0x8b]

  lemma ChineseVectors()
    ensures Decode(64, 1, [0x06] + Chinese + [0x00]) == Ok(Step(Chinese, []))
    ensures Encode(1, Chinese) == [0x06] + Chinese + [0x00]
    ensures EncodedLen(1, Chinese) == 8
    ensures Decode(65535, 2, [0x06, 0x00] + Chinese + [0x00]) == Ok(Step(Chinese, []))
    ensures Encode(2, Chinese) == [0x06, 0x00] + Chinese + [0x00]
  {
    Pow256Widths();
    assert Utf8SeqLen(Chinese, 0) == 3 && Utf8SeqLen(Chinese, 3) == 3;
    assert Utf8From(Chinese, 6) && Utf8Next(Chinese, 3) && Utf8From(Chinese, 3) && Utf8Next(Chinese, 0);
    assert LeBytes(6, 1) == [0x06];
    assert LeBytes(6, 2) == [0x06, 0x00];
    RoundTrip(64, 1, Chinese, []);
    RoundTrip(65535, 2, Chinese, []);
    assert Encode(1, Chinese) + [] == Encode(1, Chinese);
    assert Encode(2, Chinese) + [] == Encode(2, Chinese);
  }

  /// A declared length of 8 with only 7 bytes after it.
  lemma ShortVector()
    ensures Decode(64, 1, [0x08] + Chinese + [0x00]) == Err(NotEnoughBytes(64, 8))
  {
    var b: Bytes := [0x08] + Chinese + [0x00];
    assert b[..1] == [0x08] && LeValue([0x08]) == 8;
  }

  lemma TooBigVector()
    ensures Decode(64, 1, [65] + seq(65, _ => 0)) == Err(TooLong(64, 65))
  {
    var b: Bytes := [65] + seq(65, _ => 0);
    assert b[..1] == [65] && LeValue([65]) == 65;
  }
}
