/// The `Encode`/`Decode` impls of the primitive types: little-endian
/// integers of every width, `[u32; 4]` and raw byte slices.
///
/// Decoders are functions of the bytes still unread at the cursor, returning
/// the value and the bytes left after it; encoders return the bytes written.
module Serialization {
  import opened Wire
  import opened Errors
  import Io

  /// The widths of `u8`/`i8` … `u128`/`i128`.
  predicate IntWidth(width: nat) { width in {1, 2, 4, 8, 16} }

  /// `encode_into` of an unsigned integer of `width` bytes.
  function EncodeUInt(v: nat, width: nat): (e: Bytes)
    requires v < Pow256(width)
    ensures |e| == width
  {
    LeBytes(v, width)
  }

  /// `encode_into` of a signed integer of `width` bytes.
  function EncodeInt(v: int, width: nat): (e: Bytes)
    requires width > 0 && -(Pow256(width) / 2 as int) <= v < Pow256(width) / 2
    ensures |e| == width
  {
    LeBytes(ToTwos(v, width), width)
  }

  /// `decode_from` of an unsigned integer of `width` bytes.
  function DecodeUInt(b: Bytes, width: nat): (r: Result<Step<nat>>)
    ensures r.Ok? <==> width <= |b|
    ensures r.Ok? ==> r.value.rest == b[width..] && r.value.value < Pow256(width)
    ensures r.Err? ==> r.error == FromIo(Io.Eof)
  {
    Lift(Io.TakeUInt(b, width))
  }

  /// `decode_from` of a signed integer of `width` bytes.
  function DecodeInt(b: Bytes, width: nat): (r: Result<Step<int>>)
    requires width > 0
    ensures r.Ok? <==> width <= |b|
    ensures r.Ok? ==> r.value.rest == b[width..]
    ensures r.Ok? ==> -(Pow256(width) / 2 as int) <= r.value.value < Pow256(width) / 2
    ensures r.Err? ==> r.error == FromIo(Io.Eof)
  {
    Lift(Io.TakeInt(b, width))
  }

  /// Decoding an unsigned integer in front of any bytes gives it back and
  /// leaves exactly those bytes unread.
  lemma UIntRoundTrip(v: nat, width: nat, rest: Bytes)
    requires v < Pow256(width)
    ensures DecodeUInt(EncodeUInt(v, width) + rest, width) == Ok(Step(v, rest))
  {
    Io.TakeUIntOfLeBytes(v, width, rest);
  }

  lemma IntRoundTrip(v: int, width: nat, rest: Bytes)
    requires width > 0 && -(Pow256(width) / 2 as int) <= v < Pow256(width) / 2
    ensures DecodeInt(EncodeInt(v, width) + rest, width) == Ok(Step(v, rest))
  {
    Io.TakeIntOfLeBytes(v, width, rest);
  }

  /// Every byte string of the right width is the encoding of what it decodes to.
  lemma UIntEncodingOfDecoded(b: Bytes, width: nat)
    requires width <= |b|
    ensures DecodeUInt(b, width).Ok?
    ensures EncodeUInt(DecodeUInt(b, width).value.value, width) == b[..width]
  {
    LeBytesOfLeValue(b[..width]);
  }

  /// A `[u32; 4]`.
  type U32Array4 = a: seq<u32> | |a| == 4 witness [0, 0, 0, 0]

  /// `[u32; 4]`: four little-endian `u32` in order.
  function EncodeU32x4(a: seq<u32>): (e: Bytes)
    requires |a| == 4
    ensures |e| == 16
  {
    EncodeUInt(a[0], 4) + EncodeUInt(a[1], 4) + EncodeUInt(a[2], 4) + EncodeUInt(a[3], 4)
  }

  function DecodeU32x4(b: Bytes): (r: Result<Step<seq<u32>>>)
    ensures r.Ok? <==> 16 <= |b|
    ensures r.Ok? ==> |r.value.value| == 4 && r.value.rest == b[16..]
  {
    var x0 :- DecodeUInt(b, 4);
    var x1 :- DecodeUInt(x0.rest, 4);
    var x2 :- DecodeUInt(x1.rest, 4);
    var x3 :- DecodeUInt(x2.rest, 4);
    Ok(Step([x0.value, x1.value, x2.value, x3.value], x3.rest))
  }

  lemma U32x4RoundTrip(a: seq<u32>, rest: Bytes)
    requires |a| == 4
    ensures DecodeU32x4(EncodeU32x4(a) + rest) == Ok(Step(a, rest))
  {
    Pow256Widths();
    var e0, e1, e2, e3 := EncodeUInt(a[0], 4), EncodeUInt(a[1], 4), EncodeUInt(a[2], 4), EncodeUInt(a[3], 4);
    assert EncodeU32x4(a) + rest == e0 + (e1 + (e2 + (e3 + rest)));
    UIntRoundTrip(a[0], 4, e1 + (e2 + (e3 + rest)));
    UIntRoundTrip(a[1], 4, e2 + (e3 + rest));
    UIntRoundTrip(a[2], 4, e3 + rest);
    UIntRoundTrip(a[3], 4, rest);
    assert [a[0], a[1], a[2], a[3]] == a;
  }

  /// Four zeros encode as sixteen zero bytes.
  lemma U32x4Zero()
    ensures EncodeU32x4([0, 0, 0, 0]) == [0, 0, 0, 0] + [0, 0, 0, 0] + [0, 0, 0, 0] + [0, 0, 0, 0]
  {
    Pow256Widths();
    LeBytesZero(4);
    assert seq(4, _ => 0) == [0, 0, 0, 0];
  }

  /// `&[u8]`: the bytes themselves, with no length prefix.
  function EncodeRaw(s: Bytes): (e: Bytes)
    ensures |e| == |s|
  {
    s
  }
}
