/// `EdgeRect` and `SizeRect`, the two 8-byte rectangles messages embed.
module Rects {
  import opened Wire
  import opened Errors
  import opened Derived

  /// `REQUIRED_SIZE` of both rectangles: four 2-byte integers.
  const RequiredSize: nat := 8

  /// `EdgeRect`: the four edges, as signed 16-bit integers.
  datatype EdgeRect = EdgeRect(left: i16, top: i16, right: i16, bottom: i16)

  /// `SizeRect`: a signed position and an unsigned extent.
  datatype SizeRect = SizeRect(x: i16, y: i16, width: u16, height: u16)

  /// `Default`: every field zero.
  const DefaultEdgeRect := EdgeRect(0, 0, 0, 0)
  const DefaultSizeRect := SizeRect(0, 0, 0, 0)

  function EncodeEdgeRect(r: EdgeRect): (e: Bytes)
    ensures |e| == RequiredSize
  {
    I16(r.left) + I16(r.top) + I16(r.right) + I16(r.bottom)
  }

  function DecodeEdgeRect(b: Bytes): (r: Result<Step<EdgeRect>>)
    ensures r.Ok? <==> RequiredSize <= |b|
    ensures r.Ok? ==> r.value.rest == b[RequiredSize..]
  {
    var left :- I16Field("EdgeRect", "i16", "left", b);
    var top :- I16Field("EdgeRect", "i16", "top", left.rest);
    var right :- I16Field("EdgeRect", "i16", "right", top.rest);
    var bottom :- I16Field("EdgeRect", "i16", "bottom", right.rest);
    Ok(Step(EdgeRect(left.value, top.value, right.value, bottom.value), bottom.rest))
  }

  /// Decoding an encoded edge rectangle gives it back and leaves what
  /// follows it unread.
  lemma EdgeRectRoundTrip(r: EdgeRect, rest: Bytes)
    ensures DecodeEdgeRect(EncodeEdgeRect(r) + rest) == Ok(Step(r, rest))
  {
    var e0, e1, e2, e3 := I16(r.left), I16(r.top), I16(r.right), I16(r.bottom);
    assert EncodeEdgeRect(r) + rest == e0 + (e1 + (e2 + (e3 + rest)));
    I16RoundTrip("EdgeRect", "i16", "left", r.left, e1 + (e2 + (e3 + rest)));
    I16RoundTrip("EdgeRect", "i16", "top", r.top, e2 + (e3 + rest));
    I16RoundTrip("EdgeRect", "i16", "right", r.right, e3 + rest);
    I16RoundTrip("EdgeRect", "i16", "bottom", r.bottom, rest);
  }

  function EncodeSizeRect(r: SizeRect): (e: Bytes)
    ensures |e| == RequiredSize
  {
    I16(r.x) + I16(r.y) + U16(r.width) + U16(r.height)
  }

  function DecodeSizeRect(b: Bytes): (r: Result<Step<SizeRect>>)
    ensures r.Ok? <==> RequiredSize <= |b|
    ensures r.Ok? ==> r.value.rest == b[RequiredSize..]
  {
    var x :- I16Field("SizeRect", "i16", "x", b);
    var y :- I16Field("SizeRect", "i16", "y", x.rest);
    var width :- U16Field("SizeRect", "u16", "width", y.rest);
    var height :- U16Field("SizeRect", "u16", "height", width.rest);
    Ok(Step(SizeRect(x.value, y.value, width.value, height.value), height.rest))
  }

  lemma SizeRectRoundTrip(r: SizeRect, rest: Bytes)
    ensures DecodeSizeRect(EncodeSizeRect(r) + rest) == Ok(Step(r, rest))
  {
    var e0, e1, e2, e3 := I16(r.x), I16(r.y), U16(r.width), U16(r.height);
    assert EncodeSizeRect(r) + rest == e0 + (e1 + (e2 + (e3 + rest)));
    I16RoundTrip("SizeRect", "i16", "x", r.x, e1 + (e2 + (e3 + rest)));
    I16RoundTrip("SizeRect", "i16", "y", r.y, e2 + (e3 + rest));
    U16RoundTrip("SizeRect", "u16", "width", r.width, e3 + rest);
    U16RoundTrip("SizeRect", "u16", "height", r.height, rest);
    DecodeSizeRectParts(e0 + (e1 + (e2 + (e3 + rest))), r, e1 + (e2 + (e3 + rest)), e2 + (e3 + rest), e3 + rest, rest);
  }

  /// The size rectangle's decoder, given what each of its four fields reads.
  lemma DecodeSizeRectParts(b: Bytes, r: SizeRect, b1: Bytes, b2: Bytes, b3: Bytes, rest: Bytes)
    requires I16Field("SizeRect", "i16", "x", b) == Ok(Step(r.x, b1))
    requires I16Field("SizeRect", "i16", "y", b1) == Ok(Step(r.y, b2))
    requires U16Field("SizeRect", "u16", "width", b2) == Ok(Step(r.width, b3))
    requires U16Field("SizeRect", "u16", "height", b3) == Ok(Step(r.height, rest))
    ensures DecodeSizeRect(b) == Ok(Step(r, rest))
  {
  }

  /// `[0,0, 0,0, 0,4, 0,3]` is the edge rectangle (0, 0, 1024, 768).
  const EdgeRectBytes: Bytes := [0x00, 0x00, 0x00, 0x00, 0x00, 0x04, 0x00, 0x03]

  lemma EdgeRectVector()
    ensures EncodeEdgeRect(EdgeRect(0, 0, 1024, 768)) == EdgeRectBytes
    ensures DecodeEdgeRect(EdgeRectBytes) == Ok(Step(EdgeRect(0, 0, 1024, 768), []))
  {
    Pow256Widths();
    var e := EncodeEdgeRect(EdgeRect(0, 0, 1024, 768));
    assert e == [0x00, 0x00] + [0x00, 0x00] + [0x00, 0x04] + [0x00, 0x03];
    EdgeRectRoundTrip(EdgeRect(0, 0, 1024, 768), []);
    assert e + [] == e;
  }

  /// `[0x60,7, 0x24,4, 0x0c,0, 0x0c,0]` is the size rectangle at (1888, 1060)
  /// of 12 by 12.
  const SizeRectBytes: Bytes := [0x60, 0x07, 0x24, 0x04, 0x0c, 0x00, 0x0c, 0x00]

  lemma SizeRectVector()
    ensures EncodeSizeRect(SizeRect(1888, 1060, 12, 12)) == SizeRectBytes
    ensures DecodeSizeRect(SizeRectBytes) == Ok(Step(SizeRect(1888, 1060, 12, 12), []))
  {
    Pow256Widths();
    var e := EncodeSizeRect(SizeRect(1888, 1060, 12, 12));
    assert e == [0x60, 0x07] + [0x24, 0x04] + [0x0c, 0x00] + [0x0c, 0x00];
    SizeRectRoundTrip(SizeRect(1888, 1060, 12, 12), []);
    assert e + [] == e;
  }
}
