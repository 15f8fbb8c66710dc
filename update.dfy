/// `NowUpdateMsg`: graphics updates of a surface and the refresh and
/// suppress requests for regions of it. A meta enum on a one-byte subtype
/// with a fallback variant that keeps the undecoded rest of the buffer.
module Update {
  import opened Wire
  import opened Errors
  import opened Derived
  import Flags
  import Layout
  import Containers
  import Rects
  import Capsets

  const Ty := "NowUpdateMsg"
  const GraphicsTy := "NowUpdateGraphicsMsg"
  const RefreshTy := "NowUpdateRefreshMsg"
  const SuppressTy := "NowUpdateSuppressMsg"
  const RegionTy := "NowUpdateRegion"

  /// `UpdateMessageType`, with its fallback `Other(v)`.
  datatype UpdateMessageType = GraphicsSubtype | RefreshSubtype | SuppressSubtype | Other(value: u8)

  function MessageTypeFromU8(v: u8): (t: UpdateMessageType)
    ensures t.Other? <==> v !in {1, 2, 3}
    ensures t.Other? ==> t.value == v
  {
    match v
    case 1 => GraphicsSubtype
    case 2 => RefreshSubtype
    case 3 => SuppressSubtype
    case _ => Other(v)
  }

  function MessageTypeToU8(t: UpdateMessageType): u8
  {
    match t
    case GraphicsSubtype => 1
    case RefreshSubtype => 2
    case SuppressSubtype => 3
    case Other(v) => v
  }

  /// `Other(v)` only stands for a value outside the table.
  predicate MessageTypeCanonical(t: UpdateMessageType)
  {
    t.Other? ==> t.value !in {1, 2, 3}
  }

  /// The two directions of the subtype table.
  lemma MessageTypeTable(t: UpdateMessageType)
    ensures forall v: u8 :: MessageTypeCanonical(MessageTypeFromU8(v)) && MessageTypeToU8(MessageTypeFromU8(v)) == v
    ensures MessageTypeCanonical(t) ==> MessageTypeFromU8(MessageTypeToU8(t)) == t
  {
  }

  /// `UpdateGraphicsFlags`: the first and the last update of a frame.
  const FrameFirst: Flags.Word := 0x0000_0001
  const FrameLast: Flags.Word := 0x0000_0002

  /// The two frame flags are distinct bits: setting one leaves the other
  /// as it was.
  lemma FrameFlagsIndependent(v: Flags.Word)
    ensures Flags.Has(Flags.With(v, FrameFirst), FrameLast) <==> Flags.Has(v, FrameLast)
    ensures Flags.Has(Flags.With(v, FrameLast), FrameFirst) <==> Flags.Has(v, FrameFirst)
    ensures Flags.Has(Flags.With(v, FrameFirst), FrameFirst) && Flags.Has(Flags.With(v, FrameLast), FrameLast)
  {
    Flags.LowFlagsDisjoint();
    Flags.DisjointFlagsUnaffected(v, FrameFirst, FrameLast);
    Flags.DisjointFlagsUnaffected(v, FrameLast, FrameFirst);
    Flags.SetThenTest(v, FrameFirst);
    Flags.SetThenTest(v, FrameLast);
  }

  /// `UpdateRegionFlag`, with its fallback `Other(v)`.
  datatype UpdateRegionFlag = Null | Full | OtherFlag(value: u8)

  function RegionFlagFromU8(v: u8): (f: UpdateRegionFlag)
    ensures f.OtherFlag? <==> v !in {1, 2}
  {
    match v
    case 1 => Null
    case 2 => Full
    case _ => OtherFlag(v)
  }

  function RegionFlagToU8(f: UpdateRegionFlag): u8
  {
    match f
    case Null => 1
    case Full => 2
    case OtherFlag(v) => v
  }

  predicate RegionFlagCanonical(f: UpdateRegionFlag)
  {
    f.OtherFlag? ==> f.value !in {1, 2}
  }

  lemma RegionFlagTable(f: UpdateRegionFlag)
    ensures forall v: u8 :: RegionFlagCanonical(RegionFlagFromU8(v)) && RegionFlagToU8(RegionFlagFromU8(v)) == v
    ensures RegionFlagCanonical(f) ==> RegionFlagFromU8(RegionFlagToU8(f)) == f
  {
  }

  // ---------------------------------------------------------------- regions

  /// `NowUpdateRegion`: a surface, how much of it, and its rectangles as a
  /// `Vec8`.
  datatype NowUpdateRegion = NowUpdateRegion(surfaceId: u16, flags: UpdateRegionFlag, rects: seq<Rects.SizeRect>)

  const RegionFields := [Layout.UInt("surface_id", "u16", 2), Layout.UInt("flags", "UpdateRegionFlag", 1)]

  /// A size rectangle as a list item: it always encodes.
  function EncodeRect(r: Rects.SizeRect): (e: Result<Bytes>)
    ensures e == Ok(Rects.EncodeSizeRect(r))
  {
    Ok(Rects.EncodeSizeRect(r))
  }

  lemma RectInverse(xs: seq<Rects.SizeRect>)
    ensures Containers.InverseOn(EncodeRect, Rects.DecodeSizeRect, xs)
  {
    forall r, rest: Bytes | r in xs ensures Rects.DecodeSizeRect(EncodeRect(r).value + rest) == Ok(Step(r, rest)) {
      Rects.SizeRectRoundTrip(r, rest);
    }
  }

  function RegionValues(g: NowUpdateRegion): (vs: seq<nat>)
    ensures Layout.Fits(RegionFields, vs)
  {
    Pow256Widths();
    [g.surfaceId, RegionFlagToU8(g.flags)]
  }

  function RegionOf(vs: seq<nat>, rects: seq<Rects.SizeRect>): (g: NowUpdateRegion)
    requires Layout.Fits(RegionFields, vs)
    ensures RegionFlagCanonical(g.flags) && RegionValues(g) == vs && g.rects == rects
  {
    Pow256Widths();
    assert vs[0] < Pow256(2) && vs[1] < Pow256(1);
    RegionFlagTable(Null);
    NowUpdateRegion(vs[0], RegionFlagFromU8(vs[1]), rects)
  }

  /// A region's encoding fails exactly when its rectangles overflow the
  /// `u8` count.
  function EncodeRegion(g: NowUpdateRegion): (r: Result<Bytes>)
    ensures r.Ok? <==> |g.rects| < 256
  {
    Pow256Widths();
    Layout.EncodeWithVec(RegionTy, RegionFields, RegionValues(g), "rects", EncodeRect, 1, g.rects)
  }

  /// A region read back: a canonical flag, and no more rectangles than a
  /// `u8` count can announce.
  predicate RegionOk(g: NowUpdateRegion)
  {
    RegionFlagCanonical(g.flags) && |g.rects| < 256
  }

  function DecodeRegion(b: Bytes): (r: Result<Step<NowUpdateRegion>>)
    ensures r.Ok? ==> 4 <= |b| && RegionOk(r.value.value)
  {
    var x :- Layout.DecodeWithVec(RegionTy, RegionFields, "Vec8 < SizeRect >", "rects", Rects.DecodeSizeRect, 1, b);
    Pow256Widths();
    Ok(Step(RegionOf(x.value.0, x.value.1), x.rest))
  }

  lemma RegionRoundTrip(g: NowUpdateRegion, rest: Bytes)
    requires RegionOk(g)
    ensures DecodeRegion(EncodeRegion(g).value + rest) == Ok(Step(g, rest))
  {
    Pow256Widths();
    RectInverse(g.rects);
    Layout.WithVecRoundTrip(RegionTy, RegionFields, RegionValues(g), "Vec8 < SizeRect >", "rects",
                            EncodeRect, Rects.DecodeSizeRect, 1, g.rects, rest);
    RegionFlagTable(g.flags);
  }

  lemma RegionInverse(xs: seq<NowUpdateRegion>)
    requires forall g | g in xs :: RegionOk(g)
    ensures Containers.InverseOn(EncodeRegion, DecodeRegion, xs)
  {
    forall g, rest: Bytes | g in xs && EncodeRegion(g).Ok?
      ensures DecodeRegion(EncodeRegion(g).value + rest) == Ok(Step(g, rest))
    {
      RegionRoundTrip(g, rest);
    }
  }

  lemma RegionDecoderYields()
    ensures Containers.Yields(DecodeRegion, RegionOk)
  {
  }

  // ---------------------------------------------------------------- refresh and suppress

  /// `NowUpdateRefreshMsg` and `NowUpdateSuppressMsg`: the same fields
  /// under two names, the regions last as a `Vec8`.
  datatype RegionsMsg = RegionsMsg(subtype: UpdateMessageType, flags: u8, reserved: u8, regions: seq<NowUpdateRegion>)

  const RegionsFields := [Layout.UInt("subtype", "UpdateMessageType", 1), Layout.UInt("flags", "u8", 1),
                          Layout.UInt("reserved", "u8", 1)]

  function RegionsValues(m: RegionsMsg): (vs: seq<nat>)
    ensures Layout.Fits(RegionsFields, vs)
  {
    Pow256Widths();
    [MessageTypeToU8(m.subtype), m.flags, m.reserved]
  }

  function RegionsOf(vs: seq<nat>, regions: seq<NowUpdateRegion>): (m: RegionsMsg)
    requires Layout.Fits(RegionsFields, vs)
    ensures MessageTypeCanonical(m.subtype) && RegionsValues(m) == vs && m.regions == regions
  {
    Pow256Widths();
    assert vs[0] < Pow256(1) && vs[1] < Pow256(1) && vs[2] < Pow256(1);
    MessageTypeTable(Other(0));
    RegionsMsg(MessageTypeFromU8(vs[0]), vs[1], vs[2], regions)
  }

  /// Every region must fit its own count and the regions theirs.
  predicate RegionsFit(m: RegionsMsg)
  {
    |m.regions| < 256 && forall g | g in m.regions :: |g.rects| < 256
  }

  function EncodeRegions(ty: string, m: RegionsMsg): (r: Result<Bytes>)
    ensures r.Ok? <==> RegionsFit(m)
    ensures r.Ok? ==> |r.value| > 0 && r.value[0] == MessageTypeToU8(m.subtype)
  {
    Pow256Widths();
    Layout.FirstByte(RegionsFields, RegionsValues(m));
    Layout.EncodeWithVec(ty, RegionsFields, RegionsValues(m), "regions", EncodeRegion, 1, m.regions)
  }

  /// The derived decoder of the struct named `ty`; the subtype is read and
  /// kept, not checked.
  function DecodeRegions(ty: string, b: Bytes): (r: Result<Step<RegionsMsg>>)
    ensures r.Ok? ==> 4 <= |b| && MessageTypeCanonical(r.value.value.subtype)
                      && r.value.value.subtype == MessageTypeFromU8(b[0])
                      && |r.value.value.regions| < 256 && forall g | g in r.value.value.regions :: RegionOk(g)
  {
    var x :- Layout.DecodeWithVec(ty, RegionsFields, "Vec8 < NowUpdateRegion >", "regions", DecodeRegion, 1, b);
    RegionDecoderYields();
    Layout.WithVecYields(ty, RegionsFields, "Vec8 < NowUpdateRegion >", "regions", DecodeRegion, RegionOk, 1, b);
    Layout.FirstByte(RegionsFields, x.value.0);
    Pow256Widths();
    MessageTypeTable(Other(0));
    Ok(Step(RegionsOf(x.value.0, x.value.1), x.rest))
  }

  lemma RegionsRoundTrip(ty: string, m: RegionsMsg, rest: Bytes)
    requires MessageTypeCanonical(m.subtype) && forall g | g in m.regions :: RegionOk(g)
    requires |m.regions| < 256
    ensures EncodeRegions(ty, m).Ok?
    ensures DecodeRegions(ty, EncodeRegions(ty, m).value + rest) == Ok(Step(m, rest))
  {
    Pow256Widths();
    RegionInverse(m.regions);
    Layout.WithVecRoundTrip(ty, RegionsFields, RegionsValues(m), "Vec8 < NowUpdateRegion >", "regions",
                            EncodeRegion, DecodeRegion, 1, m.regions, rest);
    MessageTypeTable(m.subtype);
  }

  // ---------------------------------------------------------------- graphics

  /// `NowUpdateGraphicsMsg::REQUIRED_SIZE`: the fixed fields, the update
  /// rectangle and the data's length.
  const GraphicsRequiredSize: nat := 24

  /// `NowUpdateGraphicsMsg`: which codec, surface and frame, the frame
  /// flags, the rectangle updated, and the codec's data as a `Bytes32`.
  datatype GraphicsMsg = GraphicsMsg(subtype: UpdateMessageType, flags: u8, codecId: Capsets.Codec, surfaceId: u16,
                                     frameId: u16, updateFlags: u32, updateRect: Rects.SizeRect, updateData: Bytes)

  const GraphicsFields := [Layout.UInt("subtype", "UpdateMessageType", 1), Layout.UInt("flags", "u8", 1),
                           Layout.UInt("codec_id", "Codec", 2), Layout.UInt("surface_id", "u16", 2),
                           Layout.UInt("frame_id", "u16", 2), Layout.FlagsOf("update_flags", "UpdateGraphicsFlags", 4)]

  /// The required size is the fixed fields, the rectangle and the data's
  /// length field: what every graphics message takes besides its data.
  lemma GraphicsRequiredSizeIsFixedPart()
    ensures GraphicsRequiredSize == Layout.Size(GraphicsFields) + Rects.RequiredSize + 4
  {
  }

  function GraphicsValues(m: GraphicsMsg): (vs: seq<nat>)
    ensures Layout.Fits(GraphicsFields, vs)
  {
    Pow256Widths();
    [MessageTypeToU8(m.subtype), m.flags, Capsets.CodecToU16(m.codecId), m.surfaceId, m.frameId, m.updateFlags]
  }

  /// The message whose fixed fields read as `vs`.
  function GraphicsOf(vs: seq<nat>, rect: Rects.SizeRect, data: Bytes): (m: GraphicsMsg)
    requires Layout.Fits(GraphicsFields, vs)
    ensures GraphicsCanonical(m) && GraphicsValues(m) == vs && m.updateRect == rect && m.updateData == data
  {
    Pow256Widths();
    assert vs[0] < Pow256(1) && vs[1] < Pow256(1) && vs[2] < Pow256(2);
    assert vs[3] < Pow256(2) && vs[4] < Pow256(2) && vs[5] < Pow256(4);
    MessageTypeTable(Other(0));
    var codec := Capsets.CodecFromU16(vs[2]);
    GraphicsMsg(MessageTypeFromU8(vs[0]), vs[1], codec, vs[3], vs[4], vs[5], rect, data)
  }

  /// The values a decoder can return: the subtype and codec as their
  /// tables give them.
  predicate GraphicsCanonical(m: GraphicsMsg)
  {
    MessageTypeCanonical(m.subtype) && Capsets.CodecCanonical(m.codecId)
  }

  /// The derived encoder: fails only when the data overflows its `u32`
  /// length.
  function EncodeGraphics(m: GraphicsMsg): (r: Result<Bytes>)
    ensures r.Ok? <==> |m.updateData| < 0x1_0000_0000
    ensures r.Ok? ==> |r.value| == GraphicsRequiredSize + |m.updateData| && r.value[0] == MessageTypeToU8(m.subtype)
  {
    Pow256Widths();
    Layout.FirstByte(GraphicsFields, GraphicsValues(m));
    var data :- OutField(GraphicsTy, "update_data", Containers.EncodeBytes(4, m.updateData));
    Ok(Layout.Encode(GraphicsFields, GraphicsValues(m)) + Rects.EncodeSizeRect(m.updateRect) + data)
  }

  /// The fixed part: the fields and the update rectangle.
  function DecodeGraphicsHead(b: Bytes): (r: Result<Step<(seq<nat>, Rects.SizeRect)>>)
    ensures r.Ok? <==> 20 <= |b|
    ensures r.Ok? ==> r.value.rest == b[20..] && Layout.Fits(GraphicsFields, r.value.value.0)
                      && r.value.value.0[0] == b[0]
  {
    var x :- Layout.Decode(GraphicsTy, GraphicsFields, b);
    var rect :- InField(GraphicsTy, "SizeRect", "update_rect", Rects.DecodeSizeRect(x.rest));
    Layout.FirstByte(GraphicsFields, x.value);
    Ok(Step((x.value, rect.value), rect.rest))
  }

  /// The derived decoder with a `Bytes32` that moves past its data.
  function DecodeGraphics(b: Bytes): (r: Result<Step<GraphicsMsg>>)
    ensures r.Ok? ==> GraphicsCanonical(r.value.value) && 0 < |b| && r.value.value.subtype == MessageTypeFromU8(b[0])
                      && |r.value.value.updateData| < 0x1_0000_0000
  {
    var head :- DecodeGraphicsHead(b);
    var data :- InField(GraphicsTy, "Bytes32", "update_data", Containers.DecodeBytes(4, head.rest));
    MessageTypeTable(Other(0));
    Pow256Widths();
    Ok(Step(GraphicsOf(head.value.0, head.value.1, data.value), data.rest))
  }

  /// A graphics message decodes exactly when the fixed part and the data
  /// its length announces are there; the data is those bytes, and reading
  /// stops right after them.
  lemma DecodeGraphicsMeaning(b: Bytes)
    ensures DecodeGraphics(b).Ok? <==> 24 <= |b| && 24 + LeValue(b[20..24]) <= |b|
    ensures DecodeGraphics(b).Ok? ==>
              var n := LeValue(b[20..24]);
              DecodeGraphics(b).value.value.updateData == b[24..24 + n] && DecodeGraphics(b).value.rest == b[24 + n..]
  {
    if 24 <= |b| {
      var rest := b[20..];
      assert rest[..4] == b[20..24];
      if 24 + LeValue(b[20..24]) <= |b| {
        var n := LeValue(b[20..24]);
        assert rest[4..4 + n] == b[24..24 + n] && rest[4 + n..] == b[24 + n..];
      }
    }
  }

  /// The derived decoder as written: `Bytes32` returns its data but leaves
  /// the cursor on it.
  function DecodeGraphicsAsWritten(b: Bytes): (r: Result<Step<GraphicsMsg>>)
    ensures r.Ok? ==> 24 <= |b| && r.value.rest == b[24..]
  {
    var head :- DecodeGraphicsHead(b);
    var data :- InField(GraphicsTy, "Bytes32", "update_data", Containers.DecodeBytesAsWritten(4, head.rest));
    Ok(Step(GraphicsOf(head.value.0, head.value.1, data.value), data.rest))
  }

  lemma GraphicsRoundTrip(m: GraphicsMsg, rest: Bytes)
    requires GraphicsCanonical(m) && |m.updateData| < 0x1_0000_0000
    ensures DecodeGraphics(EncodeGraphics(m).value + rest) == Ok(Step(m, rest))
  {
    Pow256Widths();
    var h, e, d := Layout.Encode(GraphicsFields, GraphicsValues(m)), Rects.EncodeSizeRect(m.updateRect),
                   Containers.EncodeBytes(4, m.updateData).value;
    assert EncodeGraphics(m).value + rest == h + (e + (d + rest));
    Layout.RoundTrip(GraphicsTy, GraphicsFields, GraphicsValues(m), e + (d + rest));
    Rects.SizeRectRoundTrip(m.updateRect, d + rest);
    Containers.BytesRoundTrip(4, m.updateData, rest);
    MessageTypeTable(m.subtype);
    Capsets.CodecTable(m.codecId);
  }

  /// As written, a graphics message reads back, but its data is left unread
  /// in front of what follows it.
  lemma GraphicsAsWrittenLeavesData(m: GraphicsMsg, rest: Bytes)
    requires GraphicsCanonical(m) && |m.updateData| < 0x1_0000_0000
    ensures DecodeGraphicsAsWritten(EncodeGraphics(m).value + rest) == Ok(Step(m, m.updateData + rest))
  {
    Pow256Widths();
    var h, e, d := Layout.Encode(GraphicsFields, GraphicsValues(m)), Rects.EncodeSizeRect(m.updateRect),
                   Containers.EncodeBytes(4, m.updateData).value;
    assert EncodeGraphics(m).value + rest == h + (e + (d + rest));
    Layout.RoundTrip(GraphicsTy, GraphicsFields, GraphicsValues(m), e + (d + rest));
    Rects.SizeRectRoundTrip(m.updateRect, d + rest);
    Containers.BytesAsWrittenRereadsPayload(4, m.updateData, rest);
    MessageTypeTable(m.subtype);
    Capsets.CodecTable(m.codecId);
  }

  // ---------------------------------------------------------------- meta enum

  datatype NowUpdateMsg =
    | Graphics(graphics: GraphicsMsg)
    | Refresh(refresh: RegionsMsg)
    | Suppress(suppress: RegionsMsg)
    | Custom(payload: Bytes)

  /// The derived meta-enum encoder: data or lists too long for their
  /// counts fail, the fallback writes its bytes as they are.
  function Encode(m: NowUpdateMsg): (r: Result<Bytes>)
    ensures m.Graphics? ==> (r.Ok? <==> |m.graphics.updateData| < 0x1_0000_0000)
    ensures m.Refresh? ==> (r.Ok? <==> RegionsFit(m.refresh))
    ensures m.Suppress? ==> (r.Ok? <==> RegionsFit(m.suppress))
    ensures m.Custom? ==> r == Ok(m.payload)
  {
    match m
    case Graphics(s) => OutVariant(Ty, "UpdateGraphics", EncodeGraphics(s))
    case Refresh(s) => OutVariant(Ty, "UpdateRefresh", EncodeRegions(RefreshTy, s))
    case Suppress(s) => OutVariant(Ty, "UpdateSuppress", EncodeRegions(SuppressTy, s))
    case Custom(payload) => Ok(payload)
  }

  /// A message whose subtype field names its own variant, holding values
  /// the decoders can return and that fit their counts; a custom payload
  /// starts with an unlisted subtype.
  predicate WellFormed(m: NowUpdateMsg)
  {
    match m
    case Graphics(s) => s.subtype == GraphicsSubtype && GraphicsCanonical(s) && |s.updateData| < 0x1_0000_0000
    case Refresh(s) => s.subtype == RefreshSubtype && |s.regions| < 256 && forall g | g in s.regions :: RegionOk(g)
    case Suppress(s) => s.subtype == SuppressSubtype && |s.regions| < 256 && forall g | g in s.regions :: RegionOk(g)
    case Custom(payload) => |payload| > 0 && payload[0] !in {1, 2, 3}
  }

  function GraphicsVariant(b: Bytes): (r: Result<Step<NowUpdateMsg>>)
    requires 0 < |b| && b[0] == 1
    ensures r.Ok? ==> WellFormed(r.value.value)
  {
    var s :- InVariant(Ty, "UpdateGraphics", DecodeGraphics(b));
    Ok(Step(Graphics(s.value), s.rest))
  }

  function RefreshVariant(b: Bytes): (r: Result<Step<NowUpdateMsg>>)
    requires 0 < |b| && b[0] == 2
    ensures r.Ok? ==> WellFormed(r.value.value)
  {
    var s :- InVariant(Ty, "UpdateRefresh", DecodeRegions(RefreshTy, b));
    Ok(Step(Refresh(s.value), s.rest))
  }

  function SuppressVariant(b: Bytes): (r: Result<Step<NowUpdateMsg>>)
    requires 0 < |b| && b[0] == 3
    ensures r.Ok? ==> WellFormed(r.value.value)
  {
    var s :- InVariant(Ty, "UpdateSuppress", DecodeRegions(SuppressTy, b));
    Ok(Step(Suppress(s.value), s.rest))
  }

  /// The derived meta-enum decoder: the subtype is peeked; a listed subtype
  /// decodes its variant from the same bytes, any other keeps all of them
  /// and leaves them unread.
  function Decode(b: Bytes): (r: Result<Step<NowUpdateMsg>>)
    ensures r.Ok? ==> 0 < |b| && WellFormed(r.value.value)
    ensures 0 < |b| && b[0] !in {1, 2, 3} ==> r == Ok(Step(Custom(b), b))
  {
    var raw :- Subtype(Ty, 1, b);
    assert raw == b[0] by { assert b[..1] == [b[0]]; }
    match MessageTypeFromU8(raw)
    case GraphicsSubtype => GraphicsVariant(b)
    case RefreshSubtype => RefreshVariant(b)
    case SuppressSubtype => SuppressVariant(b)
    case Other(_) =>
      var all := Rest(b);
      Ok(Step(Custom(all.value), all.rest))
  }

  lemma FirstByte(b: Bytes, v: u8)
    requires 0 < |b| && b[0] == v
    ensures Subtype(Ty, 1, b) == Ok(v as nat)
  {
    assert b[..1] == [v];
  }

  lemma GraphicsReadsBack(s: GraphicsMsg, rest: Bytes)
    requires WellFormed(Graphics(s))
    ensures EncodeGraphics(s).Ok? && Decode(EncodeGraphics(s).value + rest) == Ok(Step(Graphics(s), rest))
  {
    var e := EncodeGraphics(s).value + rest;
    GraphicsRoundTrip(s, rest);
    FirstByte(e, 1);
    assert InVariant(Ty, "UpdateGraphics", DecodeGraphics(e)) == Ok(Step(s, rest));
  }

  lemma RefreshReadsBack(s: RegionsMsg, rest: Bytes)
    requires WellFormed(Refresh(s))
    ensures EncodeRegions(RefreshTy, s).Ok?
    ensures Decode(EncodeRegions(RefreshTy, s).value + rest) == Ok(Step(Refresh(s), rest))
  {
    RegionsRoundTrip(RefreshTy, s, rest);
    var e := EncodeRegions(RefreshTy, s).value + rest;
    FirstByte(e, 2);
    assert InVariant(Ty, "UpdateRefresh", DecodeRegions(RefreshTy, e)) == Ok(Step(s, rest));
  }

  lemma SuppressReadsBack(s: RegionsMsg, rest: Bytes)
    requires WellFormed(Suppress(s))
    ensures EncodeRegions(SuppressTy, s).Ok?
    ensures Decode(EncodeRegions(SuppressTy, s).value + rest) == Ok(Step(Suppress(s), rest))
  {
    RegionsRoundTrip(SuppressTy, s, rest);
    var e := EncodeRegions(SuppressTy, s).value + rest;
    FirstByte(e, 3);
    assert InVariant(Ty, "UpdateSuppress", DecodeRegions(SuppressTy, e)) == Ok(Step(s, rest));
  }

  /// Decoding an encoded well-formed message gives it back and leaves what
  /// follows it unread; a custom message takes every byte after it too and
  /// leaves them all unread, so it comes back only when nothing follows it.
  lemma RoundTrip(m: NowUpdateMsg, rest: Bytes)
    requires WellFormed(m)
    requires m.Custom? ==> rest == []
    ensures Encode(m).Ok?
    ensures m.Custom? ==> Decode(Encode(m).value) == Ok(Step(m, m.payload))
    ensures !m.Custom? ==> Decode(Encode(m).value + rest) == Ok(Step(m, rest))
  {
    match m
    case Graphics(s) => GraphicsReadsBack(s, rest);
    case Refresh(s) => RefreshReadsBack(s, rest);
    case Suppress(s) => SuppressReadsBack(s, rest);
    case Custom(payload) =>
  }

  // ---------------------------------------------------------------- vector

  /// The payload of `WAYK_NOW_UPDATE_GRAPHIC_MSG` after its 6-byte header.
  const GraphicsBytes: Bytes := GraphicsFieldsBytes + Rects.SizeRectBytes + [0x05, 0x00, 0x00, 0x00] + [0x01, 0x02, 0x03, 0x04, 0x05]

  /// Its fixed fields: subtype, flags, codec, surface, frame, frame flags.
  const GraphicsFieldsBytes: Bytes := [0x01, 0x00, 0x02, 0x00, 0x00, 0x00, 0x01, 0x00, 0x03, 0x00, 0x00, 0x00]

  /// The graphics update those bytes hold: JPEG on surface 0, frame 1,
  /// both frame flags, five bytes of data.
  const GraphicsVectorMsg := GraphicsMsg(GraphicsSubtype, 0, Capsets.Jpeg, 0, 1, FrameFirst + FrameLast,
                                         Rects.SizeRect(0x760, 0x424, 12, 12), [1, 2, 3, 4, 5])

  lemma GraphicsFieldBytes()
    ensures Layout.Encode(GraphicsFields, GraphicsValues(GraphicsVectorMsg)) == GraphicsFieldsBytes
  {
    Pow256Widths();
    var fs, vs := GraphicsFields, GraphicsValues(GraphicsVectorMsg);
    Layout.EncodeCons(fs, vs);
    Layout.EncodeCons(fs[1..], vs[1..]);
    Layout.EncodeCons(fs[2..], vs[2..]);
    Layout.EncodeCons(fs[3..], vs[3..]);
    Layout.EncodeCons(fs[4..], vs[4..]);
    Layout.EncodeCons(fs[5..], vs[5..]);
    assert Layout.Encode(fs[6..], vs[6..]) == [];
  }

  /// A graphics message's bytes: the fixed fields, the rectangle, the
  /// data's length and the data.
  lemma GraphicsParts(m: GraphicsMsg)
    requires |m.updateData| < 0x1_0000_0000
    ensures EncodeGraphics(m).Ok?
    ensures EncodeGraphics(m).value == Layout.Encode(GraphicsFields, GraphicsValues(m)) + Rects.EncodeSizeRect(m.updateRect)
                                       + LeBytes(|m.updateData|, 4) + m.updateData
  {
    Pow256Widths();
  }

  /// That update encodes to the test's bytes.
  lemma GraphicsEncoding()
    ensures EncodeGraphics(GraphicsVectorMsg) == Ok(GraphicsBytes)
  {
    var m := GraphicsVectorMsg;
    GraphicsParts(m);
    var h, e, n := Layout.Encode(GraphicsFields, GraphicsValues(m)), Rects.EncodeSizeRect(m.updateRect), LeBytes(|m.updateData|, 4);
    assert h == GraphicsFieldsBytes by { GraphicsFieldBytes(); }
    assert e == Rects.SizeRectBytes by { Rects.SizeRectVector(); }
    assert n == [5, 0, 0, 0];
    assert EncodeGraphics(m).value == h + e + n + m.updateData;
  }

  /// The test's bytes decode to that update, with nothing left over, as
  /// the graphics struct and as the meta enum.
  lemma GraphicsVector()
    ensures EncodeGraphics(GraphicsVectorMsg) == Ok(GraphicsBytes)
    ensures DecodeGraphics(GraphicsBytes) == Ok(Step(GraphicsVectorMsg, []))
    ensures Decode(GraphicsBytes) == Ok(Step(Graphics(GraphicsVectorMsg), []))
  {
    GraphicsEncoding();
    assert GraphicsBytes + [] == GraphicsBytes;
    assert WellFormed(Graphics(GraphicsVectorMsg));
    GraphicsReadsBack(GraphicsVectorMsg, []);
    GraphicsRoundTrip(GraphicsVectorMsg, []);
  }
}
