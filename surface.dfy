/// The surface messages: the desktop's surfaces listed, mapped onto outputs
/// and selected, each request answered with a flags word and the request's
/// sequence number.
module Surface {
  import opened Wire
  import opened Errors
  import opened Derived
  import Layout
  import Containers
  import Flags
  import Rects

  const Ty := "NowSurfaceMsg"
  const DefTy := "NowSurfaceDef"
  const MapTy := "NowSurfaceMap"
  const ListReqTy := "NowSurfaceListReqMsg"
  const MapReqTy := "NowSurfaceMapReqMsg"
  const SelectReqTy := "NowSurfaceSelectReqMsg"

  // ---------------------------------------------------------------- value tables

  /// `SurfaceMessageType`, values 1 to 6 and the fallback.
  datatype SurfaceMessageType =
    | ListReqSubtype | ListRspSubtype | MapReqSubtype | MapRspSubtype | SelectReqSubtype | SelectRspSubtype
    | OtherSubtype(value: u8)

  function SubtypeFromByte(v: u8): (t: SurfaceMessageType)
    ensures t.OtherSubtype? <==> !(1 <= v <= 6)
    ensures t.OtherSubtype? ==> t.value == v
  {
    match v
    case 1 => ListReqSubtype
    case 2 => ListRspSubtype
    case 3 => MapReqSubtype
    case 4 => MapRspSubtype
    case 5 => SelectReqSubtype
    case 6 => SelectRspSubtype
    case _ => OtherSubtype(v)
  }

  function SubtypeToByte(t: SurfaceMessageType): u8
  {
    match t
    case ListReqSubtype => 1
    case ListRspSubtype => 2
    case MapReqSubtype => 3
    case MapRspSubtype => 4
    case SelectReqSubtype => 5
    case SelectRspSubtype => 6
    case OtherSubtype(v) => v
  }

  /// `OtherSubtype(v)` only stands for a value outside the table.
  predicate CanonicalSubtype(t: SurfaceMessageType)
  {
    t.OtherSubtype? ==> !(1 <= t.value <= 6)
  }

  lemma SubtypeTable(v: u8, t: SurfaceMessageType)
    ensures CanonicalSubtype(SubtypeFromByte(v)) && SubtypeToByte(SubtypeFromByte(v)) == v
    ensures CanonicalSubtype(t) ==> SubtypeFromByte(SubtypeToByte(t)) == t
  {
  }

  /// `SurfaceOrientation`: the rotation in degrees, and the fallback.
  datatype SurfaceOrientation = Landscape | Portrait | LandscapeFlipped | PortraitFlipped | Other(value: u16)

  function OrientationFromU16(v: u16): (o: SurfaceOrientation)
    ensures o.Other? <==> v !in {0, 90, 180, 270}
    ensures o.Other? ==> o.value == v
  {
    match v
    case 0 => Landscape
    case 90 => Portrait
    case 180 => LandscapeFlipped
    case 270 => PortraitFlipped
    case _ => Other(v)
  }

  function OrientationToU16(o: SurfaceOrientation): u16
  {
    match o
    case Landscape => 0
    case Portrait => 90
    case LandscapeFlipped => 180
    case PortraitFlipped => 270
    case Other(v) => v
  }

  predicate OrientationCanonical(o: SurfaceOrientation) { o.Other? ==> o.value !in {0, 90, 180, 270} }

  lemma OrientationTable(v: u16, o: SurfaceOrientation)
    ensures OrientationCanonical(OrientationFromU16(v)) && OrientationToU16(OrientationFromU16(v)) == v
    ensures OrientationCanonical(o) ==> OrientationFromU16(OrientationToU16(o)) == o
  {
  }

  /// `SurfaceResponseFlags`, on a `u8` word.
  const Failure: Flags.Word := 0x80

  /// `SurfacePropertiesFlags`, on a `u16` word.
  const Primary: Flags.Word := 0x0001
  const Mirrored: Flags.Word := 0x0002
  const Disabled: Flags.Word := 0x0004
  const Selected: Flags.Word := 0x0008

  /// `SurfacePropertiesFlags::default()`: selected and primary.
  const DefaultProperties: Flags.Word := Flags.Set(Selected, Primary)

  /// The default properties are the word 9: primary and selected set,
  /// mirrored and disabled clear.
  lemma DefaultPropertiesValue()
    ensures DefaultProperties == 0x09
    ensures Flags.Has(DefaultProperties, Primary) && Flags.Has(DefaultProperties, Selected)
    ensures !Flags.Has(DefaultProperties, Mirrored) && !Flags.Has(DefaultProperties, Disabled)
  {
    Flags.Pow2Widths();
    assert Flags.Pow2(31) == 0x8000_0000;
    Flags.OrWithZero(4, 31);
    assert Flags.Or(8, 1, 32) == 1 + 2 * Flags.Or(4, 0, 31);
    Flags.HasLowBit(9);
    Flags.SelfAnd(4, 31);
    assert Flags.And(9, 8, 32) == 2 * Flags.And(4, 4, 31);
    Flags.AndWithZero(2, 30);
    assert Flags.And(9, 2, 32) == 2 * Flags.And(4, 1, 31) == 4 * Flags.And(2, 0, 30);
    Flags.AndWithZero(1, 29);
    assert Flags.And(9, 4, 32) == 2 * Flags.And(4, 2, 31) == 4 * Flags.And(2, 1, 30) == 8 * Flags.And(1, 0, 29);
  }

  // ---------------------------------------------------------------- surface definition

  /// The size `NowSurfaceDef::new` writes: the 16 bytes of the fields
  /// encoded.
  const DefRequiredSize: u16 := 16

  const DefFields := [Layout.UInt("size", "u16", 2), Layout.FlagsOf("flags", "SurfacePropertiesFlags", 2),
                      Layout.UInt("surface_id", "u16", 2), Layout.UInt("orientation", "SurfaceOrientation", 2)]

  /// `NowSurfaceDef`: the encoded fields; the DPI, scale and native
  /// rectangle fields are neither encoded nor decoded and are always zero.
  datatype NowSurfaceDef = NowSurfaceDef(size: u16, flags: u16, surfaceId: u16, orientation: SurfaceOrientation,
                                         rect: Rects.EdgeRect)

  /// `NowSurfaceDef::new`: the required size, the default properties, a
  /// landscape orientation.
  function NewDef(surfaceId: u16, rect: Rects.EdgeRect): (d: NowSurfaceDef)
    ensures d.size == DefRequiredSize && d.flags == DefaultProperties && d.orientation == Landscape
    ensures d.surfaceId == surfaceId && d.rect == rect
  {
    Flags.Pow2Widths();
    DefaultPropertiesValue();
    NowSurfaceDef(DefRequiredSize, DefaultProperties, surfaceId, Landscape, rect)
  }

  /// The builders `flags` and `orientation`: one field replaced.
  function DefWithFlags(d: NowSurfaceDef, flags: u16): (e: NowSurfaceDef)
    ensures e.flags == flags && e.(flags := d.flags) == d
  {
    d.(flags := flags)
  }

  function DefWithOrientation(d: NowSurfaceDef, o: SurfaceOrientation): (e: NowSurfaceDef)
    ensures e.orientation == o && e.(orientation := d.orientation) == d
  {
    d.(orientation := o)
  }

  function DefValues(d: NowSurfaceDef): (vs: seq<nat>)
    ensures Layout.Fits(DefFields, vs)
  {
    Pow256Widths();
    [d.size, d.flags, d.surfaceId, OrientationToU16(d.orientation)]
  }

  function EncodeDef(d: NowSurfaceDef): (r: Result<Bytes>)
    ensures r.Ok? && |r.value| == 16
  {
    Ok(Layout.Encode(DefFields, DefValues(d)) + Rects.EncodeEdgeRect(d.rect))
  }

  /// The definition whose fixed fields read as `vs`.
  function DefOf(vs: seq<nat>, rect: Rects.EdgeRect): (d: NowSurfaceDef)
    requires Layout.Fits(DefFields, vs)
    ensures OrientationCanonical(d.orientation) && DefValues(d) == vs && d.rect == rect
  {
    Pow256Widths();
    assert vs[0] < Pow256(2) && vs[1] < Pow256(2) && vs[2] < Pow256(2) && vs[3] < Pow256(2);
    var d := NowSurfaceDef(vs[0], vs[1], vs[2], OrientationFromU16(vs[3]), rect);
    OrientationTable(vs[3], d.orientation);
    d
  }

  /// The derived decoder: 16 bytes, whatever the size field says.
  function DecodeDef(b: Bytes): (r: Result<Step<NowSurfaceDef>>)
    ensures r.Ok? <==> 16 <= |b|
    ensures r.Ok? ==> r.value.rest == b[16..] && OrientationCanonical(r.value.value.orientation)
  {
    var head :- Layout.Decode(DefTy, DefFields, b);
    var rect :- InField(DefTy, "EdgeRect", "rect", Rects.DecodeEdgeRect(head.rest));
    Ok(Step(DefOf(head.value, rect.value), rect.rest))
  }

  lemma DefRoundTrip(d: NowSurfaceDef, rest: Bytes)
    requires OrientationCanonical(d.orientation)
    ensures DecodeDef(EncodeDef(d).value + rest) == Ok(Step(d, rest))
  {
    var h, e := Layout.Encode(DefFields, DefValues(d)), Rects.EncodeEdgeRect(d.rect);
    assert h + e + rest == h + (e + rest);
    Layout.RoundTrip(DefTy, DefFields, DefValues(d), e + rest);
    Rects.EdgeRectRoundTrip(d.rect, rest);
    OrientationTable(0, d.orientation);
  }

  lemma DefInverse(xs: seq<NowSurfaceDef>)
    requires forall d | d in xs :: OrientationCanonical(d.orientation)
    ensures Containers.InverseOn(EncodeDef, DecodeDef, xs)
  {
    forall d, rest: Bytes | d in xs ensures DecodeDef(EncodeDef(d).value + rest) == Ok(Step(d, rest)) {
      DefRoundTrip(d, rest);
    }
  }

  predicate DefOk(d: NowSurfaceDef) { OrientationCanonical(d.orientation) }

  lemma DefDecoderYields()
    ensures Containers.Yields(DecodeDef, DefOk)
  {
  }

  // ---------------------------------------------------------------- surface map

  /// `NowSurfaceMap::REQUIRED_SIZE`, the in-memory size of four `u16`
  /// and an edge rectangle of four `i16`: 16 bytes, as many as it encodes
  /// to.
  const MapRequiredSize: u16 := 16

  const MapFields := [Layout.UInt("size", "u16", 2), Layout.UInt("flags", "u16", 2),
                      Layout.UInt("surface_id", "u16", 2), Layout.UInt("output_id", "u16", 2)]

  datatype NowSurfaceMap = NowSurfaceMap(size: u16, flags: u16, surfaceId: u16, outputId: u16,
                                         outputRect: Rects.EdgeRect)

  /// `NowSurfaceMap::new`: the required size and no flag.
  function NewMap(surfaceId: u16, outputId: u16, outputRect: Rects.EdgeRect): (m: NowSurfaceMap)
    ensures m.size == MapRequiredSize && m.flags == 0
    ensures m.surfaceId == surfaceId && m.outputId == outputId && m.outputRect == outputRect
  {
    NowSurfaceMap(MapRequiredSize, 0, surfaceId, outputId, outputRect)
  }

  function MapValues(m: NowSurfaceMap): (vs: seq<nat>)
    ensures Layout.Fits(MapFields, vs)
  {
    Pow256Widths();
    [m.size, m.flags, m.surfaceId, m.outputId]
  }

  function EncodeMap(m: NowSurfaceMap): (r: Result<Bytes>)
    ensures r.Ok? && |r.value| == MapRequiredSize as nat
  {
    Ok(Layout.Encode(MapFields, MapValues(m)) + Rects.EncodeEdgeRect(m.outputRect))
  }

  function MapOf(vs: seq<nat>, rect: Rects.EdgeRect): (m: NowSurfaceMap)
    requires Layout.Fits(MapFields, vs)
    ensures MapValues(m) == vs && m.outputRect == rect
  {
    Pow256Widths();
    assert vs[0] < Pow256(2) && vs[1] < Pow256(2) && vs[2] < Pow256(2) && vs[3] < Pow256(2);
    NowSurfaceMap(vs[0], vs[1], vs[2], vs[3], rect)
  }

  function DecodeMap(b: Bytes): (r: Result<Step<NowSurfaceMap>>)
    ensures r.Ok? <==> 16 <= |b|
    ensures r.Ok? ==> r.value.rest == b[16..]
  {
    var head :- Layout.Decode(MapTy, MapFields, b);
    var rect :- InField(MapTy, "EdgeRect", "output_rect", Rects.DecodeEdgeRect(head.rest));
    Ok(Step(MapOf(head.value, rect.value), rect.rest))
  }

  lemma MapRoundTrip(m: NowSurfaceMap, rest: Bytes)
    ensures DecodeMap(EncodeMap(m).value + rest) == Ok(Step(m, rest))
  {
    var h, e := Layout.Encode(MapFields, MapValues(m)), Rects.EncodeEdgeRect(m.outputRect);
    assert h + e + rest == h + (e + rest);
    Layout.RoundTrip(MapTy, MapFields, MapValues(m), e + rest);
    Rects.EdgeRectRoundTrip(m.outputRect, rest);
  }

  lemma MapInverse(xs: seq<NowSurfaceMap>)
    ensures Containers.InverseOn(EncodeMap, DecodeMap, xs)
  {
    forall m, rest: Bytes | m in xs ensures DecodeMap(EncodeMap(m).value + rest) == Ok(Step(m, rest)) {
      MapRoundTrip(m, rest);
    }
  }

  // ---------------------------------------------------------------- messages

  /// The leading fields of `NowSurfaceListReqMsg` and
  /// `NowSurfaceMapReqMsg`.
  datatype DesktopHead = DesktopHead(subtype: SurfaceMessageType, flags: u8, sequenceId: u16,
                                     desktopWidth: u16, desktopHeight: u16)

  const HeadFields := [Layout.UInt("subtype", "SurfaceMessageType", 1), Layout.UInt("flags", "u8", 1),
                       Layout.UInt("sequence_id", "u16", 2), Layout.UInt("desktop_width", "u16", 2),
                       Layout.UInt("desktop_height", "u16", 2)]

  datatype NowSurfaceListReqMsg = NowSurfaceListReqMsg(head: DesktopHead, surfaces: seq<NowSurfaceDef>)
  datatype NowSurfaceMapReqMsg = NowSurfaceMapReqMsg(head: DesktopHead, maps: seq<NowSurfaceMap>)

  /// `NowSurfaceListRspMsg`, `NowSurfaceMapRspMsg` and
  /// `NowSurfaceSelectRspMsg`: a subtype, a `SurfaceResponseFlags` word
  /// and the sequence number answered.
  datatype ResponseMsg = ResponseMsg(subtype: SurfaceMessageType, flags: u8, sequenceId: u16)

  const ResponseFields := [Layout.UInt("subtype", "SurfaceMessageType", 1),
                           Layout.FlagsOf("flags", "SurfaceResponseFlags", 1), Layout.UInt("sequence_id", "u16", 2)]

  datatype NowSurfaceSelectReqMsg = NowSurfaceSelectReqMsg(subtype: SurfaceMessageType, flags: u8, sequenceId: u16,
                                                           reserved: u16, surfaceId: u16)

  const SelectReqFields := [Layout.UInt("subtype", "SurfaceMessageType", 1), Layout.UInt("flags", "u8", 1),
                            Layout.UInt("sequence_id", "u16", 2), Layout.UInt("reserved", "u16", 2),
                            Layout.UInt("surface_id", "u16", 2)]

  /// `NowSurfaceMsg`, dispatched on its first byte; `Custom` keeps the
  /// bytes of any other subtype.
  datatype NowSurfaceMsg =
    | ListReq(listReq: NowSurfaceListReqMsg)
    | ListRsp(listRsp: ResponseMsg)
    | MapReq(mapReq: NowSurfaceMapReqMsg)
    | MapRsp(mapRsp: ResponseMsg)
    | SelectReq(selectReq: NowSurfaceSelectReqMsg)
    | SelectRsp(selectRsp: ResponseMsg)
    | Custom(payload: Bytes)

  // ---------------------------------------------------------------- constructors

  /// `NowSurfaceListReqMsg::new_with_surfaces` (and `new`, with none).
  function NewListReq(sequenceId: u16, width: u16, height: u16, surfaces: seq<NowSurfaceDef>)
    : (m: NowSurfaceListReqMsg)
    ensures m.head == DesktopHead(ListReqSubtype, 0, sequenceId, width, height) && m.surfaces == surfaces
  {
    NowSurfaceListReqMsg(DesktopHead(ListReqSubtype, 0, sequenceId, width, height), surfaces)
  }

  /// `NowSurfaceMapReqMsg::new_with_mappings` (and `new`) as written: the
  /// subtype it writes is the list request's.
  function NewMapReqAsWritten(sequenceId: u16, width: u16, height: u16, maps: seq<NowSurfaceMap>)
    : (m: NowSurfaceMapReqMsg)
    ensures m.head == DesktopHead(ListReqSubtype, 0, sequenceId, width, height) && m.maps == maps
  {
    NowSurfaceMapReqMsg(DesktopHead(ListReqSubtype, 0, sequenceId, width, height), maps)
  }

  /// The same constructor with the map request's own subtype.
  function NewMapReq(sequenceId: u16, width: u16, height: u16, maps: seq<NowSurfaceMap>)
    : (m: NowSurfaceMapReqMsg)
    ensures m.head == DesktopHead(MapReqSubtype, 0, sequenceId, width, height) && m.maps == maps
  {
    NowSurfaceMapReqMsg(DesktopHead(MapReqSubtype, 0, sequenceId, width, height), maps)
  }

  /// The three responses' `new`: their own subtype, the flags and the
  /// sequence number given.
  function NewResponse(subtype: SurfaceMessageType, flags: u8, sequenceId: u16): (m: ResponseMsg)
    requires subtype in {ListRspSubtype, MapRspSubtype, SelectRspSubtype}
    ensures m.subtype == subtype && m.flags == flags && m.sequenceId == sequenceId
  {
    ResponseMsg(subtype, flags, sequenceId)
  }

  /// `NowSurfaceSelectReqMsg::new`: reserved is zero.
  function NewSelectReq(flags: u8, sequenceId: u16, surfaceId: u16): (m: NowSurfaceSelectReqMsg)
    ensures m.subtype == SelectReqSubtype && m.flags == flags && m.sequenceId == sequenceId
    ensures m.reserved == 0 && m.surfaceId == surfaceId
  {
    NowSurfaceSelectReqMsg(SelectReqSubtype, flags, sequenceId, 0, surfaceId)
  }

  // ---------------------------------------------------------------- struct codecs

  function HeadValues(h: DesktopHead): (vs: seq<nat>)
    ensures Layout.Fits(HeadFields, vs)
  {
    Pow256Widths();
    [SubtypeToByte(h.subtype), h.flags, h.sequenceId, h.desktopWidth, h.desktopHeight]
  }

  function HeadOf(vs: seq<nat>): (h: DesktopHead)
    requires Layout.Fits(HeadFields, vs)
    ensures CanonicalSubtype(h.subtype) && HeadValues(h) == vs
  {
    Pow256Widths();
    assert vs[0] < Pow256(1) && vs[1] < Pow256(1) && vs[2] < Pow256(2) && vs[3] < Pow256(2) && vs[4] < Pow256(2);
    var h := DesktopHead(SubtypeFromByte(vs[0]), vs[1], vs[2], vs[3], vs[4]);
    SubtypeTable(vs[0], h.subtype);
    h
  }

  /// The leading fields take 8 bytes.
  lemma HeadSize()
    ensures Layout.Size(HeadFields) == 8
  {
  }

  function EncodeListReq(m: NowSurfaceListReqMsg): (r: Result<Bytes>)
    ensures r.Ok? <==> |m.surfaces| < 256
    ensures r.Ok? ==> |r.value| > 0 && r.value[0] == SubtypeToByte(m.head.subtype)
  {
    Layout.FirstByte(HeadFields, HeadValues(m.head));
    Layout.EncodeWithVec(ListReqTy, HeadFields, HeadValues(m.head), "surfaces", EncodeDef, 1, m.surfaces)
  }

  /// The derived decoder; the subtype is read and kept, not checked.
  function DecodeListReq(b: Bytes): (r: Result<Step<NowSurfaceListReqMsg>>)
    ensures r.Ok? ==> 9 <= |b| && CanonicalSubtype(r.value.value.head.subtype)
                      && r.value.value.head.subtype == SubtypeFromByte(b[0])
                      && |r.value.value.surfaces| < 256 && forall d | d in r.value.value.surfaces :: DefOk(d)
  {
    var x :- Layout.DecodeWithVec(ListReqTy, HeadFields, "Vec8 < NowSurfaceDef >", "surfaces", DecodeDef, 1, b);
    DefDecoderYields();
    Layout.WithVecYields(ListReqTy, HeadFields, "Vec8 < NowSurfaceDef >", "surfaces", DecodeDef, DefOk, 1, b);
    Layout.FirstByte(HeadFields, x.value.0);
    Ok(Step(NowSurfaceListReqMsg(HeadOf(x.value.0), x.value.1), x.rest))
  }

  lemma ListReqRoundTrip(m: NowSurfaceListReqMsg, rest: Bytes)
    requires CanonicalSubtype(m.head.subtype) && (forall d | d in m.surfaces :: DefOk(d)) && |m.surfaces| < 256
    ensures DecodeListReq(EncodeListReq(m).value + rest) == Ok(Step(m, rest))
  {
    Pow256Widths();
    DefInverse(m.surfaces);
    Layout.WithVecRoundTrip(ListReqTy, HeadFields, HeadValues(m.head), "Vec8 < NowSurfaceDef >", "surfaces",
                            EncodeDef, DecodeDef, 1, m.surfaces, rest);
    SubtypeTable(0, m.head.subtype);
  }

  function EncodeMapReq(m: NowSurfaceMapReqMsg): (r: Result<Bytes>)
    ensures r.Ok? <==> |m.maps| < 256
    ensures r.Ok? ==> |r.value| > 0 && r.value[0] == SubtypeToByte(m.head.subtype)
  {
    Layout.FirstByte(HeadFields, HeadValues(m.head));
    Layout.EncodeWithVec(MapReqTy, HeadFields, HeadValues(m.head), "maps", EncodeMap, 1, m.maps)
  }

  function DecodeMapReq(b: Bytes): (r: Result<Step<NowSurfaceMapReqMsg>>)
    ensures r.Ok? ==> 9 <= |b| && CanonicalSubtype(r.value.value.head.subtype)
                      && r.value.value.head.subtype == SubtypeFromByte(b[0]) && |r.value.value.maps| < 256
  {
    var x :- Layout.DecodeWithVec(MapReqTy, HeadFields, "Vec8 < NowSurfaceMap >", "maps", DecodeMap, 1, b);
    Layout.FirstByte(HeadFields, x.value.0);
    Ok(Step(NowSurfaceMapReqMsg(HeadOf(x.value.0), x.value.1), x.rest))
  }

  lemma MapReqRoundTrip(m: NowSurfaceMapReqMsg, rest: Bytes)
    requires CanonicalSubtype(m.head.subtype) && |m.maps| < 256
    ensures DecodeMapReq(EncodeMapReq(m).value + rest) == Ok(Step(m, rest))
  {
    Pow256Widths();
    MapInverse(m.maps);
    Layout.WithVecRoundTrip(MapReqTy, HeadFields, HeadValues(m.head), "Vec8 < NowSurfaceMap >", "maps",
                            EncodeMap, DecodeMap, 1, m.maps, rest);
    SubtypeTable(0, m.head.subtype);
  }

  function ResponseValues(m: ResponseMsg): (vs: seq<nat>)
    ensures Layout.Fits(ResponseFields, vs)
  {
    Pow256Widths();
    [SubtypeToByte(m.subtype), m.flags, m.sequenceId]
  }

  function EncodeResponse(m: ResponseMsg): (e: Bytes)
    ensures |e| == 4 && e[0] == SubtypeToByte(m.subtype)
  {
    Layout.FirstByte(ResponseFields, ResponseValues(m));
    Layout.Encode(ResponseFields, ResponseValues(m))
  }

  /// The response read from 4 bytes, under the struct's name `ty`; it
  /// writes back the bytes it was read from.
  function DecodeResponse(ty: string, b: Bytes): (r: Result<Step<ResponseMsg>>)
    ensures r.Ok? <==> 4 <= |b|
    ensures r.Ok? ==> r.value.rest == b[4..] && CanonicalSubtype(r.value.value.subtype)
                      && EncodeResponse(r.value.value) == b[..4]
  {
    var x :- Layout.Decode(ty, ResponseFields, b);
    Ok(Step(ResponseOf(x.value), x.rest))
  }

  function ResponseOf(vs: seq<nat>): (m: ResponseMsg)
    requires Layout.Fits(ResponseFields, vs)
    ensures CanonicalSubtype(m.subtype) && ResponseValues(m) == vs
  {
    Pow256Widths();
    assert vs[0] < Pow256(1) && vs[1] < Pow256(1) && vs[2] < Pow256(2);
    var m := ResponseMsg(SubtypeFromByte(vs[0]), vs[1], vs[2]);
    SubtypeTable(vs[0], m.subtype);
    m
  }

  lemma ResponseRoundTrip(ty: string, m: ResponseMsg, rest: Bytes)
    requires CanonicalSubtype(m.subtype)
    ensures DecodeResponse(ty, EncodeResponse(m) + rest) == Ok(Step(m, rest))
  {
    Layout.RoundTrip(ty, ResponseFields, ResponseValues(m), rest);
    SubtypeTable(0, m.subtype);
  }

  function SelectReqValues(m: NowSurfaceSelectReqMsg): (vs: seq<nat>)
    ensures Layout.Fits(SelectReqFields, vs)
  {
    Pow256Widths();
    [SubtypeToByte(m.subtype), m.flags, m.sequenceId, m.reserved, m.surfaceId]
  }

  function EncodeSelectReq(m: NowSurfaceSelectReqMsg): (e: Bytes)
    ensures |e| == 8 && e[0] == SubtypeToByte(m.subtype)
  {
    Layout.FirstByte(SelectReqFields, SelectReqValues(m));
    Layout.Encode(SelectReqFields, SelectReqValues(m))
  }

  function SelectReqOf(vs: seq<nat>): (m: NowSurfaceSelectReqMsg)
    requires Layout.Fits(SelectReqFields, vs)
    ensures CanonicalSubtype(m.subtype) && SelectReqValues(m) == vs
  {
    Pow256Widths();
    assert vs[0] < Pow256(1) && vs[1] < Pow256(1) && vs[2] < Pow256(2) && vs[3] < Pow256(2) && vs[4] < Pow256(2);
    var m := NowSurfaceSelectReqMsg(SubtypeFromByte(vs[0]), vs[1], vs[2], vs[3], vs[4]);
    SubtypeTable(vs[0], m.subtype);
    m
  }

  function DecodeSelectReq(b: Bytes): (r: Result<Step<NowSurfaceSelectReqMsg>>)
    ensures r.Ok? <==> 8 <= |b|
    ensures r.Ok? ==> r.value.rest == b[8..] && CanonicalSubtype(r.value.value.subtype)
                      && EncodeSelectReq(r.value.value) == b[..8]
  {
    var x :- Layout.Decode(SelectReqTy, SelectReqFields, b);
    Ok(Step(SelectReqOf(x.value), x.rest))
  }

  lemma SelectReqRoundTrip(m: NowSurfaceSelectReqMsg, rest: Bytes)
    requires CanonicalSubtype(m.subtype)
    ensures DecodeSelectReq(EncodeSelectReq(m) + rest) == Ok(Step(m, rest))
  {
    Layout.RoundTrip(SelectReqTy, SelectReqFields, SelectReqValues(m), rest);
    SubtypeTable(0, m.subtype);
  }

  // ---------------------------------------------------------------- meta enum

  /// The derived meta-enum encoder: a list too long for its count fails,
  /// the fallback writes its bytes as they are.
  function Encode(m: NowSurfaceMsg): (r: Result<Bytes>)
    ensures m.ListReq? ==> (r.Ok? <==> |m.listReq.surfaces| < 256)
    ensures m.MapReq? ==> (r.Ok? <==> |m.mapReq.maps| < 256)
    ensures !m.ListReq? && !m.MapReq? ==> r.Ok?
    ensures m.Custom? ==> r == Ok(m.payload)
  {
    match m
    case ListReq(s) => OutVariant(Ty, "ListReq", EncodeListReq(s))
    case ListRsp(s) => Ok(EncodeResponse(s))
    case MapReq(s) => OutVariant(Ty, "MapReq", EncodeMapReq(s))
    case MapRsp(s) => Ok(EncodeResponse(s))
    case SelectReq(s) => Ok(EncodeSelectReq(s))
    case SelectRsp(s) => Ok(EncodeResponse(s))
    case Custom(payload) => Ok(payload)
  }

  /// A message whose subtype field names its own variant, whose lists fit
  /// their counts and whose orientations are canonical; a custom payload
  /// starts with an unlisted subtype.
  predicate WellFormed(m: NowSurfaceMsg)
  {
    match m
    case ListReq(s) =>
      s.head.subtype == ListReqSubtype && |s.surfaces| < 256 && forall d | d in s.surfaces :: DefOk(d)
    case ListRsp(s) => s.subtype == ListRspSubtype
    case MapReq(s) => s.head.subtype == MapReqSubtype && |s.maps| < 256
    case MapRsp(s) => s.subtype == MapRspSubtype
    case SelectReq(s) => s.subtype == SelectReqSubtype
    case SelectRsp(s) => s.subtype == SelectRspSubtype
    case Custom(payload) => |payload| > 0 && !(1 <= payload[0] <= 6)
  }

  /// The variants as the meta enum's decoder reads them, each from the
  /// bytes its subtype opens.
  function ListReqVariant(b: Bytes): (r: Result<Step<NowSurfaceMsg>>)
    requires 0 < |b| && b[0] == 1
    ensures r.Ok? ==> WellFormed(r.value.value)
  {
    var s :- InVariant(Ty, "ListReq", DecodeListReq(b));
    Ok(Step(ListReq(s.value), s.rest))
  }

  function MapReqVariant(b: Bytes): (r: Result<Step<NowSurfaceMsg>>)
    requires 0 < |b| && b[0] == 3
    ensures r.Ok? ==> WellFormed(r.value.value)
  {
    var s :- InVariant(Ty, "MapReq", DecodeMapReq(b));
    Ok(Step(MapReq(s.value), s.rest))
  }

  function SelectReqVariant(b: Bytes): (r: Result<Step<NowSurfaceMsg>>)
    requires 0 < |b| && b[0] == 5
    ensures r.Ok? ==> WellFormed(r.value.value)
  {
    var s :- InVariant(Ty, "SelectReq", DecodeSelectReq(b));
    SubtypeTable(b[0], s.value.subtype);
    Ok(Step(SelectReq(s.value), s.rest))
  }

  /// The three responses, told apart by their subtype byte `v`.
  function ResponseVariant(v: u8, b: Bytes): (r: Result<Step<NowSurfaceMsg>>)
    requires v in {2, 4, 6} && 0 < |b| && b[0] == v
    ensures r.Ok? ==> WellFormed(r.value.value)
  {
    if v == 2 then
      var s :- InVariant(Ty, "ListRsp", DecodeResponse("NowSurfaceListRspMsg", b));
      SubtypeTable(b[0], s.value.subtype);
      Ok(Step(ListRsp(s.value), s.rest))
    else if v == 4 then
      var s :- InVariant(Ty, "MapRsp", DecodeResponse("NowSurfaceMapRspMsg", b));
      SubtypeTable(b[0], s.value.subtype);
      Ok(Step(MapRsp(s.value), s.rest))
    else
      var s :- InVariant(Ty, "SelectRsp", DecodeResponse("NowSurfaceSelectRspMsg", b));
      SubtypeTable(b[0], s.value.subtype);
      Ok(Step(SelectRsp(s.value), s.rest))
  }

  /// The derived meta-enum decoder: the subtype is peeked; a listed
  /// subtype decodes its variant from the same bytes, any other keeps all
  /// of them and leaves them unread. Whatever it returns is well formed:
  /// the variant chosen is the one its subtype names.
  function Decode(b: Bytes): (r: Result<Step<NowSurfaceMsg>>)
    ensures r.Ok? ==> 0 < |b| && WellFormed(r.value.value)
    ensures 0 < |b| && !(1 <= b[0] <= 6) ==> r == Ok(Step(Custom(b), b))
  {
    var raw :- Subtype(Ty, 1, b);
    assert raw == b[0] by { assert b[..1] == [b[0]]; }
    match SubtypeFromByte(raw)
    case ListReqSubtype => ListReqVariant(b)
    case ListRspSubtype => ResponseVariant(2, b)
    case MapReqSubtype => MapReqVariant(b)
    case MapRspSubtype => ResponseVariant(4, b)
    case SelectReqSubtype => SelectReqVariant(b)
    case SelectRspSubtype => ResponseVariant(6, b)
    case OtherSubtype(_) =>
      var all := Rest(b);
      Ok(Step(Custom(all.value), all.rest))
  }

  lemma FirstByte(b: Bytes, v: u8)
    requires 0 < |b| && b[0] == v
    ensures Subtype(Ty, 1, b) == Ok(v as nat)
  {
    assert b[..1] == [v];
  }

  lemma ListReqReadsBack(s: NowSurfaceListReqMsg, rest: Bytes)
    requires WellFormed(ListReq(s))
    ensures Decode(EncodeListReq(s).value + rest) == Ok(Step(ListReq(s), rest))
  {
    var e := EncodeListReq(s).value + rest;
    ListReqRoundTrip(s, rest);
    FirstByte(e, 1);
    assert InVariant(Ty, "ListReq", DecodeListReq(e)) == Ok(Step(s, rest));
  }

  lemma MapReqReadsBack(s: NowSurfaceMapReqMsg, rest: Bytes)
    requires WellFormed(MapReq(s))
    ensures Decode(EncodeMapReq(s).value + rest) == Ok(Step(MapReq(s), rest))
  {
    var e := EncodeMapReq(s).value + rest;
    MapReqRoundTrip(s, rest);
    FirstByte(e, 3);
    assert InVariant(Ty, "MapReq", DecodeMapReq(e)) == Ok(Step(s, rest));
  }

  lemma SelectReqReadsBack(s: NowSurfaceSelectReqMsg, rest: Bytes)
    requires WellFormed(SelectReq(s))
    ensures Decode(EncodeSelectReq(s) + rest) == Ok(Step(SelectReq(s), rest))
  {
    var e := EncodeSelectReq(s) + rest;
    SelectReqRoundTrip(s, rest);
    FirstByte(e, 5);
    assert InVariant(Ty, "SelectReq", DecodeSelectReq(e)) == Ok(Step(s, rest));
  }

  lemma ListRspReadsBack(s: ResponseMsg, rest: Bytes)
    requires WellFormed(ListRsp(s))
    ensures Decode(EncodeResponse(s) + rest) == Ok(Step(ListRsp(s), rest))
  {
    var e := EncodeResponse(s) + rest;
    ResponseRoundTrip("NowSurfaceListRspMsg", s, rest);
    FirstByte(e, 2);
    assert InVariant(Ty, "ListRsp", DecodeResponse("NowSurfaceListRspMsg", e)) == Ok(Step(s, rest));
  }

  lemma MapRspReadsBack(s: ResponseMsg, rest: Bytes)
    requires WellFormed(MapRsp(s))
    ensures Decode(EncodeResponse(s) + rest) == Ok(Step(MapRsp(s), rest))
  {
    var e := EncodeResponse(s) + rest;
    ResponseRoundTrip("NowSurfaceMapRspMsg", s, rest);
    FirstByte(e, 4);
    assert InVariant(Ty, "MapRsp", DecodeResponse("NowSurfaceMapRspMsg", e)) == Ok(Step(s, rest));
  }

  lemma SelectRspReadsBack(s: ResponseMsg, rest: Bytes)
    requires WellFormed(SelectRsp(s))
    ensures Decode(EncodeResponse(s) + rest) == Ok(Step(SelectRsp(s), rest))
  {
    var e := EncodeResponse(s) + rest;
    ResponseRoundTrip("NowSurfaceSelectRspMsg", s, rest);
    FirstByte(e, 6);
    assert InVariant(Ty, "SelectRsp", DecodeResponse("NowSurfaceSelectRspMsg", e)) == Ok(Step(s, rest));
  }

  /// Decoding an encoded well-formed message gives it back and leaves what
  /// follows it unread; a custom message takes every byte after it too and
  /// leaves them all unread, so it comes back only when nothing follows it.
  lemma RoundTrip(m: NowSurfaceMsg, rest: Bytes)
    requires WellFormed(m)
    requires m.Custom? ==> rest == []
    ensures Encode(m).Ok?
    ensures m.Custom? ==> Decode(Encode(m).value) == Ok(Step(m, m.payload))
    ensures !m.Custom? ==> Decode(Encode(m).value + rest) == Ok(Step(m, rest))
  {
    match m
    case ListReq(s) => ListReqReadsBack(s, rest);
    case MapReq(s) => MapReqReadsBack(s, rest);
    case SelectReq(s) => SelectReqReadsBack(s, rest);
    case ListRsp(s) => ListRspReadsBack(s, rest);
    case MapRsp(s) => MapRspReadsBack(s, rest);
    case SelectRsp(s) => SelectRspReadsBack(s, rest);
    case Custom(payload) =>
  }

  // ---------------------------------------------------------------- the map request's subtype

  /// As written, `new_with_mappings` gives a map request the list
  /// request's subtype, so the meta enum never reads it back as a map
  /// request: it reads the list request's layout instead.
  lemma MapReqAsWrittenNeverReadsBack(sequenceId: u16, width: u16, height: u16, maps: seq<NowSurfaceMap>, rest: Bytes)
    requires |maps| < 256
    ensures var m := MapReq(NewMapReqAsWritten(sequenceId, width, height, maps));
            Encode(m).Ok? && (Decode(Encode(m).value + rest).Ok? ==> Decode(Encode(m).value + rest).value.value.ListReq?)
  {
    var e := EncodeMapReq(NewMapReqAsWritten(sequenceId, width, height, maps)).value + rest;
    FirstByte(e, 1);
    assert Decode(e) == ListReqVariant(e);
  }

  /// With no mappings the bytes are exactly those of the list request with
  /// the same fields, and decode to it.
  lemma MapReqAsWrittenReadsAsListReq(sequenceId: u16, width: u16, height: u16, rest: Bytes)
    ensures var m := MapReq(NewMapReqAsWritten(sequenceId, width, height, []));
            Encode(m).Ok? && Decode(Encode(m).value + rest) == Ok(Step(ListReq(NewListReq(sequenceId, width, height, [])), rest))
  {
    var l := NewListReq(sequenceId, width, height, []);
    assert Containers.EncodeItems(EncodeMap, Containers.VecName(1), []) == Ok([]);
    assert Containers.EncodeItems(EncodeDef, Containers.VecName(1), []) == Ok([]);
    assert EncodeMapReq(NewMapReqAsWritten(sequenceId, width, height, [])) == EncodeListReq(l);
    ListReqReadsBack(l, rest);
  }

  /// With its own subtype a map request reads back as itself.
  lemma MapReqReadsBackAsItself(sequenceId: u16, width: u16, height: u16, maps: seq<NowSurfaceMap>, rest: Bytes)
    requires |maps| < 256
    ensures var m := MapReq(NewMapReq(sequenceId, width, height, maps));
            Encode(m).Ok? && Decode(Encode(m).value + rest) == Ok(Step(m, rest))
  {
    MapReqReadsBack(NewMapReq(sequenceId, width, height, maps), rest);
  }

  // ---------------------------------------------------------------- vector

  /// `SURFACE_LIST_REQ_MSG`: a list request for a 1024 by 768 desktop with
  /// one surface covering it.
  const ListReqBytes: Bytes :=
    [0x01, 0x00, 0x00, 0x00, 0x00, 0x04, 0x00, 0x03, 0x01]
    + [0x10, 0x00, 0x09, 0x00, 0x00, 0x00, 0x00, 0x00] + Rects.EdgeRectBytes

  const ListReqSample := NewListReq(0, 1024, 768, [NewDef(0, Rects.EdgeRect(0, 0, 1024, 768))])

  lemma HeadBytes(vs: seq<nat>)
    requires vs == [1, 0, 0, 1024, 768]
    ensures Layout.Fits(HeadFields, vs)
    ensures Layout.Encode(HeadFields, vs) == [0x01, 0x00, 0x00, 0x00, 0x00, 0x04, 0x00, 0x03]
  {
    Pow256Widths();
    Layout.EncodeCons(HeadFields, vs);
    Layout.EncodeCons(HeadFields[1..], vs[1..]);
    Layout.EncodeCons(HeadFields[2..], vs[2..]);
    Layout.EncodeCons(HeadFields[3..], vs[3..]);
    Layout.EncodeCons(HeadFields[4..], vs[4..]);
  }

  lemma DefBytes(vs: seq<nat>)
    requires vs == [16, 9, 0, 0]
    ensures Layout.Fits(DefFields, vs)
    ensures Layout.Encode(DefFields, vs) == [0x10, 0x00, 0x09, 0x00, 0x00, 0x00, 0x00, 0x00]
  {
    Pow256Widths();
    Layout.EncodeCons(DefFields, vs);
    Layout.EncodeCons(DefFields[1..], vs[1..]);
    Layout.EncodeCons(DefFields[2..], vs[2..]);
    Layout.EncodeCons(DefFields[3..], vs[3..]);
  }

  lemma SampleDefBytes(d: NowSurfaceDef)
    requires d == NowSurfaceDef(16, 9, 0, Landscape, Rects.EdgeRect(0, 0, 1024, 768))
    ensures EncodeDef(d).value == [0x10, 0x00, 0x09, 0x00, 0x00, 0x00, 0x00, 0x00] + Rects.EdgeRectBytes
  {
    DefBytes(DefValues(d));
    Rects.EdgeRectVector();
  }

  lemma SampleBytes(m: NowSurfaceListReqMsg)
    requires m.head == DesktopHead(ListReqSubtype, 0, 0, 1024, 768)
    requires m.surfaces == [NowSurfaceDef(16, 9, 0, Landscape, Rects.EdgeRect(0, 0, 1024, 768))]
    ensures EncodeListReq(m) == Ok(ListReqBytes)
  {
    var d := m.surfaces[0];
    HeadBytes(HeadValues(m.head));
    SampleDefBytes(d);
    var items := EncodeDef(d).value;
    Containers.OneItemVec(EncodeDef, 1, d);
    assert LeBytes(1, 1) == [0x01];
    assert [0x01, 0x00, 0x00, 0x00, 0x00, 0x04, 0x00, 0x03] + ([0x01] + items) == ListReqBytes;
  }

  /// `NowSurfaceDef::new` gives the sample surface size 16, flags 9 and a
  /// landscape orientation.
  lemma SampleFields()
    ensures ListReqSample.head == DesktopHead(ListReqSubtype, 0, 0, 1024, 768)
    ensures ListReqSample.surfaces == [NowSurfaceDef(16, 9, 0, Landscape, Rects.EdgeRect(0, 0, 1024, 768))]
  {
    DefaultPropertiesValue();
  }

  /// The list request built as the test builds it encodes to the vector,
  /// and the vector decodes back to it.
  lemma ListReqVector(m: NowSurfaceListReqMsg, b: Bytes)
    requires m == ListReqSample && b == ListReqBytes
    ensures Encode(ListReq(m)) == Ok(b)
    ensures Decode(b) == Ok(Step(ListReq(m), []))
  {
    SampleFields();
    SampleBytes(m);
    assert Encode(ListReq(m)) == EncodeListReq(m);
    ListReqReadsBack(m, []);
    assert b + [] == b;
  }
}
