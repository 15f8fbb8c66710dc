/// `NowGfwxHeader`: the 36-byte header in front of a GFWX-compressed image,
/// and its conversion, with the caller's parameters, into the header the
/// GFWX codec takes. The codec's own `Header`, `Filter`, `Quantization`,
/// `Encoder` and `Intent` belong to another crate; they are local records
/// here, with `Intent` an opaque code.
module Gfwx {
  import opened Wire
  import opened Errors
  import opened Derived

  const Ty := "NowGfwxHeader"

  // ---------------------------------------------------------------- value enums

  /// `NowGWFXFilter`, `NowGWFXQuantization`, `NowGWFXEncoder`: `repr(u8)`
  /// tables with no fallback, so any other byte is refused.
  datatype NowFilter = Linear | Cubic
  datatype NowQuantization = Scalar
  datatype NowEncoder = Turbo | Fast | Contextual

  function FilterFromByte(x: u8): (r: Option<NowFilter>)
    ensures r.Some? <==> x <= 1
  {
    match x
    case 0 => Some(Linear)
    case 1 => Some(Cubic)
    case _ => None
  }

  function FilterToByte(f: NowFilter): u8
  {
    match f
    case Linear => 0
    case Cubic => 1
  }

  lemma FilterTable(x: u8, f: NowFilter)
    ensures FilterFromByte(x) == Some(f) <==> FilterToByte(f) == x
  {
  }

  function QuantizationFromByte(x: u8): (r: Option<NowQuantization>)
    ensures r.Some? <==> x == 0
  {
    if x == 0 then Some(Scalar) else None
  }

  function QuantizationToByte(q: NowQuantization): u8
  {
    0
  }

  lemma QuantizationTable(x: u8, q: NowQuantization)
    ensures QuantizationFromByte(x) == Some(q) <==> QuantizationToByte(q) == x
  {
  }

  function EncoderFromByte(x: u8): (r: Option<NowEncoder>)
    ensures r.Some? <==> x <= 2
  {
    match x
    case 0 => Some(Turbo)
    case 1 => Some(Fast)
    case 2 => Some(Contextual)
    case _ => None
  }

  function EncoderToByte(e: NowEncoder): u8
  {
    match e
    case Turbo => 0
    case Fast => 1
    case Contextual => 2
  }

  lemma EncoderTable(x: u8, e: NowEncoder)
    ensures EncoderFromByte(x) == Some(e) <==> EncoderToByte(e) == x
  {
  }

  // ---------------------------------------------------------------- the header

  datatype NowGfwxHeader = NowGfwxHeader(
    magic: u32, version: u8, offset: u8, flags: u16,
    qualityLevel: u16, chromaScale: u8, blockSize: u8, filter: NowFilter, quantization: NowQuantization,
    encoder: NowEncoder, boost: u8,
    imageWidth: u32, imageHeight: u32, layerCount: u16, channelCount: u16,
    transform: u32, colorFlags: u32)

  /// The four groups of fields, in declaration order.
  function EncodeIdent(h: NowGfwxHeader): (e: Bytes)
    ensures |e| == 8
  {
    U32(h.magic) + U8(h.version) + U8(h.offset) + U16(h.flags)
  }

  function EncodeSettings(h: NowGfwxHeader): (e: Bytes)
    ensures |e| == 8
  {
    U16(h.qualityLevel) + U8(h.chromaScale) + U8(h.blockSize) + U8(FilterToByte(h.filter))
    + U8(QuantizationToByte(h.quantization)) + U8(EncoderToByte(h.encoder)) + U8(h.boost)
  }

  function EncodeGeometry(h: NowGfwxHeader): (e: Bytes)
    ensures |e| == 12
  {
    U32(h.imageWidth) + U32(h.imageHeight) + U16(h.layerCount) + U16(h.channelCount)
  }

  function EncodeTail(h: NowGfwxHeader): (e: Bytes)
    ensures |e| == 8
  {
    U32(h.transform) + U32(h.colorFlags)
  }

  /// The derived `Encode`: the seventeen fields, 36 bytes.
  function Encode(h: NowGfwxHeader): (e: Bytes)
    ensures |e| == 36
  {
    EncodeIdent(h) + EncodeSettings(h) + EncodeGeometry(h) + EncodeTail(h)
  }

  datatype Ident = Ident(magic: u32, version: u8, offset: u8, flags: u16)
  datatype Settings = Settings(qualityLevel: u16, chromaScale: u8, blockSize: u8, filter: NowFilter,
                               quantization: NowQuantization, encoder: NowEncoder, boost: u8)
  datatype Geometry = Geometry(imageWidth: u32, imageHeight: u32, layerCount: u16, channelCount: u16)

  function DecodeIdent(b: Bytes): (r: Result<Step<Ident>>)
    ensures r.Ok? <==> 8 <= |b|
    ensures r.Ok? ==> r.value.rest == b[8..]
  {
    var magic :- U32Field(Ty, "u32", "magic", b);
    var version :- U8Field(Ty, "u8", "version", magic.rest);
    var offset :- U8Field(Ty, "u8", "offset", version.rest);
    var flags :- U16Field(Ty, "u16", "flags", offset.rest);
    Ok(Step(Ident(magic.value, version.value, offset.value, flags.value), flags.rest))
  }

  function DecodeSettings(b: Bytes): (r: Result<Step<Settings>>)
    ensures r.Ok? ==> 8 <= |b| && r.value.rest == b[8..]
  {
    var quality :- U16Field(Ty, "u16", "quality_level", b);
    var chroma :- U8Field(Ty, "u8", "chroma_scale", quality.rest);
    var block :- U8Field(Ty, "u8", "block_size", chroma.rest);
    var filter :- InField(Ty, "NowGWFXFilter", "filter", ListedByte("NowGWFXFilter", FilterFromByte, block.rest));
    var quantization :- InField(Ty, "NowGWFXQuantization", "quantization",
                                ListedByte("NowGWFXQuantization", QuantizationFromByte, filter.rest));
    var encoder :- InField(Ty, "NowGWFXEncoder", "encoder",
                           ListedByte("NowGWFXEncoder", EncoderFromByte, quantization.rest));
    var boost :- U8Field(Ty, "u8", "boost", encoder.rest);
    Ok(Step(Settings(quality.value, chroma.value, block.value, filter.value, quantization.value, encoder.value,
                     boost.value), boost.rest))
  }

  function DecodeGeometry(b: Bytes): (r: Result<Step<Geometry>>)
    ensures r.Ok? <==> 12 <= |b|
    ensures r.Ok? ==> r.value.rest == b[12..]
  {
    var width :- U32Field(Ty, "u32", "image_width", b);
    var height :- U32Field(Ty, "u32", "image_height", width.rest);
    var layers :- U16Field(Ty, "u16", "layer_count", height.rest);
    var channels :- U16Field(Ty, "u16", "channel_count", layers.rest);
    Ok(Step(Geometry(width.value, height.value, layers.value, channels.value), channels.rest))
  }

  function DecodeTail(b: Bytes): (r: Result<Step<(u32, u32)>>)
    ensures r.Ok? <==> 8 <= |b|
    ensures r.Ok? ==> r.value.rest == b[8..]
  {
    var transform :- U32Field(Ty, "u32", "transform", b);
    var colorFlags :- U32Field(Ty, "u32", "color_flags", transform.rest);
    Ok(Step((transform.value, colorFlags.value), colorFlags.rest))
  }

  function Assemble(i: Ident, s: Settings, g: Geometry, t: (u32, u32)): NowGfwxHeader
  {
    NowGfwxHeader(i.magic, i.version, i.offset, i.flags,
                  s.qualityLevel, s.chromaScale, s.blockSize, s.filter, s.quantization, s.encoder, s.boost,
                  g.imageWidth, g.imageHeight, g.layerCount, g.channelCount, t.0, t.1)
  }

  /// The derived `Decode`: the fields in declaration order, 36 bytes; it
  /// fails on fewer bytes or on a filter, quantization or encoder byte
  /// outside its table.
  function Decode(b: Bytes): (r: Result<Step<NowGfwxHeader>>)
    ensures r.Ok? ==> 36 <= |b| && r.value.rest == b[36..]
    ensures |b| < 36 ==> r.Err?
  {
    var ident :- DecodeIdent(b);
    var settings :- DecodeSettings(ident.rest);
    var geometry :- DecodeGeometry(settings.rest);
    var tail :- DecodeTail(geometry.rest);
    Ok(Step(Assemble(ident.value, settings.value, geometry.value, tail.value), tail.rest))
  }

  lemma IdentRoundTrip(h: NowGfwxHeader, rest: Bytes)
    ensures DecodeIdent(EncodeIdent(h) + rest) == Ok(Step(Ident(h.magic, h.version, h.offset, h.flags), rest))
  {
    var e2 := U8(h.version);
    var e3 := U8(h.offset);
    var e4 := U16(h.flags);
    assert EncodeIdent(h) + rest == U32(h.magic) + (e2 + (e3 + (e4 + rest)));
    U32RoundTrip(Ty, "u32", "magic", h.magic, e2 + (e3 + (e4 + rest)));
    U8RoundTrip(Ty, "u8", "version", h.version, e3 + (e4 + rest));
    U8RoundTrip(Ty, "u8", "offset", h.offset, e4 + rest);
    U16RoundTrip(Ty, "u16", "flags", h.flags, rest);
  }

  /// The three table fields, in front of any bytes, read back.
  lemma EnumsRoundTrip(h: NowGfwxHeader, rest: Bytes)
    ensures var e := U8(FilterToByte(h.filter)) + (U8(QuantizationToByte(h.quantization))
                     + (U8(EncoderToByte(h.encoder)) + rest));
            var f := ListedByte("NowGWFXFilter", FilterFromByte, e);
            f == Ok(Step(h.filter, U8(QuantizationToByte(h.quantization)) + (U8(EncoderToByte(h.encoder)) + rest)))
            && var q := ListedByte("NowGWFXQuantization", QuantizationFromByte, f.value.rest);
            q == Ok(Step(h.quantization, U8(EncoderToByte(h.encoder)) + rest))
            && ListedByte("NowGWFXEncoder", EncoderFromByte, q.value.rest) == Ok(Step(h.encoder, rest))
  {
    var r2 := U8(EncoderToByte(h.encoder)) + rest;
    var r1 := U8(QuantizationToByte(h.quantization)) + r2;
    FilterTable(FilterToByte(h.filter), h.filter);
    ListedByteRoundTrip("NowGWFXFilter", FilterFromByte, FilterToByte(h.filter), h.filter, r1);
    QuantizationTable(QuantizationToByte(h.quantization), h.quantization);
    ListedByteRoundTrip("NowGWFXQuantization", QuantizationFromByte, QuantizationToByte(h.quantization),
                        h.quantization, r2);
    EncoderTable(EncoderToByte(h.encoder), h.encoder);
    ListedByteRoundTrip("NowGWFXEncoder", EncoderFromByte, EncoderToByte(h.encoder), h.encoder, rest);
  }

  lemma SettingsRoundTrip(h: NowGfwxHeader, rest: Bytes)
    ensures DecodeSettings(EncodeSettings(h) + rest)
         == Ok(Step(Settings(h.qualityLevel, h.chromaScale, h.blockSize, h.filter, h.quantization, h.encoder,
                             h.boost), rest))
  {
    var e8 := U8(h.boost);
    var enums := U8(FilterToByte(h.filter)) + (U8(QuantizationToByte(h.quantization))
                 + (U8(EncoderToByte(h.encoder)) + (e8 + rest)));
    var e3 := U8(h.blockSize);
    var e2 := U8(h.chromaScale);
    assert EncodeSettings(h) + rest == U16(h.qualityLevel) + (e2 + (e3 + enums));
    U16RoundTrip(Ty, "u16", "quality_level", h.qualityLevel, e2 + (e3 + enums));
    U8RoundTrip(Ty, "u8", "chroma_scale", h.chromaScale, e3 + enums);
    U8RoundTrip(Ty, "u8", "block_size", h.blockSize, enums);
    EnumsRoundTrip(h, e8 + rest);
    U8RoundTrip(Ty, "u8", "boost", h.boost, rest);
  }

  lemma GeometryRoundTrip(h: NowGfwxHeader, rest: Bytes)
    ensures DecodeGeometry(EncodeGeometry(h) + rest)
         == Ok(Step(Geometry(h.imageWidth, h.imageHeight, h.layerCount, h.channelCount), rest))
  {
    var e2 := U32(h.imageHeight);
    var e3 := U16(h.layerCount);
    var e4 := U16(h.channelCount);
    assert EncodeGeometry(h) + rest == U32(h.imageWidth) + (e2 + (e3 + (e4 + rest)));
    U32RoundTrip(Ty, "u32", "image_width", h.imageWidth, e2 + (e3 + (e4 + rest)));
    U32RoundTrip(Ty, "u32", "image_height", h.imageHeight, e3 + (e4 + rest));
    U16RoundTrip(Ty, "u16", "layer_count", h.layerCount, e4 + rest);
    U16RoundTrip(Ty, "u16", "channel_count", h.channelCount, rest);
  }

  lemma TailRoundTrip(h: NowGfwxHeader, rest: Bytes)
    ensures DecodeTail(EncodeTail(h) + rest) == Ok(Step((h.transform, h.colorFlags), rest))
  {
    assert EncodeTail(h) + rest == U32(h.transform) + (U32(h.colorFlags) + rest);
    U32RoundTrip(Ty, "u32", "transform", h.transform, U32(h.colorFlags) + rest);
    U32RoundTrip(Ty, "u32", "color_flags", h.colorFlags, rest);
  }

  /// Every header reads back from its 36 bytes, leaving what follows.
  lemma RoundTrip(h: NowGfwxHeader, rest: Bytes)
    ensures Decode(Encode(h) + rest) == Ok(Step(h, rest))
  {
    var s := EncodeSettings(h);
    var g := EncodeGeometry(h);
    var t := EncodeTail(h);
    assert Encode(h) + rest == EncodeIdent(h) + (s + (g + (t + rest)));
    IdentRoundTrip(h, s + (g + (t + rest)));
    SettingsRoundTrip(h, g + (t + rest));
    GeometryRoundTrip(h, t + rest);
    TailRoundTrip(h, rest);
  }

  /// A filter, quantization or encoder byte outside its table is refused
  /// even when all 36 bytes are there.
  lemma UnlistedEncoderRefused(b: Bytes)
    requires 36 <= |b| && b[14] > 2 && b[12] <= 1 && b[13] == 0
    ensures Decode(b).Err?
  {
    var ident := DecodeIdent(b).value;
    var s := ident.rest;
    assert s[6] == b[14] && s[4] == b[12] && s[5] == b[13];
    var quality := U16Field(Ty, "u16", "quality_level", s).value;
    var chroma := U8Field(Ty, "u8", "chroma_scale", quality.rest).value;
    var block := U8Field(Ty, "u8", "block_size", chroma.rest).value;
    var filter := ListedByte("NowGWFXFilter", FilterFromByte, block.rest).value;
    var quantization := ListedByte("NowGWFXQuantization", QuantizationFromByte, filter.rest).value;
    assert quantization.rest[0] == b[14];
  }

  // ---------------------------------------------------------------- the codec's header

  /// The codec's `Filter`, `Quantization` and `Encoder`.
  datatype CodecFilter = FilterLinear | FilterCubic
  datatype CodecQuantization = QuantizationScalar
  datatype CodecEncoder = EncoderTurbo | EncoderFast | EncoderContextual

  /// The codec's `Intent`, opaque here.
  datatype Intent = Intent(code: nat)

  /// `From<NowGWFXFilter> for Filter` and its two siblings.
  function ToCodecFilter(f: NowFilter): (c: CodecFilter)
    ensures CodecFilterName(c) == FilterName(f)
  {
    match f
    case Linear => FilterLinear
    case Cubic => FilterCubic
  }

  function ToCodecQuantization(q: NowQuantization): (c: CodecQuantization)
    ensures c == QuantizationScalar
  {
    QuantizationScalar
  }

  function ToCodecEncoder(e: NowEncoder): (c: CodecEncoder)
    ensures CodecEncoderName(c) == EncoderName(e)
  {
    match e
    case Turbo => EncoderTurbo
    case Fast => EncoderFast
    case Contextual => EncoderContextual
  }

  /// The names the two sides print.
  function FilterName(f: NowFilter): string
  {
    match f
    case Linear => "Linear"
    case Cubic => "Cubic"
  }

  function CodecFilterName(f: CodecFilter): string
  {
    match f
    case FilterLinear => "Linear"
    case FilterCubic => "Cubic"
  }

  function EncoderName(e: NowEncoder): string
  {
    match e
    case Turbo => "Turbo"
    case Fast => "Fast"
    case Contextual => "Contextual"
  }

  function CodecEncoderName(e: CodecEncoder): string
  {
    match e
    case EncoderTurbo => "Turbo"
    case EncoderFast => "Fast"
    case EncoderContextual => "Contextual"
  }

  /// The conversions keep each variant's name, and so are one-to-one and
  /// onto.
  lemma ConversionsKeepNames(f: NowFilter, g: NowFilter, e: NowEncoder, d: NowEncoder, c: CodecFilter,
                             x: CodecEncoder)
    ensures CodecFilterName(ToCodecFilter(f)) == FilterName(f)
    ensures CodecEncoderName(ToCodecEncoder(e)) == EncoderName(e)
    ensures ToCodecFilter(f) == ToCodecFilter(g) ==> f == g
    ensures ToCodecEncoder(e) == ToCodecEncoder(d) ==> e == d
    ensures exists n :: ToCodecFilter(n) == c
    ensures exists n :: ToCodecEncoder(n) == x
  {
    match c {
      case FilterLinear => assert ToCodecFilter(Linear) == c;
      case FilterCubic => assert ToCodecFilter(Cubic) == c;
    }
    match x
    case EncoderTurbo => assert ToCodecEncoder(Turbo) == x;
    case EncoderFast => assert ToCodecEncoder(Fast) == x;
    case EncoderContextual => assert ToCodecEncoder(Contextual) == x;
  }

  /// `NowGfwxParams`: what the caller knows about the image.
  datatype NowGfwxParams = NowGfwxParams(version: u32, layers: u16, channels: u16, bitDepth: u8, isSigned: bool,
                                         intent: Intent, metadataSize: u32)

  /// The codec's `Header`; the two sizes are `usize`.
  datatype CodecHeader = CodecHeader(
    version: u32, width: u32, height: u32, layers: u16, channels: u16, bitDepth: u8, isSigned: bool,
    quality: u16, chromaScale: u8, blockSize: u8, filter: CodecFilter, quantization: CodecQuantization,
    encoder: CodecEncoder, intent: Intent, metadataSize: u32, channelSize: nat, imageSize: nat)

  /// `to_gfwx_header_with_params`.
  function ToCodecHeader(h: NowGfwxHeader, p: NowGfwxParams): (c: CodecHeader)
    ensures c.width == h.imageWidth && c.height == h.imageHeight && c.quality == h.qualityLevel
    ensures c.chromaScale == h.chromaScale && c.blockSize == h.blockSize
    ensures c.version == p.version && c.layers == p.layers && c.channels == p.channels && c.bitDepth == p.bitDepth
    ensures c.isSigned == p.isSigned && c.intent == p.intent && c.metadataSize == p.metadataSize
    ensures c.channelSize < 0x1_0000_0000_0000_0000
    ensures c.imageSize == c.channelSize * c.layers * c.channels
  {
    var channelSize := h.imageWidth as nat * h.imageHeight as nat;
    assert channelSize < 0x1_0000_0000_0000_0000 by {
      assert h.imageWidth as nat <= 0xffff_ffff && h.imageHeight as nat <= 0xffff_ffff;
      MulBound(h.imageWidth as nat, h.imageHeight as nat, 0xffff_ffff);
    }
    CodecHeader(p.version, h.imageWidth, h.imageHeight, p.layers, p.channels, p.bitDepth, p.isSigned,
                h.qualityLevel, h.chromaScale, h.blockSize, ToCodecFilter(h.filter), ToCodecQuantization(h.quantization),
                ToCodecEncoder(h.encoder), p.intent, p.metadataSize,
                channelSize, channelSize * p.layers as nat * p.channels as nat)
  }

  lemma MulBound(a: nat, b: nat, m: nat)
    requires a <= m && b <= m
    ensures a * b <= m * m
  {
    assert a * b <= m * b;
    assert m * b <= m * m;
  }

  /// The header's own layer and channel counts, and every field the codec
  /// header does not take, play no part: only the dimensions, quality,
  /// chroma, block size and the three tables do.
  lemma HeaderCountsIgnored(h: NowGfwxHeader, p: NowGfwxParams, layerCount: u16, channelCount: u16, magic: u32,
                            transform: u32)
    ensures ToCodecHeader(h.(layerCount := layerCount, channelCount := channelCount, magic := magic,
                             transform := transform), p)
         == ToCodecHeader(h, p)
  {
  }

  /// The codec header's filter, quantization and encoder name the header's.
  lemma CodecTablesFromHeader(h: NowGfwxHeader, p: NowGfwxParams)
    ensures CodecFilterName(ToCodecHeader(h, p).filter) == FilterName(h.filter)
    ensures CodecEncoderName(ToCodecHeader(h, p).encoder) == EncoderName(h.encoder)
  {
    ConversionsKeepNames(h.filter, h.filter, h.encoder, h.encoder, FilterLinear, EncoderTurbo);
  }

  // ---------------------------------------------------------------- test vectors

  /// `ENCODED_NOW_GFWX_HEADER`
  const HeaderBytes: Bytes :=
    [0x47, 0x46, 0x57, 0x58, 0x02, 0x24, 0x00, 0x00]
    + [0x40, 0x00, 0x04, 0x07, 0x00, 0x00, 0x01, 0x08]
    + [0x24, 0x01, 0x00, 0x00, 0x28, 0x00, 0x00, 0x00, 0x01, 0x00, 0x03, 0x00]
    + [0x41, 0x37, 0x31, 0x31, 0x00, 0x00, 0x00, 0x00]

  /// `DECODED_NOW_GFWX_HEADER`
  const TestHeader := NowGfwxHeader(1482114631, 2, 36, 0, 64, 4, 7, Linear, Scalar, Fast, 8, 292, 40, 1, 3,
                                    825308993, 0)

  /// `NOW_GFWX_PARAMS`, with RGB as intent code 0.
  const TestParams := NowGfwxParams(1, 1, 3, 8, false, Intent(0), 0)

  /// The magic word "GFWX", one byte at a time.
  lemma MagicBytes()
    ensures LeBytes(1482114631, 4) == [0x47, 0x46, 0x57, 0x58]
  {
    assert LeBytes(0, 0) == [];
    assert LeBytes(88, 1) == [0x58];
    assert LeBytes(22615, 2) == [0x57, 0x58];
    assert LeBytes(5789510, 3) == [0x46, 0x57, 0x58];
  }

  lemma IdentBytes()
    ensures EncodeIdent(TestHeader) == [0x47, 0x46, 0x57, 0x58, 0x02, 0x24, 0x00, 0x00]
  {
    Pow256Widths();
    ZeroEncodings();
    MagicBytes();
    assert LeBytes(2, 1) == [0x02] && LeBytes(36, 1) == [0x24];
  }

  lemma SettingsWords()
    ensures U16(64) == [0x40, 0x00]
    ensures U8(4) == [0x04] && U8(7) == [0x07] && U8(1) == [0x01] && U8(8) == [0x08]
  {
    Pow256Widths();
    assert LeBytes(0, 1) == [0x00];
    assert LeBytes(64, 2) == [0x40, 0x00];
    assert LeBytes(4, 1) == [0x04] && LeBytes(7, 1) == [0x07] && LeBytes(1, 1) == [0x01] && LeBytes(8, 1) == [0x08];
  }

  lemma SettingsBytes()
    ensures EncodeSettings(TestHeader) == [0x40, 0x00, 0x04, 0x07, 0x00, 0x00, 0x01, 0x08]
  {
    ZeroEncodings();
    SettingsWords();
  }

  lemma DimensionBytes()
    ensures U32(292) == [0x24, 0x01, 0x00, 0x00] && U32(40) == [0x28, 0x00, 0x00, 0x00]
  {
    Pow256Widths();
    assert LeBytes(292, 4) == [0x24, 0x01, 0x00, 0x00];
    assert LeBytes(40, 4) == [0x28, 0x00, 0x00, 0x00];
  }

  lemma CountBytes()
    ensures U16(1) == [0x01, 0x00] && U16(3) == [0x03, 0x00]
  {
    Pow256Widths();
    assert LeBytes(1, 2) == [0x01, 0x00] && LeBytes(3, 2) == [0x03, 0x00];
  }

  lemma GeometryBytes()
    ensures EncodeGeometry(TestHeader) == [0x24, 0x01, 0x00, 0x00, 0x28, 0x00, 0x00, 0x00, 0x01, 0x00, 0x03, 0x00]
  {
    DimensionBytes();
    CountBytes();
  }

  /// The encoder word "A711", one byte at a time.
  lemma EncoderWordBytes()
    ensures LeBytes(825308993, 4) == [0x41, 0x37, 0x31, 0x31]
  {
    assert LeBytes(0, 0) == [];
    assert LeBytes(49, 1) == [0x31];
    assert LeBytes(12593, 2) == [0x31, 0x31];
    assert LeBytes(3223863, 3) == [0x37, 0x31, 0x31];
  }

  lemma TailBytes()
    ensures EncodeTail(TestHeader) == [0x41, 0x37, 0x31, 0x31, 0x00, 0x00, 0x00, 0x00]
  {
    Pow256Widths();
    ZeroEncodings();
    EncoderWordBytes();
  }

  /// The test bytes decode to the test header, which encodes back to them.
  lemma HeaderVector()
    ensures Encode(TestHeader) == HeaderBytes
    ensures Decode(HeaderBytes) == Ok(Step(TestHeader, []))
  {
    IdentBytes();
    SettingsBytes();
    GeometryBytes();
    TailBytes();
    RoundTrip(TestHeader, []);
    assert Encode(TestHeader) + [] == Encode(TestHeader);
  }

  /// The conversion of the test: 292 by 40 pixels, 11680 per channel and
  /// 35040 over one layer of three channels; the header's own counts are
  /// not used.
  lemma CodecHeaderVector()
    ensures ToCodecHeader(TestHeader, TestParams).channelSize == 11680
    ensures ToCodecHeader(TestHeader, TestParams).imageSize == 35040
    ensures ToCodecHeader(TestHeader, TestParams).filter == FilterLinear
    ensures ToCodecHeader(TestHeader, TestParams).encoder == EncoderFast
    ensures ToCodecHeader(TestHeader, TestParams).version == 1 && ToCodecHeader(TestHeader, TestParams).quality == 64
  {
  }
}
