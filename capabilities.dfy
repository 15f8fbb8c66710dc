/// `NowCapabilitiesMsg` and the capsets it carries: each capset is framed
/// by its full size (`u16`) and its name (`NowString64`), and the decoder
/// picks the capset's type by that name.
module Capabilities {
  import opened Wire
  import opened Errors
  import opened Derived
  import opened Text
  import Io
  import Serialization
  import NowStrings
  import Layout
  import Containers
  import Flags
  import Capsets
  import Surface
  import System

  // ---------------------------------------------------------------- the surface capset

  const SurfaceTy := "SurfaceCapset"

  /// `SurfaceCapset`: a flags word, then a surface list request.
  datatype SurfaceCapset = SurfaceCapset(flags: u32, listReq: Surface.NowSurfaceListReqMsg)

  /// `SurfaceCapset::new`
  function NewSurface(flags: u32, listReq: Surface.NowSurfaceListReqMsg): (c: SurfaceCapset)
    ensures c.flags == flags && c.listReq == listReq
  {
    SurfaceCapset(flags, listReq)
  }

  /// The list request holds values its decoder can return.
  predicate SurfaceWellFormed(c: SurfaceCapset)
  {
    Surface.CanonicalSubtype(c.listReq.head.subtype) && forall d | d in c.listReq.surfaces :: Surface.DefOk(d)
  }

  /// The derived encoder: it fails only when the list request does.
  function EncodeSurface(c: SurfaceCapset): (r: Result<Bytes>)
    ensures r.Ok? <==> |c.listReq.surfaces| < 256
    ensures r.Ok? ==> r.value == U32(c.flags) + Surface.EncodeListReq(c.listReq).value
  {
    var list :- OutField(SurfaceTy, "list_req", Surface.EncodeListReq(c.listReq));
    Ok(U32(c.flags) + list)
  }

  function DecodeSurface(b: Bytes): (r: Result<Step<SurfaceCapset>>)
    ensures r.Ok? ==> SurfaceWellFormed(r.value.value) && |r.value.value.listReq.surfaces| < 256
  {
    var flags :- Flags32Field(SurfaceTy, "SurfaceCapsetFlags", "flags", b);
    var list :- InField(SurfaceTy, "NowSurfaceListReqMsg", "list_req", Surface.DecodeListReq(flags.rest));
    Ok(Step(SurfaceCapset(flags.value, list.value), list.rest))
  }

  lemma SurfaceRoundTrip(c: SurfaceCapset, rest: Bytes)
    requires SurfaceWellFormed(c) && |c.listReq.surfaces| < 256
    ensures DecodeSurface(EncodeSurface(c).value + rest) == Ok(Step(c, rest))
  {
    var list := Surface.EncodeListReq(c.listReq).value;
    assert EncodeSurface(c).value + rest == U32(c.flags) + (list + rest);
    U32RoundTrip(SurfaceTy, "SurfaceCapsetFlags", "flags", c.flags, list + rest);
    Surface.ListReqRoundTrip(c.listReq, rest);
  }

  // ---------------------------------------------------------------- the system capset

  /// `SystemCapsetFlags::os_info`, the low bit.
  const OsInfoFlag: Flags.Word := 0x0000_0001

  predicate HasOsInfo(flags: u32) { flags % 2 == 1 }

  lemma OsInfoQuery(flags: u32)
    ensures Flags.Has(flags, OsInfoFlag) <==> HasOsInfo(flags)
  {
    Flags.HasLowBit(flags);
  }

  /// `SystemCapset`: a flags word, and the OS information when the flags
  /// say it follows.
  datatype SystemCapset = SystemCapset(flags: u32, osInfo: Option<System.OsInfo>)

  /// `SystemCapset::new_os_info`: only the OS information flag, and the
  /// information.
  function NewSystemOsInfo(i: System.OsInfo): (c: SystemCapset)
    ensures c.flags == OsInfoFlag && HasOsInfo(c.flags) && c.osInfo == Some(i)
  {
    SystemCapset(OsInfoFlag, Some(i))
  }

  /// The information is there exactly when the flag says so, and is a
  /// value its decoder returns.
  predicate SystemWellFormed(c: SystemCapset)
  {
    (c.osInfo.Some? <==> HasOsInfo(c.flags))
    && (c.osInfo.Some? ==> System.OsInfoValid(c.osInfo.value) && System.Decodable(c.osInfo.value))
  }

  /// `new_os_info` sets the flag and the information together, so the
  /// capset it builds reads back.
  lemma NewSystemOsInfoReadsBack(i: System.OsInfo, rest: Bytes)
    requires System.OsInfoValid(i) && System.Decodable(i)
    ensures SystemWellFormed(NewSystemOsInfo(i))
    ensures DecodeSystem(EncodeSystem(NewSystemOsInfo(i)).value + rest) == Ok(Step(NewSystemOsInfo(i), rest))
  {
    SystemRoundTrip(NewSystemOsInfo(i), rest);
  }

  /// The hand-written encoder: the flags, then the information when there
  /// is one, whatever the flags say.
  function EncodeSystem(c: SystemCapset): (r: Result<Bytes>)
    ensures r.Ok? <==> (c.osInfo.Some? ==> System.OsInfoValid(c.osInfo.value))
    ensures r.Ok? && c.osInfo.None? ==> r.value == U32(c.flags)
    ensures r.Ok? && c.osInfo.Some? ==> r.value == U32(c.flags) + System.EncodeOsInfo(c.osInfo.value)
  {
    match c.osInfo
    case None => Ok(U32(c.flags))
    case Some(i) =>
      if System.OsInfoValid(i) then Ok(U32(c.flags) + System.EncodeOsInfo(i))
      else Err(FromKind(Encoding("NowSystemOsInfo")))
  }

  /// The hand-written decoder: the flags, then the information exactly
  /// when the flag is set.
  function DecodeSystem(b: Bytes): (r: Result<Step<SystemCapset>>)
    ensures r.Ok? ==> SystemWellFormed(r.value.value)
  {
    var flags :- UIntField("SystemCapsetFlags", "u32", "value", b, 4);
    Pow256Widths();
    if flags.value % 2 == 1 then
      var info :- System.DecodeOsInfo(flags.rest);
      Ok(Step(SystemCapset(flags.value, Some(info.value)), info.rest))
    else Ok(Step(SystemCapset(flags.value, None), flags.rest))
  }

  lemma SystemRoundTrip(c: SystemCapset, rest: Bytes)
    requires SystemWellFormed(c)
    ensures DecodeSystem(EncodeSystem(c).value + rest) == Ok(Step(c, rest))
  {
    if c.osInfo.Some? {
      SystemWithInfoReadsBack(c.flags, c.osInfo.value, rest);
    } else {
      UIntRoundTrip("SystemCapsetFlags", "u32", "value", c.flags, 4, rest);
    }
  }

  lemma SystemWithInfoReadsBack(flags: u32, i: System.OsInfo, rest: Bytes)
    requires HasOsInfo(flags) && System.OsInfoValid(i) && System.Decodable(i)
    ensures DecodeSystem(U32(flags) + System.EncodeOsInfo(i) + rest) == Ok(Step(SystemCapset(flags, Some(i)), rest))
  {
    var info := System.EncodeOsInfo(i);
    assert U32(flags) + info + rest == U32(flags) + (info + rest);
    UIntRoundTrip("SystemCapsetFlags", "u32", "value", flags, 4, info + rest);
    System.OsInfoRoundTrip(i, rest);
  }

  // ---------------------------------------------------------------- capset names

  /// "NowTransport", "NowSurface", "NowLicense", "NowAccess", "NowUpdate",
  /// "NowInput", "NowMouse" and "NowSystem": each capset type's `NAME`.
  const TransportName: Bytes := [0x4E, 0x6F, 0x77, 0x54, 0x72, 0x61, 0x6E, 0x73, 0x70, 0x6F, 0x72, 0x74]
  const SurfaceName: Bytes := [0x4E, 0x6F, 0x77, 0x53, 0x75, 0x72, 0x66, 0x61, 0x63, 0x65]
  const LicenseName: Bytes := [0x4E, 0x6F, 0x77, 0x4C, 0x69, 0x63, 0x65, 0x6E, 0x73, 0x65]
  const AccessName: Bytes := [0x4E, 0x6F, 0x77, 0x41, 0x63, 0x63, 0x65, 0x73, 0x73]
  const UpdateName: Bytes := [0x4E, 0x6F, 0x77, 0x55, 0x70, 0x64, 0x61, 0x74, 0x65]
  const InputName: Bytes := [0x4E, 0x6F, 0x77, 0x49, 0x6E, 0x70, 0x75, 0x74]
  const MouseName: Bytes := [0x4E, 0x6F, 0x77, 0x4D, 0x6F, 0x75, 0x73, 0x65]
  const SystemName: Bytes := [0x4E, 0x6F, 0x77, 0x53, 0x79, 0x73, 0x74, 0x65, 0x6D]

  /// The variants of `NowCapset`, without their contents.
  datatype CapsetKind = UnknownKind | TransportKind | SurfaceKind | LicenseKind | AccessKind | UpdateKind
                      | InputKind | MouseKind | SystemKind

  function KindName(k: CapsetKind): (n: Bytes)
    requires k != UnknownKind
    ensures 0 < |n| <= 12 && IsAscii(n)
  {
    match k
    case TransportKind => TransportName
    case SurfaceKind => SurfaceName
    case LicenseKind => LicenseName
    case AccessKind => AccessName
    case UpdateKind => UpdateName
    case InputKind => InputName
    case MouseKind => MouseName
    case SystemKind => SystemName
  }

  /// The name dispatch of the decoder: one of the eight names picks its
  /// capset, any other name the unknown capset.
  function Dispatch(name: Bytes): (k: CapsetKind)
    ensures k != UnknownKind ==> KindName(k) == name
  {
    if name == TransportName then TransportKind
    else if name == SurfaceName then SurfaceKind
    else if name == LicenseName then LicenseKind
    else if name == AccessName then AccessKind
    else if name == UpdateName then UpdateKind
    else if name == InputName then InputKind
    else if name == MouseName then MouseKind
    else if name == SystemName then SystemKind
    else UnknownKind
  }

  /// The eight names are distinct, so each picks its own capset.
  lemma DispatchOfName(k: CapsetKind)
    requires k != UnknownKind
    ensures Dispatch(KindName(k)) == k
  {
    assert TransportName[3] == 0x54 && SurfaceName[4] == 0x75 && LicenseName[3] == 0x4C && AccessName[3] == 0x41;
    assert UpdateName[3] == 0x55 && InputName[3] == 0x49 && MouseName[3] == 0x4D && SystemName[4] == 0x79;
  }

  // ---------------------------------------------------------------- the unknown capset

  const UnknownTy := "UnknownCapset"

  /// `UnknownCapset`: the full size of the capset as its size field says
  /// (size field and name included), the name, and the bytes after it.
  datatype UnknownCapset = UnknownCapset(size: u16, name: Bytes, data: Bytes)

  /// The size the capset's own bytes take: the size field, the name as a
  /// `NowString64`, and the data.
  function UnknownLen(u: UnknownCapset): (n: nat)
    ensures n == 2 + |u.name| + 2 + |u.data|
  {
    2 + NowStrings.EncodedLen(1, u.name) + |u.data|
  }

  /// A capset read back as unknown: a valid `NowString64` name that none
  /// of the eight capsets uses, and a size field that tells its real size.
  predicate UnknownWellFormed(u: UnknownCapset)
  {
    Layout.StrValid(64, 1, u.name) && Dispatch(u.name) == UnknownKind && u.size as nat == UnknownLen(u)
  }

  /// The hand-written encoder: the stored size, the name and the data,
  /// byte for byte. A name beyond the `NowString64` limit is refused (no
  /// such `NowString64` can be built).
  function EncodeUnknown(u: UnknownCapset): (r: Result<Bytes>)
    ensures r.Ok? <==> |u.name| <= 64
    ensures r.Ok? ==> r.value == U16(u.size) + NowStrings.Encode(1, u.name) + u.data && |r.value| == UnknownLen(u)
  {
    Pow256Widths();
    var name :- NowStrings.WriteChecked(64, 1, u.name);
    Ok(U16(u.size) + name + u.data)
  }

  /// The size field and the name, read as `NowCapset::decode_from` reads
  /// them (plain `?`, no context added).
  function ReadFrame(b: Bytes): (r: Result<Step<(u16, Bytes)>>)
    ensures r.Ok? ==> Layout.StrValid(64, 1, r.value.value.1) && |r.value.rest| < |b|
  {
    var size :- Serialization.DecodeUInt(b, 2);
    var name :- NowStrings.Decode(64, 1, size.rest);
    NowStrings.DecodeMeaning(64, 1, size.rest);
    Pow256Widths();
    Ok(Step((size.value, name.value), name.rest))
  }

  /// The frame of any valid name reads back, leaving what follows it.
  lemma FrameReadsBack(size: u16, name: Bytes, tail: Bytes)
    requires Layout.StrValid(64, 1, name)
    ensures ReadFrame(U16(size) + NowStrings.Encode(1, name) + tail) == Ok(Step((size, name), tail))
  {
    var n := NowStrings.Encode(1, name);
    assert U16(size) + n + tail == U16(size) + (n + tail);
    Serialization.UIntRoundTrip(size, 2, n + tail);
    NowStrings.RoundTrip(64, 1, name, tail);
  }

  /// `UnknownCapset::decode_from` as written: the size and the name, then
  /// the data up to where the size field says the capset ends. That end
  /// is sliced without a check, so a size field below the frame's own
  /// length or past the buffer panics; and the cursor stays after the
  /// name, so the data is left unread.
  function UnknownDecodeAsWritten(b: Bytes): (r: Io.Panicking<Result<Step<UnknownCapset>>>)
    ensures r.Returned? && r.value.Ok? ==>
              (var s := r.value.value;
               s.value.size as nat == UnknownLen(s.value) && |s.value.data| <= |s.rest|
               && s.rest[..|s.value.data|] == s.value.data)
  {
    match Serialization.DecodeUInt(b, 2)
    case Err(e) => Io.Returned(Err(e))
    case Ok(size) =>
      match OrDesc(Chain(NowStrings.Decode(64, 1, size.rest), Decoding(UnknownTy)),
                   Plain("invalid capset name now string 64"))
      case Err(e) => Io.Returned(Err(e))
      case Ok(name) =>
        var len := size.value - 2 - NowStrings.EncodedLen(1, name.value);
        if len < 0 || len > |name.rest| then Io.Panicked
        else
          Io.Returned(Ok(Step(UnknownCapset(size.value as u16, name.value, name.rest[..len]), name.rest)))
  }

  /// The data of an unknown capset, as long as its size field says, with
  /// the cursor moved past it; a size field that cannot be right is an
  /// error.
  function UnknownData(size: u16, name: Bytes, b: Bytes): (r: Result<Step<Bytes>>)
    ensures r.Ok? ==> 2 + (|name| + 2) + |r.value.value| == size as nat && r.value.value + r.value.rest == b
    ensures r.Err? <==> size as nat < 2 + (|name| + 2) || |b| < size as nat - (2 + (|name| + 2))
  {
    var len := size as int - 2 - NowStrings.EncodedLen(1, name);
    if len < 0 then
      Err(ProtoError(Decoding(UnknownTy), Some(Plain("capset size smaller than its size field and name")), None))
    else if len > |b| then
      Err(ProtoError(Decoding(UnknownTy), Some(Plain("capset size larger than the bytes left")), Some(FromIo(Io.Eof))))
    else
      assert b[..len] + b[len..] == b;
      Ok(Step(b[..len], b[len..]))
  }

  /// `UnknownCapset::decode_from` with the size field checked and the data
  /// consumed.
  function DecodeUnknown(b: Bytes): (r: Result<Step<UnknownCapset>>)
    ensures r.Ok? ==> UnknownLen(r.value.value) == r.value.value.size as nat && |r.value.rest| < |b|
  {
    var size :- Serialization.DecodeUInt(b, 2);
    var name :- OrDesc(Chain(NowStrings.Decode(64, 1, size.rest), Decoding(UnknownTy)),
                       Plain("invalid capset name now string 64"));
    Pow256Widths();
    var data :- UnknownData(size.value, name.value, name.rest);
    Ok(Step(UnknownCapset(size.value, name.value, data.value), data.rest))
  }

  lemma UnknownDataReadsBack(u: UnknownCapset, rest: Bytes)
    requires u.size as nat == UnknownLen(u)
    ensures UnknownData(u.size, u.name, u.data + rest) == Ok(Step(u.data, rest))
  {
    assert (u.data + rest)[..|u.data|] == u.data;
    assert (u.data + rest)[|u.data|..] == rest;
  }

  /// A capset whose size field is right reads back whole, and the cursor
  /// ends after its data.
  lemma UnknownRoundTrip(u: UnknownCapset, rest: Bytes)
    requires Layout.StrValid(64, 1, u.name) && u.size as nat == UnknownLen(u)
    ensures DecodeUnknown(EncodeUnknown(u).value + rest) == Ok(Step(u, rest))
  {
    var n := NowStrings.Encode(1, u.name);
    assert EncodeUnknown(u).value + rest == U16(u.size) + (n + (u.data + rest));
    Serialization.UIntRoundTrip(u.size, 2, n + (u.data + rest));
    NowStrings.RoundTrip(64, 1, u.name, u.data + rest);
    UnknownDataReadsBack(u, rest);
  }

  /// As written, the same bytes give the same capset, but the cursor is
  /// left before the data, which is read again by whatever comes next.
  lemma UnknownAsWrittenLeavesData(u: UnknownCapset, rest: Bytes)
    requires Layout.StrValid(64, 1, u.name) && u.size as nat == UnknownLen(u)
    ensures UnknownDecodeAsWritten(EncodeUnknown(u).value + rest) == Io.Returned(Ok(Step(u, u.data + rest)))
  {
    var n := NowStrings.Encode(1, u.name);
    assert EncodeUnknown(u).value + rest == U16(u.size) + (n + (u.data + rest));
    Serialization.UIntRoundTrip(u.size, 2, n + (u.data + rest));
    NowStrings.RoundTrip(64, 1, u.name, u.data + rest);
    assert (u.data + rest)[..|u.data|] == u.data;
  }

  /// Size 0 and an empty name: the end lies before the start, and the
  /// slice panics where the corrected decoder returns an error.
  lemma UnknownShortSizePanics()
    ensures UnknownDecodeAsWritten([0, 0, 0, 0]) == Io.Panicked
    ensures DecodeUnknown([0, 0, 0, 0]).Err?
  {
    var b: Bytes := [0, 0, 0, 0];
    ZeroEncodings();
    assert b == U16(0) + NowStrings.Encode(1, []) + [];
    NowStrings.RoundTrip(64, 1, [], []);
    Serialization.UIntRoundTrip(0, 2, NowStrings.Encode(1, []));
    assert b == U16(0) + (NowStrings.Encode(1, []) + []);
    AsciiIsUtf8([]);
  }

  // ---------------------------------------------------------------- NowCapset

  const CapsetTy := "NowCapset"

  /// `NowCapset`
  datatype NowCapset =
    | Unknown(unknown: UnknownCapset)
    | Transport(transport: Capsets.TransportCapset)
    | SurfaceCaps(surface: SurfaceCapset)
    | License(license: Capsets.LicenseCapset)
    | Access(access: Capsets.AccessCapset)
    | Update(update: Capsets.UpdateCapset)
    | Input(input: Capsets.InputCapset)
    | Mouse(mouse: Capsets.MouseCapset)
    | SystemCaps(system: SystemCapset)

  function KindOf(c: NowCapset): CapsetKind
  {
    match c
    case Unknown(_) => UnknownKind
    case Transport(_) => TransportKind
    case SurfaceCaps(_) => SurfaceKind
    case License(_) => LicenseKind
    case Access(_) => AccessKind
    case Update(_) => UpdateKind
    case Input(_) => InputKind
    case Mouse(_) => MouseKind
    case SystemCaps(_) => SystemKind
  }

  /// `name_as_str`: the unknown capset's own name, otherwise the capset
  /// type's `NAME`.
  function NameAsStr(c: NowCapset): (n: Bytes)
    ensures !c.Unknown? ==> n == KindName(KindOf(c))
  {
    if c.Unknown? then c.unknown.name else KindName(KindOf(c))
  }

  /// A capset holding values the decoder returns.
  predicate WellFormed(c: NowCapset)
  {
    match c
    case Unknown(u) => UnknownWellFormed(u)
    case Transport(_) => true
    case SurfaceCaps(s) => SurfaceWellFormed(s)
    case License(_) => true
    case Access(a) => forall d | d in a.accessControls :: Capsets.AccessDefOk(d)
    case Update(u) => Capsets.UpdateWellFormed(u)
    case Input(i) => forall d | d in i.actions :: Capsets.ActionDefOk(d)
    case Mouse(m) => Capsets.MouseModeCanonical(m.mode)
    case SystemCaps(s) => SystemWellFormed(s)
  }

  /// The known capset's own encoding, after its frame.
  function Body(c: NowCapset): (r: Result<Bytes>)
    requires !c.Unknown?
  {
    match c
    case Transport(t) => Ok(Capsets.EncodeTransport(t))
    case SurfaceCaps(s) => EncodeSurface(s)
    case License(l) => Ok(Capsets.EncodeLicense(l))
    case Access(a) => Capsets.EncodeAccess(a)
    case Update(u) => Capsets.EncodeUpdate(u)
    case Input(i) => Capsets.EncodeInput(i)
    case Mouse(m) => Ok(Capsets.EncodeMouse(m))
    case SystemCaps(s) => EncodeSystem(s)
  }

  /// `encoded_len`: the unknown capset's own bytes, or a known capset's
  /// body, its name's length, the name's two extra bytes and the size
  /// field.
  function EncodedLen(c: NowCapset): nat
    requires c.Unknown? || Body(c).Ok?
  {
    if c.Unknown? then UnknownLen(c.unknown)
    else |Body(c).value| + |KindName(KindOf(c))| + 2 + 2
  }

  /// The error of a capset too large for its `u16` size field.
  function SizeTooLarge(): (e: ProtoError)
    ensures e.kind == Encoding(CapsetTy)
  {
    ProtoError(Encoding(CapsetTy), Some(Plain("capset data too large for the size field")), Some(FromIntError()))
  }

  /// A known capset's frame around its body: the size (size field, name
  /// and body) when it fits a `u16`, then the name.
  function Framed(k: CapsetKind, body: Bytes): (r: Result<Bytes>)
    requires k != UnknownKind
    ensures r.Ok? <==> |body| + |KindName(k)| + 4 <= 0xFFFF
    ensures r.Ok? ==> |r.value| == |body| + |KindName(k)| + 4
    ensures r.Ok? ==> LeValue(r.value[..2]) == |body| + |KindName(k)| + 4
  {
    var size := |body| + NowStrings.EncodedLen(1, KindName(k)) + 2;
    if size > 0xFFFF then Err(SizeTooLarge())
    else
      var e := U16(size) + NowStrings.Encode(1, KindName(k)) + body;
      Pow256Widths();
      assert e[..2] == U16(size);
      LeValueOfLeBytes(size, 2);
      Ok(e)
  }

  /// The hand-written encoder: an unknown capset as it is; a known one
  /// framed by its computed size and its name, which fails when the size
  /// does not fit a `u16`.
  function Encode(c: NowCapset): (r: Result<Bytes>)
    ensures c.Unknown? ==> (r.Ok? <==> |c.unknown.name| <= 64)
    ensures !c.Unknown? && Body(c).Err? ==> r.Err?
    ensures r.Ok? && !c.Unknown? ==> |r.value| >= 4 && LeValue(r.value[..2]) == |r.value|
  {
    if c.Unknown? then EncodeUnknown(c.unknown)
    else
      var body :- Body(c);
      Framed(KindOf(c), body)
  }

  /// What `encoded_len` counts is what the encoder writes; for a known
  /// capset it is also the size field written, and it fails exactly when
  /// that size does not fit.
  lemma EncodedLenIsWritten(c: NowCapset)
    requires c.Unknown? || Body(c).Ok?
    requires c.Unknown? ==> |c.unknown.name| <= 64
    ensures Encode(c).Ok? <==> c.Unknown? || EncodedLen(c) <= 0xFFFF
    ensures Encode(c).Ok? ==> |Encode(c).value| == EncodedLen(c)
    ensures Encode(c).Ok? && !c.Unknown? ==> LeValue(Encode(c).value[..2]) == EncodedLen(c)
  {
  }

  /// The known capsets, each read from its body.
  function TransportVariant(b: Bytes): (r: Result<Step<NowCapset>>)
    ensures r.Ok? ==> r.value.value.Transport?
  {
    var t :- Capsets.DecodeTransport(b); Ok(Step(Transport(t.value), t.rest))
  }

  function SurfaceVariant(b: Bytes): (r: Result<Step<NowCapset>>)
    ensures r.Ok? ==> r.value.value.SurfaceCaps? && SurfaceWellFormed(r.value.value.surface)
  {
    var s :- DecodeSurface(b); Ok(Step(SurfaceCaps(s.value), s.rest))
  }

  function LicenseVariant(b: Bytes): (r: Result<Step<NowCapset>>)
    ensures r.Ok? ==> r.value.value.License?
  {
    var l :- Capsets.DecodeLicense(b); Ok(Step(License(l.value), l.rest))
  }

  function AccessVariant(b: Bytes): (r: Result<Step<NowCapset>>)
    ensures r.Ok? ==> r.value.value.Access? && forall d | d in r.value.value.access.accessControls :: Capsets.AccessDefOk(d)
  {
    var a :- Capsets.DecodeAccess(b); Ok(Step(Access(a.value), a.rest))
  }

  function UpdateVariant(b: Bytes): (r: Result<Step<NowCapset>>)
    ensures r.Ok? ==> r.value.value.Update? && Capsets.UpdateWellFormed(r.value.value.update)
  {
    var u :- Capsets.DecodeUpdate(b); Ok(Step(Update(u.value), u.rest))
  }

  function InputVariant(b: Bytes): (r: Result<Step<NowCapset>>)
    ensures r.Ok? ==> r.value.value.Input? && forall d | d in r.value.value.input.actions :: Capsets.ActionDefOk(d)
  {
    var i :- Capsets.DecodeInput(b); Ok(Step(Input(i.value), i.rest))
  }

  function MouseVariant(b: Bytes): (r: Result<Step<NowCapset>>)
    ensures r.Ok? ==> r.value.value.Mouse? && Capsets.MouseModeCanonical(r.value.value.mouse.mode)
  {
    var m :- Capsets.DecodeMouse(b); Ok(Step(Mouse(m.value), m.rest))
  }

  function SystemVariant(b: Bytes): (r: Result<Step<NowCapset>>)
    ensures r.Ok? ==> r.value.value.SystemCaps? && SystemWellFormed(r.value.value.system)
  {
    var s :- DecodeSystem(b); Ok(Step(SystemCaps(s.value), s.rest))
  }

  /// The known capset `k` names, read from its body.
  function VariantDecoder(k: CapsetKind): Containers.Decoder<NowCapset>
    requires k != UnknownKind
  {
    match k
    case TransportKind => TransportVariant
    case SurfaceKind => SurfaceVariant
    case LicenseKind => LicenseVariant
    case AccessKind => AccessVariant
    case UpdateKind => UpdateVariant
    case InputKind => InputVariant
    case MouseKind => MouseVariant
    case SystemKind => SystemVariant
  }

  function DecodeKnown(k: CapsetKind, b: Bytes): (r: Result<Step<NowCapset>>)
    requires k != UnknownKind
    ensures r.Ok? ==> KindOf(r.value.value) == k && WellFormed(r.value.value)
  {
    VariantDecoder(k)(b)
  }

  /// `NowCapset::decode_from` as written: the size field is read and
  /// ignored for the known capsets; an unknown name takes every byte left
  /// in the buffer as its data and leaves the cursor before them.
  function DecodeAsWritten(b: Bytes): (r: Result<Step<NowCapset>>)
    ensures r.Ok? && r.value.value.Unknown? ==> r.value.rest == r.value.value.unknown.data
  {
    var frame :- ReadFrame(b);
    var k := Dispatch(frame.value.1);
    if k == UnknownKind then
      var data := Rest(frame.rest);
      Ok(Step(Unknown(UnknownCapset(frame.value.0, frame.value.1, data.value)), data.rest))
    else DecodeKnown(k, frame.rest)
  }

  /// The decoder with the unknown capset's data delimited by its size
  /// field, which every capset it returns satisfies.
  function Decode(b: Bytes): (r: Result<Step<NowCapset>>)
    ensures r.Ok? ==> WellFormed(r.value.value)
  {
    var frame :- ReadFrame(b);
    var k := Dispatch(frame.value.1);
    if k == UnknownKind then
      var data :- UnknownData(frame.value.0, frame.value.1, frame.rest);
      Ok(Step(Unknown(UnknownCapset(frame.value.0, frame.value.1, data.value)), data.rest))
    else DecodeKnown(k, frame.rest)
  }

  /// The two decoders differ only on unknown names.
  lemma DecodersAgreeOnKnownNames(b: Bytes)
    requires ReadFrame(b).Ok? && Dispatch(ReadFrame(b).value.value.1) != UnknownKind
    ensures DecodeAsWritten(b) == Decode(b)
  {
  }

  /// The size field of a known capset is never compared with what its
  /// body takes: any size field reads the same capset.
  lemma SizeFieldIgnored(size: u16, other: u16, k: CapsetKind, tail: Bytes)
    requires k != UnknownKind
    ensures var n := NowStrings.Encode(1, KindName(k));
            Decode(U16(size) + n + tail) == Decode(U16(other) + n + tail)
  {
    FrameDecodes(size, k, tail);
    FrameDecodes(other, k, tail);
  }

  /// Whatever the size field, a known name is followed by that capset's
  /// body.
  lemma FrameDecodes(size: u16, k: CapsetKind, tail: Bytes)
    requires k != UnknownKind
    ensures Decode(U16(size) + NowStrings.Encode(1, KindName(k)) + tail) == DecodeKnown(k, tail)
  {
    Pow256Widths();
    AsciiIsUtf8(KindName(k));
    FrameReadsBack(size, KindName(k), tail);
    DispatchOfName(k);
  }

  lemma TransportReadsBack(t: Capsets.TransportCapset, rest: Bytes)
    ensures DecodeKnown(TransportKind, Capsets.EncodeTransport(t) + rest) == Ok(Step(Transport(t), rest))
  {
    assert VariantDecoder(TransportKind) == TransportVariant;
    Capsets.TransportRoundTrip(t, rest);
  }

  lemma SurfaceReadsBack(s: SurfaceCapset, rest: Bytes)
    requires SurfaceWellFormed(s) && |s.listReq.surfaces| < 256
    ensures DecodeKnown(SurfaceKind, EncodeSurface(s).value + rest) == Ok(Step(SurfaceCaps(s), rest))
  {
    assert VariantDecoder(SurfaceKind) == SurfaceVariant;
    SurfaceRoundTrip(s, rest);
  }

  lemma LicenseReadsBack(l: Capsets.LicenseCapset, rest: Bytes)
    ensures DecodeKnown(LicenseKind, Capsets.EncodeLicense(l) + rest) == Ok(Step(License(l), rest))
  {
    assert VariantDecoder(LicenseKind) == LicenseVariant;
    Capsets.LicenseRoundTrip(l, rest);
  }

  lemma AccessReadsBack(a: Capsets.AccessCapset, rest: Bytes)
    requires (forall d | d in a.accessControls :: Capsets.AccessDefOk(d)) && |a.accessControls| < 256
    ensures DecodeKnown(AccessKind, Capsets.EncodeAccess(a).value + rest) == Ok(Step(Access(a), rest))
  {
    assert VariantDecoder(AccessKind) == AccessVariant;
    Capsets.AccessRoundTrip(a, rest);
  }

  lemma UpdateReadsBack(u: Capsets.UpdateCapset, rest: Bytes)
    requires Capsets.UpdateWellFormed(u) && |u.codecs| < 256
    ensures DecodeKnown(UpdateKind, Capsets.EncodeUpdate(u).value + rest) == Ok(Step(Update(u), rest))
  {
    assert VariantDecoder(UpdateKind) == UpdateVariant;
    Capsets.UpdateRoundTrip(u, rest);
  }

  lemma InputReadsBack(i: Capsets.InputCapset, rest: Bytes)
    requires (forall d | d in i.actions :: Capsets.ActionDefOk(d)) && |i.actions| < 256
    ensures DecodeKnown(InputKind, Capsets.EncodeInput(i).value + rest) == Ok(Step(Input(i), rest))
  {
    assert VariantDecoder(InputKind) == InputVariant;
    Capsets.InputRoundTrip(i, rest);
  }

  lemma MouseReadsBack(m: Capsets.MouseCapset, rest: Bytes)
    requires Capsets.MouseModeCanonical(m.mode)
    ensures DecodeKnown(MouseKind, Capsets.EncodeMouse(m) + rest) == Ok(Step(Mouse(m), rest))
  {
    assert VariantDecoder(MouseKind) == MouseVariant;
    Capsets.MouseRoundTrip(m, rest);
  }

  lemma SystemReadsBack(s: SystemCapset, rest: Bytes)
    requires SystemWellFormed(s)
    ensures DecodeKnown(SystemKind, EncodeSystem(s).value + rest) == Ok(Step(SystemCaps(s), rest))
  {
    assert VariantDecoder(SystemKind) == SystemVariant;
    SystemRoundTrip(s, rest);
  }

  lemma KnownBodyReadsBack(c: NowCapset, rest: Bytes)
    requires !c.Unknown? && WellFormed(c) && Body(c).Ok?
    ensures DecodeKnown(KindOf(c), Body(c).value + rest) == Ok(Step(c, rest))
  {
    if c.Transport? || c.SurfaceCaps? || c.License? || c.Access? {
      FixedBodyReadsBack(c, rest);
    } else {
      ListBodyReadsBack(c, rest);
    }
  }

  lemma FixedBodyReadsBack(c: NowCapset, rest: Bytes)
    requires c.Transport? || c.SurfaceCaps? || c.License? || c.Access?
    requires WellFormed(c) && Body(c).Ok?
    ensures DecodeKnown(KindOf(c), Body(c).value + rest) == Ok(Step(c, rest))
  {
    match c
    case Transport(t) => TransportReadsBack(t, rest);
    case SurfaceCaps(s) => SurfaceReadsBack(s, rest);
    case License(l) => LicenseReadsBack(l, rest);
    case Access(a) => AccessReadsBack(a, rest);
  }

  lemma ListBodyReadsBack(c: NowCapset, rest: Bytes)
    requires c.Update? || c.Input? || c.Mouse? || c.SystemCaps?
    requires WellFormed(c) && Body(c).Ok?
    ensures DecodeKnown(KindOf(c), Body(c).value + rest) == Ok(Step(c, rest))
  {
    match c
    case Update(u) => UpdateReadsBack(u, rest);
    case Input(i) => InputReadsBack(i, rest);
    case Mouse(m) => MouseReadsBack(m, rest);
    case SystemCaps(s) => SystemReadsBack(s, rest);
  }

  /// A known capset that encodes is its body in its frame.
  lemma KnownFrame(c: NowCapset)
    requires !c.Unknown? && Encode(c).Ok?
    ensures Body(c).Ok? && Encode(c) == Framed(KindOf(c), Body(c).value)
  {
  }

  /// The frame's bytes: the size it computes, then the name.
  lemma FramedBytes(k: CapsetKind, body: Bytes)
    requires k != UnknownKind && Framed(k, body).Ok?
    ensures |body| + |KindName(k)| + 4 < 0x1_0000
    ensures Framed(k, body).value == U16(|body| + |KindName(k)| + 4) + NowStrings.Encode(1, KindName(k)) + body
  {
  }

  lemma Reassociate(x: Bytes, frame: Bytes, body: Bytes, rest: Bytes)
    requires x == frame + body
    ensures x + rest == frame + (body + rest)
  {
  }

  /// Past a known capset's frame the decoder reads the body by its name.
  lemma FramedDecodes(k: CapsetKind, body: Bytes, rest: Bytes)
    requires k != UnknownKind && Framed(k, body).Ok?
    ensures Decode(Framed(k, body).value + rest) == DecodeKnown(k, body + rest)
  {
    FramedBytes(k, body);
    var size := |body| + |KindName(k)| + 4;
    var frame := U16(size) + NowStrings.Encode(1, KindName(k));
    Reassociate(Framed(k, body).value, frame, body, rest);
    FrameDecodes(size, k, body + rest);
  }

  lemma KnownReadsBack(c: NowCapset, rest: Bytes)
    requires !c.Unknown? && WellFormed(c) && Encode(c).Ok?
    ensures Decode(Encode(c).value + rest) == Ok(Step(c, rest))
  {
    KnownFrame(c);
    FramedDecodes(KindOf(c), Body(c).value, rest);
    KnownBodyReadsBack(c, rest);
  }

  lemma UnknownReadsBack(u: UnknownCapset, rest: Bytes)
    requires UnknownWellFormed(u)
    ensures Decode(EncodeUnknown(u).value + rest) == Ok(Step(Unknown(u), rest))
  {
    var frame := U16(u.size) + NowStrings.Encode(1, u.name);
    assert EncodeUnknown(u).value + rest == frame + (u.data + rest);
    FrameReadsBack(u.size, u.name, u.data + rest);
    UnknownDataReadsBack(u, rest);
  }

  /// Decoding a well-formed capset's encoding gives it back and leaves
  /// what follows it unread.
  lemma RoundTrip(c: NowCapset, rest: Bytes)
    requires WellFormed(c) && Encode(c).Ok?
    ensures Decode(Encode(c).value + rest) == Ok(Step(c, rest))
  {
    if c.Unknown? {
      UnknownReadsBack(c.unknown, rest);
    } else {
      KnownReadsBack(c, rest);
    }
  }

  /// The name a capset is written with is the name the decoder dispatches
  /// on: the capset read back has the same `name_as_str`.
  lemma NameAsStrIsDispatched(c: NowCapset, rest: Bytes)
    requires WellFormed(c) && Encode(c).Ok?
    ensures Decode(Encode(c).value + rest).Ok?
    ensures NameAsStr(Decode(Encode(c).value + rest).value.value) == NameAsStr(c)
    ensures Dispatch(NameAsStr(c)) == KindOf(c)
  {
    RoundTrip(c, rest);
    if !c.Unknown? {
      DispatchOfName(KindOf(c));
    }
  }

  /// As written, an unknown capset followed by more bytes takes them all as
  /// its data, and leaves the cursor where its data starts: whatever follows
  /// is read twice.
  lemma UnknownSwallowsWhatFollows(u: UnknownCapset, rest: Bytes)
    requires UnknownWellFormed(u)
    ensures DecodeAsWritten(EncodeUnknown(u).value + rest)
            == Ok(Step(Unknown(u.(data := u.data + rest)), u.data + rest))
  {
    var frame := U16(u.size) + NowStrings.Encode(1, u.name);
    assert EncodeUnknown(u).value + rest == frame + (u.data + rest);
    FrameReadsBack(u.size, u.name, u.data + rest);
  }

  // ---------------------------------------------------------------- NowCapabilitiesMsg

  const MsgTy := "NowCapabilitiesMsg"
  const MsgFields := [Layout.UInt("flags", "u32", 4)]
  const ListTy := "Vec8 < NowCapset < 'a > >"

  /// `NowCapabilitiesMsg`: a flags word and the capsets, as a `Vec8`.
  datatype NowCapabilitiesMsg = NowCapabilitiesMsg(flags: u32, capabilities: seq<NowCapset>)

  /// `new_with_capabilities`: no flags, the capsets in the order given.
  function NewCapabilitiesMsg(capabilities: seq<NowCapset>): (m: NowCapabilitiesMsg)
    ensures m.flags == 0 && m.capabilities == capabilities
  {
    NowCapabilitiesMsg(0, capabilities)
  }

  function MsgValues(m: NowCapabilitiesMsg): (vs: seq<nat>)
    ensures Layout.Fits(MsgFields, vs)
  {
    Pow256Widths();
    [m.flags]
  }

  /// The derived encoder: it fails when there are more than 255 capsets
  /// or when one of them fails.
  function EncodeMsg(m: NowCapabilitiesMsg): (r: Result<Bytes>)
    ensures r.Ok? <==> Containers.EncodeVec(Encode, 1, m.capabilities).Ok?
    ensures r.Ok? ==> r.value == U32(m.flags) + Containers.EncodeVec(Encode, 1, m.capabilities).value
  {
    Pow256Widths();
    assert Layout.Encode(MsgFields, MsgValues(m)) == U32(m.flags);
    Layout.EncodeWithVec(MsgTy, MsgFields, MsgValues(m), "capabilities", Encode, 1, m.capabilities)
  }

  /// The derived decoder; with the corrected capset decoder every capset it
  /// returns is well formed.
  function DecodeMsg(b: Bytes): (r: Result<Step<NowCapabilitiesMsg>>)
    ensures r.Ok? ==> 5 <= |b| && forall c | c in r.value.value.capabilities :: WellFormed(c)
  {
    var x :- Layout.DecodeWithVec(MsgTy, MsgFields, ListTy, "capabilities", Decode, 1, b);
    DecodeYields();
    Layout.WithVecYields(MsgTy, MsgFields, ListTy, "capabilities", Decode, WellFormed, 1, b);
    Pow256Widths();
    Ok(Step(NowCapabilitiesMsg(x.value.0[0], x.value.1), x.rest))
  }

  lemma DecodeYields()
    ensures Containers.Yields(Decode, WellFormed)
  {
  }

  /// Capsets that read back one by one read back as a list.
  lemma CapsetsInverse(xs: seq<NowCapset>)
    requires forall c | c in xs :: WellFormed(c)
    ensures Containers.InverseOn(Encode, Decode, xs)
  {
    forall c | c in xs
      ensures Containers.ReadsBack(Encode, Decode, c)
    {
      if Encode(c).Ok? {
        forall rest: Bytes
          ensures Decode(Encode(c).value + rest) == Ok(Step(c, rest))
        {
          RoundTrip(c, rest);
        }
      }
    }
    Containers.InverseOnEach(Encode, Decode, xs);
  }

  /// A message of well-formed capsets that encodes reads back.
  lemma MsgRoundTrip(m: NowCapabilitiesMsg, rest: Bytes)
    requires (forall c | c in m.capabilities :: WellFormed(c)) && EncodeMsg(m).Ok?
    ensures DecodeMsg(EncodeMsg(m).value + rest) == Ok(Step(m, rest))
  {
    CapsetsInverse(m.capabilities);
    Layout.WithVecRoundTrip(MsgTy, MsgFields, MsgValues(m), ListTy, "capabilities",
                            Encode, Decode, 1, m.capabilities, rest);
  }
}
