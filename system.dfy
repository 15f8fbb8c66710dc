/// The system messages: the operating-system description a peer sends
/// (`NowSystemOsInfo` and its per-platform extras), the information request
/// and response around it, and the shutdown request.
///
/// `NowSystemOsInfo` has a hand-written codec. Its encoder writes every
/// string field, the four kernel strings included, while its decoder reads
/// the kernel strings only when the kernel flag is set; the model keeps that
/// encoder as `EncodeOsInfoAsWritten` and proves its consequences, and uses
/// an encoder that follows the flag, as the decoder does (`EncodeOsInfo`).
module System {
  import opened Wire
  import opened Errors
  import opened Derived
  import Text
  import Serialization
  import NowStrings
  import Layout
  import Flags

  // ---------------------------------------------------------------- value tables

  /// `SystemInfoType`, a `u16` table with fallback.
  datatype SystemInfoType = Os | Other(value: u16)

  function InfoTypeFromU16(v: u16): (t: SystemInfoType)
    ensures InfoTypeToU16(t) == v
    ensures t.Other? <==> v != 1
  {
    if v == 1 then Os else SystemInfoType.Other(v)
  }

  function InfoTypeToU16(t: SystemInfoType): u16
  {
    match t
    case Os => 1
    case Other(v) => v
  }

  predicate InfoTypeCanonical(t: SystemInfoType) { t.Other? ==> t.value != 1 }

  lemma InfoTypeTable(t: SystemInfoType)
    requires InfoTypeCanonical(t)
    ensures InfoTypeFromU16(InfoTypeToU16(t)) == t
  {
  }

  /// `OsType`, a `u8` table with fallback.
  datatype OsType = Windows | Mac | Linux | IOS | Android | Other(value: u8)

  function OsTypeFromU8(v: u8): (t: OsType)
    ensures OsTypeToU8(t) == v
    ensures t.Other? <==> !(1 <= v <= 5)
  {
    match v
    case 1 => Windows
    case 2 => Mac
    case 3 => Linux
    case 4 => IOS
    case 5 => Android
    case _ => OsType.Other(v)
  }

  function OsTypeToU8(t: OsType): u8
  {
    match t
    case Windows => 1
    case Mac => 2
    case Linux => 3
    case IOS => 4
    case Android => 5
    case Other(v) => v
  }

  predicate OsTypeCanonical(t: OsType) { t.Other? ==> !(1 <= t.value <= 5) }

  lemma OsTypeTable(t: OsType)
    requires OsTypeCanonical(t)
    ensures OsTypeFromU8(OsTypeToU8(t)) == t
  {
  }

  /// `OsArch`, a `u8` table with fallback.
  datatype OsArch = X86 | X64 | Arm | Arm64 | Other(value: u8)

  function OsArchFromU8(v: u8): (a: OsArch)
    ensures OsArchToU8(a) == v
    ensures a.Other? <==> !(1 <= v <= 4)
  {
    match v
    case 1 => X86
    case 2 => X64
    case 3 => Arm
    case 4 => Arm64
    case _ => OsArch.Other(v)
  }

  function OsArchToU8(a: OsArch): u8
  {
    match a
    case X86 => 1
    case X64 => 2
    case Arm => 3
    case Arm64 => 4
    case Other(v) => v
  }

  predicate OsArchCanonical(a: OsArch) { a.Other? ==> !(1 <= a.value <= 4) }

  lemma OsArchTable(a: OsArch)
    requires OsArchCanonical(a)
    ensures OsArchFromU8(OsArchToU8(a)) == a
  {
  }

  // ---------------------------------------------------------------- flag words

  /// `SystemOsInfoFlags` (`u16`): an extra block follows, the kernel
  /// strings follow.
  const Extra: Flags.Word := 0x0001
  const Kernel: Flags.Word := 0x0002

  /// `WindowsProductFlags` (`u16`) and `ShutdownFlags` (`u8`).
  const Client: Flags.Word := 0x0001
  const Server: Flags.Word := 0x0002
  const Force: Flags.Word := 0x01
  const Reboot: Flags.Word := 0x02

  /// The two queries the decoder makes, on the word's bits.
  predicate ExtraSet(flags: u16) { flags % 2 == 1 }
  predicate KernelSet(flags: u16) { (flags / 2) % 2 == 1 }

  /// `flags.extra()` and `flags.kernel()` are those two bits.
  lemma FlagQueries(flags: u16)
    ensures Flags.Has(flags, Extra) <==> ExtraSet(flags)
    ensures Flags.Has(flags, Kernel) <==> KernelSet(flags)
  {
    Flags.HasLowBit(flags);
    Flags.HasSecondBit(flags);
  }

  /// `set_kernel` sets the kernel bit and leaves the extra bit; `set_extra`
  /// the other way round; both keep the word within 16 bits.
  function SetKernelFlag(flags: u16): (r: u16)
    ensures KernelSet(r) && (ExtraSet(r) <==> ExtraSet(flags))
  {
    Flags.WithKeepsWidth(flags, Kernel);
    var r := Flags.With(flags, Kernel);
    Flags.LowFlagsDisjoint();
    Flags.DisjointFlagsUnaffected(flags, Kernel, Extra);
    FlagQueries(flags);
    FlagQueries(r);
    r
  }

  function SetExtraFlag(flags: u16): (r: u16)
    ensures ExtraSet(r) && (KernelSet(r) <==> KernelSet(flags))
  {
    Flags.WithKeepsWidth(flags, Extra);
    var r := Flags.With(flags, Extra);
    Flags.LowFlagsDisjoint();
    Flags.DisjointFlagsUnaffected(flags, Extra, Kernel);
    FlagQueries(flags);
    FlagQueries(r);
    r
  }

  // ---------------------------------------------------------------- per-platform extras

  const WindowsTy := "OsInfoExtraWindows"
  const WindowsFields := [Layout.UInt("extra_flags", "u16", 2), Layout.FlagsOf("product_flags", "WindowsProductFlags", 2),
                          Layout.UInt("ubr", "u32", 4), Layout.UInt("release_id", "u32", 4),
                          Layout.UInt("service_pack_major", "u16", 2), Layout.UInt("service_pack_minor", "u16", 2)]

  /// `OsInfoExtraWindows`: sixteen bytes of integers, then the edition
  /// (`NowString32`) and the product name (`NowString64`).
  datatype WindowsExtra = WindowsExtra(extraFlags: u16, productFlags: u16, ubr: u32, releaseId: u32,
                                       servicePackMajor: u16, servicePackMinor: u16,
                                       editionId: Bytes, productName: Bytes)

  predicate WindowsValid(w: WindowsExtra)
  {
    Layout.StrValid(32, 1, w.editionId) && Layout.StrValid(64, 1, w.productName)
  }

  function WindowsValues(w: WindowsExtra): (vs: seq<nat>)
    ensures Layout.Fits(WindowsFields, vs)
  {
    Pow256Widths();
    [w.extraFlags, w.productFlags, w.ubr, w.releaseId, w.servicePackMajor, w.servicePackMinor]
  }

  function EncodeWindows(w: WindowsExtra): (e: Bytes)
    requires WindowsValid(w)
    ensures |e| == 20 + |w.editionId| + |w.productName|
  {
    Layout.Encode(WindowsFields, WindowsValues(w)) + Layout.Str(32, 1, w.editionId) + Layout.Str(64, 1, w.productName)
  }

  /// The extra whose integers read as `vs`; it writes `vs` back.
  function WindowsOf(vs: seq<nat>, editionId: Bytes, productName: Bytes): (w: WindowsExtra)
    requires Layout.Fits(WindowsFields, vs)
    ensures WindowsValues(w) == vs && w.editionId == editionId && w.productName == productName
  {
    Pow256Widths();
    assert vs[0] < Pow256(2) && vs[1] < Pow256(2) && vs[2] < Pow256(4) && vs[3] < Pow256(4);
    assert vs[4] < Pow256(2) && vs[5] < Pow256(2);
    WindowsExtra(vs[0], vs[1], vs[2], vs[3], vs[4], vs[5], editionId, productName)
  }

  /// The derived decoder: the integers, then the two strings; what it
  /// returns is a valid extra, and it consumes at least the integers.
  function DecodeWindows(b: Bytes): (r: Result<Step<WindowsExtra>>)
    ensures r.Ok? ==> WindowsValid(r.value.value) && |r.value.rest| < |b|
  {
    var x :- Layout.Decode(WindowsTy, WindowsFields, b);
    var names :- DecodeWindowsNames(x.rest);
    Ok(Step(WindowsOf(x.value, names.value.0, names.value.1), names.rest))
  }

  function DecodeWindowsNames(b: Bytes): (r: Result<Step<(Bytes, Bytes)>>)
    ensures r.Ok? ==> Layout.StrValid(32, 1, r.value.value.0) && Layout.StrValid(64, 1, r.value.value.1)
                      && |r.value.rest| < |b|
  {
    var edition :- Layout.StrField(WindowsTy, "edition_id", 32, 1, b);
    var product :- Layout.StrField(WindowsTy, "product_name", 64, 1, edition.rest);
    Ok(Step((edition.value, product.value), product.rest))
  }

  lemma WindowsRoundTrip(w: WindowsExtra, rest: Bytes)
    requires WindowsValid(w)
    ensures DecodeWindows(EncodeWindows(w) + rest) == Ok(Step(w, rest))
  {
    var ints := Layout.Encode(WindowsFields, WindowsValues(w));
    var edition := Layout.Str(32, 1, w.editionId);
    var product := Layout.Str(64, 1, w.productName);
    assert EncodeWindows(w) + rest == ints + (edition + (product + rest));
    Layout.RoundTrip(WindowsTy, WindowsFields, WindowsValues(w), edition + (product + rest));
    Layout.StrRoundTrip(WindowsTy, "edition_id", 32, 1, w.editionId, product + rest);
    Layout.StrRoundTrip(WindowsTy, "product_name", 64, 1, w.productName, rest);
  }

  const PlatformFields := [Layout.UInt("extra_flags", "u16", 2), Layout.UInt("reserved", "u16", 2)]

  /// `OsInfoExtraMac`, `OsInfoExtraLinux`, `OsInfoExtraIOS` and
  /// `OsInfoExtraAndroid`: four structs of the same two `u16` fields.
  datatype PlatformExtra = PlatformExtra(extraFlags: u16, reserved: u16)

  /// `new_with_flags`: the reserved word is zero.
  function NewPlatformExtra(extraFlags: u16): (p: PlatformExtra)
    ensures p.extraFlags == extraFlags && p.reserved == 0
  {
    PlatformExtra(extraFlags, 0)
  }

  function PlatformValues(p: PlatformExtra): (vs: seq<nat>)
    ensures Layout.Fits(PlatformFields, vs)
  {
    Pow256Widths();
    [p.extraFlags, p.reserved]
  }

  function EncodePlatform(p: PlatformExtra): (e: Bytes)
    ensures |e| == 4
  {
    Layout.Encode(PlatformFields, PlatformValues(p))
  }

  function PlatformOf(vs: seq<nat>): (p: PlatformExtra)
    requires Layout.Fits(PlatformFields, vs)
    ensures PlatformValues(p) == vs
  {
    Pow256Widths();
    assert vs[0] < Pow256(2) && vs[1] < Pow256(2);
    PlatformExtra(vs[0], vs[1])
  }

  /// The derived decoder of the struct named `ty`: four bytes, and what it
  /// reads is the encoding of what it returns.
  function DecodePlatform(ty: string, b: Bytes): (r: Result<Step<PlatformExtra>>)
    ensures r.Ok? <==> 4 <= |b|
    ensures r.Ok? ==> r.value.rest == b[4..] && EncodePlatform(r.value.value) == b[..4]
  {
    var x :- Layout.Decode(ty, PlatformFields, b);
    Ok(Step(PlatformOf(x.value), x.rest))
  }

  lemma PlatformRoundTrip(ty: string, p: PlatformExtra, rest: Bytes)
    ensures DecodePlatform(ty, EncodePlatform(p) + rest) == Ok(Step(p, rest))
  {
    Layout.RoundTrip(ty, PlatformFields, PlatformValues(p), rest);
  }

  /// `OsInfoExtra`: one extra per known OS type. It is only encoded; the
  /// OS information's decoder picks the variant from the OS type.
  datatype OsInfoExtra =
    | WindowsInfo(windows: WindowsExtra)
    | MacInfo(platform: PlatformExtra)
    | LinuxInfo(platform: PlatformExtra)
    | IosInfo(platform: PlatformExtra)
    | AndroidInfo(platform: PlatformExtra)

  predicate ExtraValid(e: OsInfoExtra) { e.WindowsInfo? ==> WindowsValid(e.windows) }

  /// The extra variant an OS type carries; an unlisted OS type carries none.
  predicate ExtraFor(t: OsType, e: OsInfoExtra)
  {
    match t
    case Windows => e.WindowsInfo?
    case Mac => e.MacInfo?
    case Linux => e.LinuxInfo?
    case IOS => e.IosInfo?
    case Android => e.AndroidInfo?
    case Other(_) => false
  }

  /// The derived meta-enum encoder: the variant's struct, nothing before it.
  function EncodeExtra(e: OsInfoExtra): (b: Bytes)
    requires ExtraValid(e)
  {
    match e
    case WindowsInfo(w) => EncodeWindows(w)
    case MacInfo(p) => EncodePlatform(p)
    case LinuxInfo(p) => EncodePlatform(p)
    case IosInfo(p) => EncodePlatform(p)
    case AndroidInfo(p) => EncodePlatform(p)
  }

  // ---------------------------------------------------------------- NowSystemOsInfo

  /// `NowSystemOsInfo`. Its private subtype is always `Os`, set by `new`
  /// and by the decoder, so it is not held.
  datatype OsInfo = OsInfo(flags: u16, osType: OsType, osArch: OsArch,
                           versionMajor: u16, versionMinor: u16, versionPatch: u16,
                           osBuild: Bytes, osName: Bytes,
                           kernelName: Bytes, kernelArch: Bytes, kernelRelease: Bytes, kernelVersion: Bytes,
                           extra: Option<OsInfoExtra>)

  /// Every string within its `NowString` type, and a valid extra.
  predicate OsInfoValid(i: OsInfo)
  {
    Layout.StrValid(16, 1, i.osBuild) && Layout.StrValid(64, 1, i.osName)
    && Layout.StrValid(16, 1, i.kernelName) && Layout.StrValid(16, 1, i.kernelArch)
    && Layout.StrValid(32, 1, i.kernelRelease) && Layout.StrValid(128, 1, i.kernelVersion)
    && (i.extra.Some? ==> ExtraValid(i.extra.value))
  }

  /// The values the decoder can return: table values as the tables read
  /// them, empty kernel strings unless the kernel flag is set, and an extra
  /// exactly when the extra flag is set and the OS type is listed, of that
  /// type's variant.
  predicate Decodable(i: OsInfo)
  {
    OsTypeCanonical(i.osType) && OsArchCanonical(i.osArch)
    && (!KernelSet(i.flags) ==> i.kernelName == [] && i.kernelArch == [] && i.kernelRelease == [] && i.kernelVersion == [])
    && (i.extra.Some? <==> ExtraSet(i.flags) && !i.osType.Other?)
    && (i.extra.Some? ==> ExtraFor(i.osType, i.extra.value))
  }

  /// The subtype, the flags and the two table bytes, then the version:
  /// 12 bytes.
  function HeadBytes(i: OsInfo): (e: Bytes)
    ensures |e| == 6
  {
    U16(1) + U16(i.flags) + U8(OsTypeToU8(i.osType)) + U8(OsArchToU8(i.osArch))
  }

  function VersionBytes(i: OsInfo): (e: Bytes)
    ensures |e| == 6
  {
    U16(i.versionMajor) + U16(i.versionMinor) + U16(i.versionPatch)
  }

  function FrontBytes(i: OsInfo): (e: Bytes)
    ensures |e| == 12
  {
    HeadBytes(i) + VersionBytes(i)
  }

  function NamesBytes(i: OsInfo): Bytes
    requires OsInfoValid(i)
  {
    Layout.Str(16, 1, i.osBuild) + Layout.Str(64, 1, i.osName)
  }

  function KernelBytes(i: OsInfo): Bytes
    requires OsInfoValid(i)
  {
    Layout.Str(16, 1, i.kernelName) + Layout.Str(16, 1, i.kernelArch)
    + Layout.Str(32, 1, i.kernelRelease) + Layout.Str(128, 1, i.kernelVersion)
  }

  function ExtraBytes(i: OsInfo): Bytes
    requires OsInfoValid(i)
  {
    if i.extra.Some? then EncodeExtra(i.extra.value) else []
  }

  /// `encode_into` as written: every field in order, the four kernel
  /// strings whatever the kernel flag, then the extra when there is one.
  function EncodeOsInfoAsWritten(i: OsInfo): (e: Bytes)
    requires OsInfoValid(i)
    ensures KernelSet(i.flags) ==> e == EncodeOsInfo(i)
    ensures !KernelSet(i.flags) ==> |e| == |EncodeOsInfo(i)| + |KernelBytes(i)|
  {
    var front := FrontBytes(i) + NamesBytes(i);
    assert EncodeOsInfo(i) == front + TailBytes(i);
    front + (KernelBytes(i) + ExtraBytes(i))
  }

  /// The encoder the decoder expects: the kernel strings only under the
  /// kernel flag.
  function EncodeOsInfo(i: OsInfo): (e: Bytes)
    requires OsInfoValid(i)
    ensures |e| >= 16 && e[..12] == FrontBytes(i) && e[..2] == [1, 0]
  {
    var e := FrontBytes(i) + NamesBytes(i) + TailBytes(i);
    assert e[..12] == FrontBytes(i);
    assert e[..2] == HeadBytes(i)[..2] == U16(1);
    assert LeBytes(1, 2) == [1, 0];
    e
  }

  /// What the decoder reads after the names: the kernel strings under the
  /// kernel flag, then the extra.
  function TailBytes(i: OsInfo): Bytes
    requires OsInfoValid(i)
  {
    (if KernelSet(i.flags) then KernelBytes(i) else []) + ExtraBytes(i)
  }

  /// The two encoders agree whenever the kernel flag is set.
  lemma EncodersAgreeWithKernel(i: OsInfo)
    requires OsInfoValid(i) && KernelSet(i.flags)
    ensures EncodeOsInfoAsWritten(i) == EncodeOsInfo(i)
  {
  }

  // ---------------------------------------------------------------- the hand-written decoder

  /// A field read with `decode_from` and described with `or_desc`.
  function U16Desc(b: Bytes, desc: string): (r: Result<Step<u16>>)
    ensures r.Ok? <==> 2 <= |b|
    ensures r.Ok? ==> r.value.rest == b[2..]
  {
    Pow256Widths();
    var x :- OrDesc(Serialization.DecodeUInt(b, 2), Plain(desc));
    Ok(Step(x.value, x.rest))
  }

  function U8Desc(b: Bytes, desc: string): (r: Result<Step<u8>>)
    ensures r.Ok? <==> 1 <= |b|
    ensures r.Ok? ==> r.value.rest == b[1..]
  {
    Pow256Widths();
    var x :- OrDesc(Serialization.DecodeUInt(b, 1), Plain(desc));
    Ok(Step(x.value, x.rest))
  }

  function StrDesc(size: nat, b: Bytes, desc: string): (r: Result<Step<Bytes>>)
    requires NowStrings.Kind(size, 1)
    ensures r.Ok? ==> Layout.StrValid(size, 1, r.value.value) && |r.value.rest| < |b|
  {
    NowStrings.DecodeMeaning(size, 1, b);
    OrDesc(NowStrings.Decode(size, 1, b), Plain(desc))
  }

  lemma U16DescRoundTrip(v: u16, desc: string, rest: Bytes)
    ensures U16Desc(U16(v) + rest, desc) == Ok(Step(v, rest))
  {
    Pow256Widths();
    Serialization.UIntRoundTrip(v, 2, rest);
  }

  lemma U8DescRoundTrip(v: u8, desc: string, rest: Bytes)
    ensures U8Desc(U8(v) + rest, desc) == Ok(Step(v, rest))
  {
    Pow256Widths();
    Serialization.UIntRoundTrip(v, 1, rest);
  }

  lemma StrDescRoundTrip(size: nat, s: Bytes, desc: string, rest: Bytes)
    requires Layout.StrValid(size, 1, s)
    ensures StrDesc(size, Layout.Str(size, 1, s) + rest, desc) == Ok(Step(s, rest))
  {
    NowStrings.RoundTrip(size, 1, s, rest);
  }

  /// The seek over the subtype: past the end of the buffer it leaves
  /// nothing to read.
  function SkipSubtype(b: Bytes): (s: Bytes)
    ensures |b| >= 2 ==> s == b[2..]
    ensures |b| < 2 ==> s == []
  {
    if |b| >= 2 then b[2..] else []
  }

  const OsFlagsTy := "SystemOsInfoFlags"

  /// The flags and the two table bytes, after the skipped subtype.
  function DecodeHead(b: Bytes): (r: Result<Step<(u16, OsType, OsArch)>>)
    ensures r.Ok? <==> 6 <= |b|
    ensures r.Ok? ==> r.value.rest == b[6..]
    ensures r.Ok? ==> OsTypeCanonical(r.value.value.1) && OsArchCanonical(r.value.value.2)
  {
    Pow256Widths();
    var flags :- OrDesc(UIntField(OsFlagsTy, "u16", "value", SkipSubtype(b), 2),
                        Plain("couldn't decode os info flags"));
    var osType :- U8Desc(flags.rest, "couldn't decode os type");
    var osArch :- U8Desc(osType.rest, "couldn't decode os arch");
    var t := OsTypeFromU8(osType.value);
    var a := OsArchFromU8(osArch.value);
    assert OsTypeCanonical(t) && OsArchCanonical(a);
    Ok(Step((flags.value as u16, t, a), osArch.rest))
  }

  function DecodeVersion(b: Bytes): (r: Result<Step<(u16, u16, u16)>>)
    ensures r.Ok? <==> 6 <= |b|
    ensures r.Ok? ==> r.value.rest == b[6..]
  {
    var major :- U16Desc(b, "couldn't decode version major");
    var minor :- U16Desc(major.rest, "couldn't decode version minor");
    var patch :- U16Desc(minor.rest, "couldn't decode version patch");
    Ok(Step((major.value, minor.value, patch.value), patch.rest))
  }

  function DecodeNames(b: Bytes): (r: Result<Step<(Bytes, Bytes)>>)
    ensures r.Ok? ==> Layout.StrValid(16, 1, r.value.value.0) && Layout.StrValid(64, 1, r.value.value.1)
                      && |r.value.rest| < |b|
  {
    var build :- StrDesc(16, b, "couldn't decode os build");
    var name :- StrDesc(64, build.rest, "couldn't decode os name");
    Ok(Step((build.value, name.value), name.rest))
  }

  /// The kernel strings under the kernel flag; four empty strings, and
  /// nothing consumed, without it.
  function DecodeKernel(kernel: bool, b: Bytes): (r: Result<Step<(Bytes, Bytes, Bytes, Bytes)>>)
    ensures !kernel ==> r == Ok(Step(([], [], [], []), b))
    ensures r.Ok? ==> Layout.StrValid(16, 1, r.value.value.0) && Layout.StrValid(16, 1, r.value.value.1)
                      && Layout.StrValid(32, 1, r.value.value.2) && Layout.StrValid(128, 1, r.value.value.3)
                      && |r.value.rest| <= |b|
  {
    if !kernel then
      assert Text.Utf8([]);
      Ok(Step(([], [], [], []), b))
    else
      var name :- StrDesc(16, b, "couldn't decode kernel name");
      var arch :- StrDesc(16, name.rest, "couldn't decode kernel arch");
      var release :- StrDesc(32, arch.rest, "couldn't decode kernel release");
      var version :- StrDesc(128, release.rest, "couldn't decode kernel version");
      Ok(Step((name.value, arch.value, release.value, version.value), version.rest))
  }

  /// The extra under the extra flag, of the OS type's variant; none, and
  /// nothing consumed, without the flag or for an unlisted OS type.
  function DecodeExtra(extra: bool, t: OsType, b: Bytes): (r: Result<Step<Option<OsInfoExtra>>>)
    ensures !extra || t.Other? ==> r == Ok(Step(None, b))
    ensures r.Ok? && r.value.value.Some? ==> ExtraFor(t, r.value.value.value) && ExtraValid(r.value.value.value)
    ensures r.Ok? && extra && !t.Other? ==> r.value.value.Some?
  {
    if !extra then Ok(Step(None, b))
    else
      match t
      case Windows =>
        var w :- DecodeWindows(b);
        Ok(Step(Some(WindowsInfo(w.value)), w.rest))
      case Mac =>
        var p :- DecodePlatform("OsInfoExtraMac", b);
        Ok(Step(Some(MacInfo(p.value)), p.rest))
      case Linux =>
        var p :- DecodePlatform("OsInfoExtraLinux", b);
        Ok(Step(Some(LinuxInfo(p.value)), p.rest))
      case IOS =>
        var p :- DecodePlatform("OsInfoExtraIOS", b);
        Ok(Step(Some(IosInfo(p.value)), p.rest))
      case Android =>
        var p :- DecodePlatform("OsInfoExtraAndroid", b);
        Ok(Step(Some(AndroidInfo(p.value)), p.rest))
      case Other(_) => Ok(Step(None, b))
  }

  /// The fields before the kernel strings, as a value with no kernel
  /// strings and no extra yet.
  function DecodeFront(b: Bytes): (r: Result<Step<OsInfo>>)
    ensures r.Ok? ==> var i := r.value.value;
                      Layout.StrValid(16, 1, i.osBuild) && Layout.StrValid(64, 1, i.osName)
                      && OsTypeCanonical(i.osType) && OsArchCanonical(i.osArch)
                      && i.kernelName == [] && i.kernelArch == [] && i.kernelRelease == [] && i.kernelVersion == []
                      && i.extra.None? && |r.value.rest| < |b|
  {
    var head :- DecodeHead(b);
    var version :- DecodeVersion(head.rest);
    var names :- DecodeNames(version.rest);
    Ok(Step(OsInfo(head.value.0, head.value.1, head.value.2,
                   version.value.0, version.value.1, version.value.2,
                   names.value.0, names.value.1, [], [], [], [], None), names.rest))
  }

  /// The kernel strings and the extra, as the front's flags and OS type
  /// say.
  function DecodeTail(front: OsInfo, b: Bytes): (r: Result<Step<OsInfo>>)
    requires Layout.StrValid(16, 1, front.osBuild) && Layout.StrValid(64, 1, front.osName)
    requires OsTypeCanonical(front.osType) && OsArchCanonical(front.osArch)
    ensures r.Ok? ==> OsInfoValid(r.value.value) && Decodable(r.value.value) && |r.value.rest| <= |b|
  {
    var kernel :- DecodeKernel(KernelSet(front.flags), b);
    var extra :- DecodeExtra(ExtraSet(front.flags), front.osType, kernel.rest);
    Ok(Step(WithTail(front, kernel.value, extra.value), extra.rest))
  }

  /// A front with the kernel strings and the extra filled in.
  function WithTail(front: OsInfo, kernel: (Bytes, Bytes, Bytes, Bytes), extra: Option<OsInfoExtra>): (i: OsInfo)
    ensures FrontOf(i) == FrontOf(front)
    ensures i.kernelName == kernel.0 && i.kernelArch == kernel.1 && i.kernelRelease == kernel.2
            && i.kernelVersion == kernel.3 && i.extra == extra
  {
    front.(kernelName := kernel.0, kernelArch := kernel.1, kernelRelease := kernel.2, kernelVersion := kernel.3,
           extra := extra)
  }

  /// `decode_from`: the subtype skipped, then the fields in order, the
  /// kernel strings under the kernel flag and the extra under the extra
  /// flag; what it returns is a valid value of the kind it can return.
  function DecodeOsInfo(b: Bytes): (r: Result<Step<OsInfo>>)
    ensures r.Ok? ==> OsInfoValid(r.value.value) && Decodable(r.value.value) && |r.value.rest| < |b|
  {
    var front :- DecodeFront(b);
    DecodeTail(front.value, front.rest)
  }

  // ---------------------------------------------------------------- round trips

  /// The value with its kernel strings and extra cleared: what the fields
  /// before them decode to.
  function FrontOf(i: OsInfo): (f: OsInfo)
    ensures f.flags == i.flags && f.osType == i.osType && f.extra.None?
  {
    i.(kernelName := [], kernelArch := [], kernelRelease := [], kernelVersion := [], extra := None)
  }

  lemma HeadReadsBack(i: OsInfo, rest: Bytes)
    requires OsTypeCanonical(i.osType) && OsArchCanonical(i.osArch)
    ensures DecodeHead(HeadBytes(i) + rest) == Ok(Step((i.flags, i.osType, i.osArch), rest))
  {
    var t := OsTypeToU8(i.osType);
    var a := OsArchToU8(i.osArch);
    assert HeadBytes(i) + rest == U16(1) + (U16(i.flags) + (U8(t) + (U8(a) + rest)));
    UIntRoundTrip(OsFlagsTy, "u16", "value", i.flags, 2, U8(t) + (U8(a) + rest));
    U8DescRoundTrip(t, "couldn't decode os type", U8(a) + rest);
    U8DescRoundTrip(a, "couldn't decode os arch", rest);
    OsTypeTable(i.osType);
    OsArchTable(i.osArch);
  }

  lemma VersionReadsBack(i: OsInfo, rest: Bytes)
    ensures DecodeVersion(VersionBytes(i) + rest) == Ok(Step((i.versionMajor, i.versionMinor, i.versionPatch), rest))
  {
    var minor := U16(i.versionMinor);
    var patch := U16(i.versionPatch);
    assert VersionBytes(i) + rest == U16(i.versionMajor) + (minor + (patch + rest));
    U16DescRoundTrip(i.versionMajor, "couldn't decode version major", minor + (patch + rest));
    U16DescRoundTrip(i.versionMinor, "couldn't decode version minor", patch + rest);
    U16DescRoundTrip(i.versionPatch, "couldn't decode version patch", rest);
  }

  lemma NamesReadBack(i: OsInfo, rest: Bytes)
    requires OsInfoValid(i)
    ensures DecodeNames(NamesBytes(i) + rest) == Ok(Step((i.osBuild, i.osName), rest))
  {
    var name := Layout.Str(64, 1, i.osName);
    assert NamesBytes(i) + rest == Layout.Str(16, 1, i.osBuild) + (name + rest);
    StrDescRoundTrip(16, i.osBuild, "couldn't decode os build", name + rest);
    StrDescRoundTrip(64, i.osName, "couldn't decode os name", rest);
  }

  lemma FrontReadsBack(i: OsInfo, rest: Bytes)
    requires OsInfoValid(i) && OsTypeCanonical(i.osType) && OsArchCanonical(i.osArch)
    ensures DecodeFront(FrontBytes(i) + NamesBytes(i) + rest) == Ok(Step(FrontOf(i), rest))
  {
    var names := NamesBytes(i);
    assert FrontBytes(i) + names + rest == HeadBytes(i) + (VersionBytes(i) + (names + rest));
    HeadReadsBack(i, VersionBytes(i) + (names + rest));
    VersionReadsBack(i, names + rest);
    NamesReadBack(i, rest);
  }

  lemma KernelReadsBack(i: OsInfo, rest: Bytes)
    requires OsInfoValid(i)
    ensures DecodeKernel(true, KernelBytes(i) + rest)
            == Ok(Step((i.kernelName, i.kernelArch, i.kernelRelease, i.kernelVersion), rest))
  {
    var arch := Layout.Str(16, 1, i.kernelArch);
    var release := Layout.Str(32, 1, i.kernelRelease);
    var version := Layout.Str(128, 1, i.kernelVersion);
    assert KernelBytes(i) + rest == Layout.Str(16, 1, i.kernelName) + (arch + (release + (version + rest)));
    StrDescRoundTrip(16, i.kernelName, "couldn't decode kernel name", arch + (release + (version + rest)));
    StrDescRoundTrip(16, i.kernelArch, "couldn't decode kernel arch", release + (version + rest));
    StrDescRoundTrip(32, i.kernelRelease, "couldn't decode kernel release", version + rest);
    StrDescRoundTrip(128, i.kernelVersion, "couldn't decode kernel version", rest);
  }

  lemma ExtraReadsBack(i: OsInfo, rest: Bytes)
    requires OsInfoValid(i) && Decodable(i)
    ensures DecodeExtra(ExtraSet(i.flags), i.osType, ExtraBytes(i) + rest) == Ok(Step(i.extra, rest))
  {
    if i.extra.Some? {
      ExtraSomeReadsBack(i.osType, i.extra.value, rest);
    } else {
      assert ExtraBytes(i) + rest == rest;
    }
  }

  /// An extra of the OS type's variant reads back under the extra flag.
  lemma ExtraSomeReadsBack(t: OsType, x: OsInfoExtra, rest: Bytes)
    requires ExtraFor(t, x) && ExtraValid(x)
    ensures DecodeExtra(true, t, EncodeExtra(x) + rest) == Ok(Step(Some(x), rest))
  {
    match x
    case WindowsInfo(w) => WindowsExtraReadsBack(w, rest);
    case MacInfo(p) => MacExtraReadsBack(p, rest);
    case LinuxInfo(p) => LinuxExtraReadsBack(p, rest);
    case IosInfo(p) => IosExtraReadsBack(p, rest);
    case AndroidInfo(p) => AndroidExtraReadsBack(p, rest);
  }

  lemma WindowsExtraReadsBack(w: WindowsExtra, rest: Bytes)
    requires WindowsValid(w)
    ensures DecodeExtra(true, Windows, EncodeWindows(w) + rest) == Ok(Step(Some(WindowsInfo(w)), rest))
  {
    WindowsRoundTrip(w, rest);
  }

  lemma MacExtraReadsBack(p: PlatformExtra, rest: Bytes)
    ensures DecodeExtra(true, Mac, EncodePlatform(p) + rest) == Ok(Step(Some(MacInfo(p)), rest))
  {
    PlatformRoundTrip("OsInfoExtraMac", p, rest);
  }

  lemma LinuxExtraReadsBack(p: PlatformExtra, rest: Bytes)
    ensures DecodeExtra(true, Linux, EncodePlatform(p) + rest) == Ok(Step(Some(LinuxInfo(p)), rest))
  {
    PlatformRoundTrip("OsInfoExtraLinux", p, rest);
  }

  lemma IosExtraReadsBack(p: PlatformExtra, rest: Bytes)
    ensures DecodeExtra(true, IOS, EncodePlatform(p) + rest) == Ok(Step(Some(IosInfo(p)), rest))
  {
    PlatformRoundTrip("OsInfoExtraIOS", p, rest);
  }

  lemma AndroidExtraReadsBack(p: PlatformExtra, rest: Bytes)
    ensures DecodeExtra(true, Android, EncodePlatform(p) + rest) == Ok(Step(Some(AndroidInfo(p)), rest))
  {
    PlatformRoundTrip("OsInfoExtraAndroid", p, rest);
  }

  /// The tail decoder is the kernel decoder followed by the extra decoder.
  lemma DecodeTailSteps(front: OsInfo, b: Bytes, kernel: (Bytes, Bytes, Bytes, Bytes), mid: Bytes,
                        extra: Option<OsInfoExtra>, rest: Bytes)
    requires Layout.StrValid(16, 1, front.osBuild) && Layout.StrValid(64, 1, front.osName)
    requires OsTypeCanonical(front.osType) && OsArchCanonical(front.osArch)
    requires DecodeKernel(KernelSet(front.flags), b) == Ok(Step(kernel, mid))
    requires DecodeExtra(ExtraSet(front.flags), front.osType, mid) == Ok(Step(extra, rest))
    ensures DecodeTail(front, b) == Ok(Step(WithTail(front, kernel, extra), rest))
  {
  }

  /// The kernel strings read back from the tail when the kernel flag says
  /// they are there, and are empty, with nothing consumed, otherwise.
  lemma TailKernelReadsBack(i: OsInfo, rest: Bytes)
    requires OsInfoValid(i) && Decodable(i)
    ensures DecodeKernel(KernelSet(i.flags), TailBytes(i) + rest)
            == Ok(Step((i.kernelName, i.kernelArch, i.kernelRelease, i.kernelVersion), ExtraBytes(i) + rest))
  {
    if KernelSet(i.flags) {
      KernelPresentReadsBack(i, rest);
    } else {
      KernelAbsentReadsBack(i, rest);
    }
  }

  lemma KernelPresentReadsBack(i: OsInfo, rest: Bytes)
    requires OsInfoValid(i) && KernelSet(i.flags)
    ensures DecodeKernel(true, TailBytes(i) + rest)
            == Ok(Step((i.kernelName, i.kernelArch, i.kernelRelease, i.kernelVersion), ExtraBytes(i) + rest))
  {
    var extra := ExtraBytes(i);
    assert TailBytes(i) + rest == KernelBytes(i) + (extra + rest);
    KernelReadsBack(i, extra + rest);
  }

  lemma KernelAbsentReadsBack(i: OsInfo, rest: Bytes)
    requires OsInfoValid(i) && Decodable(i) && !KernelSet(i.flags)
    ensures DecodeKernel(false, TailBytes(i) + rest)
            == Ok(Step((i.kernelName, i.kernelArch, i.kernelRelease, i.kernelVersion), ExtraBytes(i) + rest))
  {
    assert TailBytes(i) + rest == ExtraBytes(i) + rest;
  }

  lemma WithOwnTail(i: OsInfo)
    ensures WithTail(FrontOf(i), (i.kernelName, i.kernelArch, i.kernelRelease, i.kernelVersion), i.extra) == i
  {
  }

  lemma TailReadsBack(i: OsInfo, rest: Bytes)
    requires OsInfoValid(i) && Decodable(i)
    ensures DecodeTail(FrontOf(i), TailBytes(i) + rest) == Ok(Step(i, rest))
  {
    var kernel := (i.kernelName, i.kernelArch, i.kernelRelease, i.kernelVersion);
    WithOwnTail(i);
    ExtraReadsBack(i, rest);
    TailKernelReadsBack(i, rest);
    DecodeTailSteps(FrontOf(i), TailBytes(i) + rest, kernel, ExtraBytes(i) + rest, i.extra, rest);
  }

  /// Every value the decoder can return reads back from its encoding, in
  /// front of any bytes.
  lemma OsInfoRoundTrip(i: OsInfo, rest: Bytes)
    requires OsInfoValid(i) && Decodable(i)
    ensures DecodeOsInfo(EncodeOsInfo(i) + rest) == Ok(Step(i, rest))
  {
    var tail := TailBytes(i);
    EncodeOsInfoParts(i, rest);
    FrontReadsBack(i, tail + rest);
    TailReadsBack(i, rest);
    DecodeOsInfoSteps(EncodeOsInfo(i) + rest, FrontOf(i), tail + rest, i, rest);
  }

  lemma EncodeOsInfoParts(i: OsInfo, rest: Bytes)
    requires OsInfoValid(i)
    ensures EncodeOsInfo(i) + rest == FrontBytes(i) + NamesBytes(i) + (TailBytes(i) + rest)
  {
    var front := FrontBytes(i) + NamesBytes(i);
    var tail := TailBytes(i);
    assert front + tail + rest == front + (tail + rest);
  }

  lemma DecodeOsInfoSteps(b: Bytes, front: OsInfo, mid: Bytes, i: OsInfo, rest: Bytes)
    requires DecodeFront(b) == Ok(Step(front, mid))
    requires DecodeTail(front, mid) == Ok(Step(i, rest))
    ensures DecodeOsInfo(b) == Ok(Step(i, rest))
  {
  }

  // ---------------------------------------------------------------- the encoder as written

  /// An empty string field is its zero length and its terminator.
  lemma EmptyStr(size: nat)
    requires NowStrings.Kind(size, 1)
    ensures Layout.StrValid(size, 1, []) && Layout.Str(size, 1, []) == [0, 0]
  {
    assert Text.Utf8([]);
    assert LeBytes(0, 1) == [0];
  }

  /// Four empty kernel strings are eight zero bytes.
  lemma EmptyKernelBytes(i: OsInfo)
    requires OsInfoValid(i)
    requires i.kernelName == [] && i.kernelArch == [] && i.kernelRelease == [] && i.kernelVersion == []
    ensures KernelBytes(i) == [0, 0, 0, 0, 0, 0, 0, 0]
  {
    EmptyStr(16);
    EmptyStr(32);
    EmptyStr(128);
  }

  /// With the kernel flag set, what `encode_into` writes reads back.
  lemma AsWrittenRoundTripWithKernel(i: OsInfo, rest: Bytes)
    requires OsInfoValid(i) && Decodable(i) && KernelSet(i.flags)
    ensures DecodeOsInfo(EncodeOsInfoAsWritten(i) + rest) == Ok(Step(i, rest))
  {
    EncodersAgreeWithKernel(i);
    OsInfoRoundTrip(i, rest);
  }

  /// Without the kernel flag and without an extra, what `encode_into`
  /// writes reads back as the same value but leaves the eight bytes of the
  /// empty kernel strings unread.
  lemma AsWrittenLeavesKernelBytes(i: OsInfo, rest: Bytes)
    requires OsInfoValid(i) && Decodable(i) && !KernelSet(i.flags) && i.extra.None?
    ensures DecodeOsInfo(EncodeOsInfoAsWritten(i) + rest) == Ok(Step(i, [0, 0, 0, 0, 0, 0, 0, 0] + rest))
  {
    EmptyKernelBytes(i);
    var front := FrontBytes(i) + NamesBytes(i);
    assert TailBytes(i) == [];
    assert EncodeOsInfoAsWritten(i) + rest == EncodeOsInfo(i) + ([0, 0, 0, 0, 0, 0, 0, 0] + rest);
    OsInfoRoundTrip(i, [0, 0, 0, 0, 0, 0, 0, 0] + rest);
  }

  /// A platform extra of zeros is four zero bytes.
  lemma ZeroPlatformBytes()
    ensures EncodePlatform(PlatformExtra(0, 0)) == [0, 0, 0, 0]
  {
    var vs := PlatformValues(PlatformExtra(0, 0));
    Layout.EncodeCons(PlatformFields, vs);
    Layout.EncodeCons(PlatformFields[1..], vs[1..]);
    ZeroEncodings();
  }

  /// Without the kernel flag, `encode_into` writes eight zero bytes
  /// between the names and the extra, and the decoder's encoder nothing.
  lemma EncodersWithoutKernel(i: OsInfo)
    requires OsInfoValid(i) && Decodable(i) && !KernelSet(i.flags)
    ensures EncodeOsInfoAsWritten(i) == FrontBytes(i) + NamesBytes(i) + [0, 0, 0, 0, 0, 0, 0, 0] + ExtraBytes(i)
    ensures EncodeOsInfo(i) == FrontBytes(i) + NamesBytes(i) + ExtraBytes(i)
  {
    EmptyKernelBytes(i);
    assert TailBytes(i) == ExtraBytes(i);
  }

  /// Without the kernel flag, an extra that `encode_into` writes is read
  /// from the empty kernel strings instead: a Linux extra reads back as
  /// zeros, whatever it held, and its own bytes are left unread.
  lemma AsWrittenMisreadsExtra(i: OsInfo, p: PlatformExtra, rest: Bytes)
    requires OsInfoValid(i) && Decodable(i) && !KernelSet(i.flags) && i.extra == Some(LinuxInfo(p))
    ensures DecodeOsInfo(EncodeOsInfoAsWritten(i) + rest)
            == Ok(Step(i.(extra := Some(LinuxInfo(PlatformExtra(0, 0)))), [0, 0, 0, 0] + EncodePlatform(p) + rest))
  {
    var j := i.(extra := Some(LinuxInfo(PlatformExtra(0, 0))));
    var front := FrontBytes(i) + NamesBytes(i);
    var zeros: Bytes := [0, 0, 0, 0];
    var tail := zeros + EncodePlatform(p) + rest;
    EncodersWithoutKernel(i);
    EncodersWithoutKernel(j);
    ZeroPlatformBytes();
    assert FrontBytes(j) + NamesBytes(j) == front;
    ShiftedZeros(front, EncodePlatform(p), rest);
    OsInfoRoundTrip(j, tail);
  }

  lemma ShiftedZeros(front: Bytes, e: Bytes, rest: Bytes)
    ensures front + [0, 0, 0, 0, 0, 0, 0, 0] + e + rest == front + [0, 0, 0, 0] + ([0, 0, 0, 0] + e + rest)
  {
    var zeros: Bytes := [0, 0, 0, 0];
    assert [0, 0, 0, 0, 0, 0, 0, 0] == zeros + zeros;
  }

  // ---------------------------------------------------------------- building a value

  /// `NowSystemOsInfo::new`: no flag, empty name and kernel strings, no
  /// extra.
  function NewOsInfo(osType: OsType, osArch: OsArch, versionMajor: u16, versionMinor: u16, versionPatch: u16,
                     osBuild: Bytes): (i: OsInfo)
    requires Layout.StrValid(16, 1, osBuild)
    ensures OsInfoValid(i) && i.flags == 0 && !KernelSet(i.flags) && !ExtraSet(i.flags)
    ensures i.osType == osType && i.osArch == osArch && i.osBuild == osBuild
    ensures i.versionMajor == versionMajor && i.versionMinor == versionMinor && i.versionPatch == versionPatch
    ensures i.osName == [] && i.kernelName == [] && i.kernelArch == [] && i.kernelRelease == []
            && i.kernelVersion == [] && i.extra.None?
    ensures OsTypeCanonical(osType) && OsArchCanonical(osArch) ==> Decodable(i)
  {
    EmptyStr(16);
    EmptyStr(32);
    EmptyStr(64);
    EmptyStr(128);
    OsInfo(0, osType, osArch, versionMajor, versionMinor, versionPatch, osBuild, [], [], [], [], [], None)
  }

  /// `set_kernel_infos`: the kernel flag is set and the OS name and the
  /// four kernel strings replaced; nothing else changes.
  function SetKernelInfos(i: OsInfo, osName: Bytes, kernelName: Bytes, kernelArch: Bytes,
                          kernelRelease: Bytes, kernelVersion: Bytes): (j: OsInfo)
    requires Layout.StrValid(64, 1, osName) && Layout.StrValid(16, 1, kernelName) && Layout.StrValid(16, 1, kernelArch)
    requires Layout.StrValid(32, 1, kernelRelease) && Layout.StrValid(128, 1, kernelVersion)
    ensures KernelSet(j.flags) && (ExtraSet(j.flags) <==> ExtraSet(i.flags))
    ensures j.osName == osName && j.kernelName == kernelName && j.kernelArch == kernelArch
            && j.kernelRelease == kernelRelease && j.kernelVersion == kernelVersion
    ensures j.osType == i.osType && j.osArch == i.osArch && j.osBuild == i.osBuild && j.extra == i.extra
    ensures j.versionMajor == i.versionMajor && j.versionMinor == i.versionMinor && j.versionPatch == i.versionPatch
    ensures OsInfoValid(i) ==> OsInfoValid(j)
  {
    i.(flags := SetKernelFlag(i.flags), osName := osName, kernelName := kernelName, kernelArch := kernelArch,
       kernelRelease := kernelRelease, kernelVersion := kernelVersion)
  }

  /// `set_extra_infos`: the extra flag is set and the extra stored;
  /// nothing else changes.
  function SetExtraInfos(i: OsInfo, extra: OsInfoExtra): (j: OsInfo)
    ensures ExtraSet(j.flags) && (KernelSet(j.flags) <==> KernelSet(i.flags)) && j.extra == Some(extra)
    ensures FrontOf(j).(flags := i.flags) == FrontOf(i)
    ensures j.kernelName == i.kernelName && j.kernelArch == i.kernelArch
            && j.kernelRelease == i.kernelRelease && j.kernelVersion == i.kernelVersion
    ensures OsInfoValid(i) && ExtraValid(extra) ==> OsInfoValid(j)
  {
    i.(flags := SetExtraFlag(i.flags), extra := Some(extra))
  }

  /// A description built as a peer builds it (`new`, then
  /// `set_kernel_infos`, then `set_extra_infos` with the extra of its OS
  /// type, if any) reads back from what `encode_into` writes.
  lemma BuiltOsInfoReadsBack(osType: OsType, osArch: OsArch, versionMajor: u16, versionMinor: u16,
                             versionPatch: u16, osBuild: Bytes, osName: Bytes, kernelName: Bytes,
                             kernelArch: Bytes, kernelRelease: Bytes, kernelVersion: Bytes,
                             extra: Option<OsInfoExtra>, rest: Bytes)
    requires OsTypeCanonical(osType) && OsArchCanonical(osArch) && Layout.StrValid(16, 1, osBuild)
    requires Layout.StrValid(64, 1, osName) && Layout.StrValid(16, 1, kernelName) && Layout.StrValid(16, 1, kernelArch)
    requires Layout.StrValid(32, 1, kernelRelease) && Layout.StrValid(128, 1, kernelVersion)
    requires extra.Some? ==> ExtraFor(osType, extra.value) && ExtraValid(extra.value)
    ensures var built := SetKernelInfos(NewOsInfo(osType, osArch, versionMajor, versionMinor, versionPatch, osBuild),
                                        osName, kernelName, kernelArch, kernelRelease, kernelVersion);
            var i := if extra.Some? then SetExtraInfos(built, extra.value) else built;
            OsInfoValid(i) && DecodeOsInfo(EncodeOsInfoAsWritten(i) + rest) == Ok(Step(i, rest))
  {
    var built := SetKernelInfos(NewOsInfo(osType, osArch, versionMajor, versionMinor, versionPatch, osBuild),
                                osName, kernelName, kernelArch, kernelRelease, kernelVersion);
    var i := if extra.Some? then SetExtraInfos(built, extra.value) else built;
    assert Decodable(i);
    AsWrittenRoundTripWithKernel(i, rest);
  }

  // ---------------------------------------------------------------- NowSystemInfo

  const InfoTy := "NowSystemInfo"

  /// `NowSystemInfo`: the meta enum on `SystemInfoType`, with the single
  /// variant `Os`.
  datatype NowSystemInfo = OsData(os: OsInfo)

  predicate InfoValid(x: NowSystemInfo) { OsInfoValid(x.os) && Decodable(x.os) }

  /// The derived meta-enum encoder: the variant's encoding.
  function EncodeInfo(x: NowSystemInfo): (e: Bytes)
    requires OsInfoValid(x.os)
    ensures e == EncodeOsInfo(x.os)
  {
    EncodeOsInfo(x.os)
  }

  /// The OS information starts with its subtype, `Os`.
  lemma OsInfoStartsWithSubtype(i: OsInfo, rest: Bytes)
    requires OsInfoValid(i)
    ensures var e := EncodeOsInfo(i) + rest; 2 <= |e| && e[..2] == [1, 0]
  {
    EncodeOsInfoParts(i, rest);
    var h := HeadBytes(i);
    assert h[..2] == U16(1);
    assert LeBytes(1, 2) == [1, 0];
  }

  /// The derived meta-enum decoder: the subtype is peeked; `Os` decodes the
  /// OS information from the same bytes, any other subtype is refused.
  function DecodeInfo(b: Bytes): (r: Result<Step<NowSystemInfo>>)
    ensures r.Ok? ==> 2 <= |b| && b[..2] == [1, 0] && InfoValid(r.value.value) && |r.value.rest| < |b|
    ensures 2 <= |b| && b[..2] != [1, 0] ==> r == Err(Unlisted(InfoTy))
  {
    var raw :- Subtype(InfoTy, 2, b);
    OneAsU16(b);
    if raw == 1 then
      var x :- InVariant(InfoTy, "Os", DecodeOsInfo(b));
      Ok(Step(OsData(x.value), x.rest))
    else Err(Unlisted(InfoTy))
  }

  /// Two bytes read as the `u16` 1 exactly when they are `[1, 0]`.
  lemma OneAsU16(b: Bytes)
    requires 2 <= |b|
    ensures LeValue(b[..2]) == 1 <==> b[..2] == [1, 0]
  {
    LeBytesOfLeValue(b[..2]);
    Pow256Widths();
    assert LeBytes(1, 2) == [1, 0];
  }

  lemma InfoRoundTrip(x: NowSystemInfo, rest: Bytes)
    requires InfoValid(x)
    ensures DecodeInfo(EncodeInfo(x) + rest) == Ok(Step(x, rest))
  {
    var e := EncodeInfo(x) + rest;
    OsInfoStartsWithSubtype(x.os, rest);
    OneAsU16(e);
    OsInfoRoundTrip(x.os, rest);
  }

  // ---------------------------------------------------------------- NowSystemMsg

  /// `SystemMessageType`, a `u8` table with fallback.
  datatype SystemMessageType = InfoReqSubtype | InfoRspSubtype | ShutdownSubtype | Other(value: u8)

  function MessageTypeFromU8(v: u8): (t: SystemMessageType)
    ensures MessageTypeToU8(t) == v
    ensures t.Other? <==> !(1 <= v <= 3)
  {
    match v
    case 1 => InfoReqSubtype
    case 2 => InfoRspSubtype
    case 3 => ShutdownSubtype
    case _ => SystemMessageType.Other(v)
  }

  function MessageTypeToU8(t: SystemMessageType): u8
  {
    match t
    case InfoReqSubtype => 1
    case InfoRspSubtype => 2
    case ShutdownSubtype => 3
    case Other(v) => v
  }

  predicate MessageTypeCanonical(t: SystemMessageType) { t.Other? ==> !(1 <= t.value <= 3) }

  lemma MessageTypeTable(t: SystemMessageType)
    requires MessageTypeCanonical(t)
    ensures MessageTypeFromU8(MessageTypeToU8(t)) == t
  {
  }

  const InfoReqTy := "NowSystemInfoReqMsg"
  const InfoReqFields := [Layout.UInt("subtype", "SystemMessageType", 1), Layout.UInt("flags", "u8", 1),
                          Layout.UInt("info_type", "SystemInfoType", 2)]

  /// `NowSystemInfoReqMsg`: the subtype, flags, and the information asked for.
  datatype InfoReqMsg = InfoReqMsg(subtype: SystemMessageType, flags: u8, infoType: SystemInfoType)

  /// `NowSystemInfoReqMsg::new`: its own subtype, no flags.
  function NewInfoReq(infoType: SystemInfoType): (m: InfoReqMsg)
    ensures m.subtype == InfoReqSubtype && m.flags == 0 && m.infoType == infoType
  {
    InfoReqMsg(InfoReqSubtype, 0, infoType)
  }

  function InfoReqValues(m: InfoReqMsg): (vs: seq<nat>)
    ensures Layout.Fits(InfoReqFields, vs)
  {
    Pow256Widths();
    [MessageTypeToU8(m.subtype), m.flags, InfoTypeToU16(m.infoType)]
  }

  function EncodeInfoReq(m: InfoReqMsg): (e: Bytes)
    ensures |e| == 4 && e[0] == MessageTypeToU8(m.subtype)
  {
    Layout.FirstByte(InfoReqFields, InfoReqValues(m));
    Layout.Encode(InfoReqFields, InfoReqValues(m))
  }

  function InfoReqOf(vs: seq<nat>): (m: InfoReqMsg)
    requires Layout.Fits(InfoReqFields, vs)
    ensures MessageTypeCanonical(m.subtype) && InfoTypeCanonical(m.infoType) && InfoReqValues(m) == vs
  {
    Pow256Widths();
    assert vs[0] < Pow256(1) && vs[1] < Pow256(1) && vs[2] < Pow256(2);
    InfoReqMsg(MessageTypeFromU8(vs[0]), vs[1], InfoTypeFromU16(vs[2]))
  }

  /// The derived decoder: four bytes, and what it reads is the encoding of
  /// what it returns.
  function DecodeInfoReq(b: Bytes): (r: Result<Step<InfoReqMsg>>)
    ensures r.Ok? <==> 4 <= |b|
    ensures r.Ok? ==> r.value.rest == b[4..] && EncodeInfoReq(r.value.value) == b[..4]
                      && MessageTypeCanonical(r.value.value.subtype) && InfoTypeCanonical(r.value.value.infoType)
  {
    var x :- Layout.Decode(InfoReqTy, InfoReqFields, b);
    Ok(Step(InfoReqOf(x.value), x.rest))
  }

  lemma InfoReqRoundTrip(m: InfoReqMsg, rest: Bytes)
    requires MessageTypeCanonical(m.subtype) && InfoTypeCanonical(m.infoType)
    ensures DecodeInfoReq(EncodeInfoReq(m) + rest) == Ok(Step(m, rest))
  {
    Layout.RoundTrip(InfoReqTy, InfoReqFields, InfoReqValues(m), rest);
    MessageTypeTable(m.subtype);
    InfoTypeTable(m.infoType);
  }

  const InfoRspTy := "NowSystemInfoRspMsg"
  const RspHeadFields := [Layout.UInt("subtype", "SystemMessageType", 1), Layout.UInt("flags", "u8", 1)]

  /// `NowSystemInfoRspMsg`: the subtype, flags, and the information.
  datatype InfoRspMsg = InfoRspMsg(subtype: SystemMessageType, flags: u8, infoData: NowSystemInfo)

  /// `NowSystemInfoRspMsg::new`: its own subtype, no flags.
  function NewInfoRsp(infoData: NowSystemInfo): (m: InfoRspMsg)
    ensures m.subtype == InfoRspSubtype && m.flags == 0 && m.infoData == infoData
  {
    InfoRspMsg(InfoRspSubtype, 0, infoData)
  }

  function RspHeadValues(m: InfoRspMsg): (vs: seq<nat>)
    ensures Layout.Fits(RspHeadFields, vs)
  {
    Pow256Widths();
    [MessageTypeToU8(m.subtype), m.flags]
  }

  function EncodeInfoRsp(m: InfoRspMsg): (e: Bytes)
    requires OsInfoValid(m.infoData.os)
    ensures |e| > 2 && e[0] == MessageTypeToU8(m.subtype)
  {
    Layout.FirstByte(RspHeadFields, RspHeadValues(m));
    Layout.Encode(RspHeadFields, RspHeadValues(m)) + EncodeInfo(m.infoData)
  }

  function InfoRspOf(vs: seq<nat>, infoData: NowSystemInfo): (m: InfoRspMsg)
    requires Layout.Fits(RspHeadFields, vs)
    ensures MessageTypeCanonical(m.subtype) && RspHeadValues(m) == vs && m.infoData == infoData
  {
    Pow256Widths();
    assert vs[0] < Pow256(1) && vs[1] < Pow256(1);
    InfoRspMsg(MessageTypeFromU8(vs[0]), vs[1], infoData)
  }

  /// The derived decoder: the two bytes, then the information.
  function DecodeInfoRsp(b: Bytes): (r: Result<Step<InfoRspMsg>>)
    ensures r.Ok? ==> 2 <= |b| && MessageTypeCanonical(r.value.value.subtype) && InfoValid(r.value.value.infoData)
                      && Layout.Encode(RspHeadFields, RspHeadValues(r.value.value)) == b[..2]
  {
    var x :- Layout.Decode(InfoRspTy, RspHeadFields, b);
    var info :- InField(InfoRspTy, InfoTy, "info_data", DecodeInfo(x.rest));
    Ok(Step(InfoRspOf(x.value, info.value), info.rest))
  }

  lemma DecodeInfoRspSteps(b: Bytes, head: Step<seq<nat>>, info: Step<NowSystemInfo>)
    requires Layout.Decode(InfoRspTy, RspHeadFields, b) == Ok(head)
    requires DecodeInfo(head.rest) == Ok(info)
    ensures DecodeInfoRsp(b) == Ok(Step(InfoRspOf(head.value, info.value), info.rest))
  {
  }

  /// A response is rebuilt from its head values and its information.
  lemma InfoRspOfValues(m: InfoRspMsg)
    requires MessageTypeCanonical(m.subtype)
    ensures InfoRspOf(RspHeadValues(m), m.infoData) == m
  {
    MessageTypeTable(m.subtype);
  }

  lemma InfoRspRoundTrip(m: InfoRspMsg, rest: Bytes)
    requires MessageTypeCanonical(m.subtype) && InfoValid(m.infoData)
    ensures DecodeInfoRsp(EncodeInfoRsp(m) + rest) == Ok(Step(m, rest))
  {
    var head := Layout.Encode(RspHeadFields, RspHeadValues(m));
    var info := EncodeInfo(m.infoData);
    assert head + info + rest == head + (info + rest);
    Layout.RoundTrip(InfoRspTy, RspHeadFields, RspHeadValues(m), info + rest);
    InfoRoundTrip(m.infoData, rest);
    DecodeInfoRspSteps(head + info + rest, Step(RspHeadValues(m), info + rest), Step(m.infoData, rest));
    InfoRspOfValues(m);
  }

  const ShutdownTy := "NowSystemShutdownMsg"
  const ShutdownFields := [Layout.UInt("subtype", "SystemMessageType", 1), Layout.FlagsOf("flags", "ShutdownFlags", 1),
                           Layout.UInt("reserved", "u16", 2), Layout.UInt("timeout", "u32", 4),
                           Layout.UInt("reason", "u32", 4)]

  /// `NowSystemShutdownMsg`: the subtype, the shutdown flags, a reserved
  /// word, the timeout, the reason and a message (`NowString256`).
  datatype ShutdownMsg = ShutdownMsg(subtype: SystemMessageType, flags: u8, reserved: u16, timeout: u32,
                                     reason: u32, message: Bytes)

  /// `NowSystemShutdownMsg::new`: its own subtype, reserved and reason zero.
  function NewShutdown(flags: u8, timeout: u32, message: Bytes): (m: ShutdownMsg)
    ensures m.subtype == ShutdownSubtype && m.flags == flags && m.reserved == 0 && m.timeout == timeout
    ensures m.reason == 0 && m.message == message
  {
    ShutdownMsg(ShutdownSubtype, flags, 0, timeout, 0, message)
  }

  function ShutdownValues(m: ShutdownMsg): (vs: seq<nat>)
    ensures Layout.Fits(ShutdownFields, vs)
  {
    Pow256Widths();
    [MessageTypeToU8(m.subtype), m.flags, m.reserved, m.timeout, m.reason]
  }

  function EncodeShutdown(m: ShutdownMsg): (e: Bytes)
    requires Layout.StrValid(256, 1, m.message)
    ensures |e| == 14 + |m.message| && e[0] == MessageTypeToU8(m.subtype)
  {
    Layout.FirstByte(ShutdownFields, ShutdownValues(m));
    Layout.Encode(ShutdownFields, ShutdownValues(m)) + Layout.Str(256, 1, m.message)
  }

  function ShutdownOf(vs: seq<nat>, message: Bytes): (m: ShutdownMsg)
    requires Layout.Fits(ShutdownFields, vs)
    ensures MessageTypeCanonical(m.subtype) && ShutdownValues(m) == vs && m.message == message
  {
    Pow256Widths();
    assert vs[0] < Pow256(1) && vs[1] < Pow256(1) && vs[2] < Pow256(2) && vs[3] < Pow256(4) && vs[4] < Pow256(4);
    ShutdownMsg(MessageTypeFromU8(vs[0]), vs[1], vs[2], vs[3], vs[4], message)
  }

  /// The derived decoder: twelve bytes of integers, then the message.
  function DecodeShutdown(b: Bytes): (r: Result<Step<ShutdownMsg>>)
    ensures r.Ok? ==> 12 <= |b| && MessageTypeCanonical(r.value.value.subtype)
                      && Layout.StrValid(256, 1, r.value.value.message)
                      && Layout.Encode(ShutdownFields, ShutdownValues(r.value.value)) == b[..12]
  {
    var x :- Layout.Decode(ShutdownTy, ShutdownFields, b);
    var message :- Layout.StrField(ShutdownTy, "message", 256, 1, x.rest);
    Ok(Step(ShutdownOf(x.value, message.value), message.rest))
  }

  lemma DecodeShutdownSteps(b: Bytes, head: Step<seq<nat>>, message: Step<Bytes>)
    requires Layout.Decode(ShutdownTy, ShutdownFields, b) == Ok(head)
    requires Layout.StrField(ShutdownTy, "message", 256, 1, head.rest) == Ok(message)
    ensures DecodeShutdown(b) == Ok(Step(ShutdownOf(head.value, message.value), message.rest))
  {
  }

  /// A shutdown message is rebuilt from its integer values and its text.
  lemma ShutdownOfValues(m: ShutdownMsg)
    requires MessageTypeCanonical(m.subtype)
    ensures ShutdownOf(ShutdownValues(m), m.message) == m
  {
    MessageTypeTable(m.subtype);
  }

  lemma ShutdownRoundTrip(m: ShutdownMsg, rest: Bytes)
    requires MessageTypeCanonical(m.subtype) && Layout.StrValid(256, 1, m.message)
    ensures DecodeShutdown(EncodeShutdown(m) + rest) == Ok(Step(m, rest))
  {
    var head := Layout.Encode(ShutdownFields, ShutdownValues(m));
    var message := Layout.Str(256, 1, m.message);
    assert head + message + rest == head + (message + rest);
    Layout.RoundTrip(ShutdownTy, ShutdownFields, ShutdownValues(m), message + rest);
    Layout.StrRoundTrip(ShutdownTy, "message", 256, 1, m.message, rest);
    DecodeShutdownSteps(head + message + rest, Step(ShutdownValues(m), message + rest), Step(m.message, rest));
    ShutdownOfValues(m);
  }

  const MsgTy := "NowSystemMsg"

  /// `NowSystemMsg`, the meta enum on `SystemMessageType`, without a
  /// fallback variant.
  datatype NowSystemMsg =
    | InfoReq(infoReq: InfoReqMsg)
    | InfoRsp(infoRsp: InfoRspMsg)
    | Shutdown(shutdown: ShutdownMsg)

  /// A message whose subtype field names its own variant, holding values
  /// the decoders can return.
  predicate WellFormed(m: NowSystemMsg)
  {
    match m
    case InfoReq(r) => r.subtype == InfoReqSubtype && InfoTypeCanonical(r.infoType)
    case InfoRsp(r) => r.subtype == InfoRspSubtype && InfoValid(r.infoData)
    case Shutdown(r) => r.subtype == ShutdownSubtype && Layout.StrValid(256, 1, r.message)
  }

  /// What the encoders need: the strings of the information and of the
  /// shutdown message fit their `NowString` types, which those types
  /// guarantee. The flags, the table values and the extra need not agree.
  predicate Encodable(m: NowSystemMsg)
  {
    match m
    case InfoReq(_) => true
    case InfoRsp(r) => OsInfoValid(r.infoData.os)
    case Shutdown(r) => Layout.StrValid(256, 1, r.message)
  }

  /// The subtype field of a message's variant.
  function SubtypeOf(m: NowSystemMsg): SystemMessageType
  {
    match m
    case InfoReq(r) => r.subtype
    case InfoRsp(r) => r.subtype
    case Shutdown(r) => r.subtype
  }

  /// The derived meta-enum encoder: the variant's struct, starting with its
  /// subtype field.
  function Encode(m: NowSystemMsg): (e: Bytes)
    requires Encodable(m)
    ensures |e| >= 3 && e[0] == MessageTypeToU8(SubtypeOf(m))
    ensures m.InfoReq? ==> |e| == 4
    ensures m.Shutdown? ==> |e| == 14 + |m.shutdown.message|
  {
    match m
    case InfoReq(r) => EncodeInfoReq(r)
    case InfoRsp(r) => EncodeInfoRsp(r)
    case Shutdown(r) => EncodeShutdown(r)
  }

  function InfoReqVariant(b: Bytes): (r: Result<Step<NowSystemMsg>>)
    requires 0 < |b| && b[0] == 1
    ensures r.Ok? ==> WellFormed(r.value.value)
  {
    var x :- InVariant(MsgTy, "InfoReq", DecodeInfoReq(b));
    assert x.value.subtype == InfoReqSubtype by { MessageTypeTable(x.value.subtype); }
    Ok(Step(InfoReq(x.value), x.rest))
  }

  function InfoRspVariant(b: Bytes): (r: Result<Step<NowSystemMsg>>)
    requires 0 < |b| && b[0] == 2
    ensures r.Ok? ==> WellFormed(r.value.value)
  {
    var x :- InVariant(MsgTy, "InfoRsp", DecodeInfoRsp(b));
    assert x.value.subtype == InfoRspSubtype by { MessageTypeTable(x.value.subtype); }
    Ok(Step(InfoRsp(x.value), x.rest))
  }

  function ShutdownVariant(b: Bytes): (r: Result<Step<NowSystemMsg>>)
    requires 0 < |b| && b[0] == 3
    ensures r.Ok? ==> WellFormed(r.value.value)
  {
    var x :- InVariant(MsgTy, "Shutdown", DecodeShutdown(b));
    assert x.value.subtype == ShutdownSubtype by { MessageTypeTable(x.value.subtype); }
    Ok(Step(Shutdown(x.value), x.rest))
  }

  /// The derived meta-enum decoder: the subtype is peeked and the variant
  /// it names decoded from the same bytes; any other subtype is refused.
  function Decode(b: Bytes): (r: Result<Step<NowSystemMsg>>)
    ensures r.Ok? ==> 0 < |b| && 1 <= b[0] <= 3 && WellFormed(r.value.value)
    ensures 0 < |b| && !(1 <= b[0] <= 3) ==> r == Err(Unlisted(MsgTy))
  {
    var raw :- Subtype(MsgTy, 1, b);
    assert raw == b[0] by { assert b[..1] == [b[0]]; }
    match MessageTypeFromU8(raw)
    case InfoReqSubtype => InfoReqVariant(b)
    case InfoRspSubtype => InfoRspVariant(b)
    case ShutdownSubtype => ShutdownVariant(b)
    case Other(_) => Err(Unlisted(MsgTy))
  }

  lemma FirstByte(b: Bytes, v: u8)
    requires 0 < |b| && b[0] == v
    ensures Subtype(MsgTy, 1, b) == Ok(v as nat)
  {
    assert b[..1] == [v];
  }

  lemma InfoReqReadsBack(r: InfoReqMsg, rest: Bytes)
    requires WellFormed(InfoReq(r))
    ensures Decode(EncodeInfoReq(r) + rest) == Ok(Step(InfoReq(r), rest))
  {
    var e := EncodeInfoReq(r) + rest;
    InfoReqRoundTrip(r, rest);
    FirstByte(e, 1);
    assert InVariant(MsgTy, "InfoReq", DecodeInfoReq(e)) == Ok(Step(r, rest));
  }

  lemma InfoRspReadsBack(r: InfoRspMsg, rest: Bytes)
    requires WellFormed(InfoRsp(r))
    ensures Decode(EncodeInfoRsp(r) + rest) == Ok(Step(InfoRsp(r), rest))
  {
    var e := EncodeInfoRsp(r) + rest;
    InfoRspRoundTrip(r, rest);
    FirstByte(e, 2);
    assert InVariant(MsgTy, "InfoRsp", DecodeInfoRsp(e)) == Ok(Step(r, rest));
  }

  lemma ShutdownReadsBack(r: ShutdownMsg, rest: Bytes)
    requires WellFormed(Shutdown(r))
    ensures Decode(EncodeShutdown(r) + rest) == Ok(Step(Shutdown(r), rest))
  {
    var e := EncodeShutdown(r) + rest;
    ShutdownRoundTrip(r, rest);
    FirstByte(e, 3);
    assert InVariant(MsgTy, "Shutdown", DecodeShutdown(e)) == Ok(Step(r, rest));
  }

  /// Decoding an encoded well-formed message gives it back and leaves what
  /// follows it unread.
  lemma RoundTrip(m: NowSystemMsg, rest: Bytes)
    requires WellFormed(m)
    ensures Decode(Encode(m) + rest) == Ok(Step(m, rest))
  {
    match m
    case InfoReq(r) => InfoReqReadsBack(r, rest);
    case InfoRsp(r) => InfoRspReadsBack(r, rest);
    case Shutdown(r) => ShutdownReadsBack(r, rest);
  }
}
