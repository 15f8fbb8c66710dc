/// The capability sets of fixed layout announced during the capabilities
/// exchange (update, input, mouse, access, license, transport), the value
/// tables and definitions they carry, and their flag words.
module Capsets {
  import opened Wire
  import opened Errors
  import opened Derived
  import Layout
  import Containers
  import Flags
  import Mouse

  // ---------------------------------------------------------------- value tables

  /// `Codec`, a `u16` table with fallback.
  datatype Codec = Unspecified | Thor | Jpeg | Gfwx | Other(value: u16)

  function CodecFromU16(v: u16): (c: Codec)
    ensures CodecToU16(c) == v
    ensures c.Other? <==> v > 3
  {
    match v
    case 0 => Codec.Unspecified
    case 1 => Thor
    case 2 => Jpeg
    case 3 => Gfwx
    case _ => Codec.Other(v)
  }

  function CodecToU16(c: Codec): u16
  {
    match c
    case Unspecified => 0
    case Thor => 1
    case Jpeg => 2
    case Gfwx => 3
    case Other(v) => v
  }

  predicate CodecCanonical(c: Codec) { c.Other? ==> c.value > 3 }

  lemma CodecTable(c: Codec)
    requires CodecCanonical(c)
    ensures CodecFromU16(CodecToU16(c)) == c
  {
  }

  /// `QualityMode`, a `u8` table with fallback.
  datatype QualityMode = Unspecified | Low | Medium | High | Other(value: u8)

  function QualityFromU8(v: u8): (q: QualityMode)
    ensures QualityToU8(q) == v
    ensures q.Other? <==> v > 3
  {
    match v
    case 0 => QualityMode.Unspecified
    case 1 => Low
    case 2 => Medium
    case 3 => High
    case _ => QualityMode.Other(v)
  }

  function QualityToU8(q: QualityMode): u8
  {
    match q
    case Unspecified => 0
    case Low => 1
    case Medium => 2
    case High => 3
    case Other(v) => v
  }

  predicate QualityCanonical(q: QualityMode) { q.Other? ==> q.value > 3 }

  lemma QualityTable(q: QualityMode)
    requires QualityCanonical(q)
    ensures QualityFromU8(QualityToU8(q)) == q
  {
  }

  /// `InputActionCode`, a `u16` table with fallback.
  datatype InputActionCode =
    | Sas | ClipboardCut | ClipboardCopy | ClipboardPaste | ClipboardCopySpecial | ClipboardPasteSpecial
    | SelectAll | Undo | Redo | Shutdown | Reboot | RebootSafe | Other(value: u16)

  predicate ListedAction(v: u16) { v == 0x01 || 0x10 <= v <= 0x17 || 0x20 <= v <= 0x22 }

  function ActionFromU16(v: u16): (a: InputActionCode)
    ensures ActionToU16(a) == v
    ensures a.Other? <==> !ListedAction(v)
  {
    match v
    case 0x01 => Sas
    case 0x10 => ClipboardCut
    case 0x11 => ClipboardCopy
    case 0x12 => ClipboardPaste
    case 0x13 => ClipboardCopySpecial
    case 0x14 => ClipboardPasteSpecial
    case 0x15 => SelectAll
    case 0x16 => Undo
    case 0x17 => Redo
    case 0x20 => Shutdown
    case 0x21 => Reboot
    case 0x22 => RebootSafe
    case _ => InputActionCode.Other(v)
  }

  function ActionToU16(a: InputActionCode): u16
  {
    match a
    case Sas => 0x01
    case ClipboardCut => 0x10
    case ClipboardCopy => 0x11
    case ClipboardPaste => 0x12
    case ClipboardCopySpecial => 0x13
    case ClipboardPasteSpecial => 0x14
    case SelectAll => 0x15
    case Undo => 0x16
    case Redo => 0x17
    case Shutdown => 0x20
    case Reboot => 0x21
    case RebootSafe => 0x22
    case Other(v) => v
  }

  predicate ActionCanonical(a: InputActionCode) { a.Other? ==> !ListedAction(a.value) }

  lemma ActionTable(a: InputActionCode)
    requires ActionCanonical(a)
    ensures ActionFromU16(ActionToU16(a)) == a
  {
  }

  /// `AccessControlCode`, a `u16` table with fallback.
  datatype AccessControlCode = Viewing | Interact | Clipboard | FileTransfer | Exec | Chat | Other(value: u16)

  function AccessFromU16(v: u16): (c: AccessControlCode)
    ensures AccessToU16(c) == v
    ensures c.Other? <==> !(1 <= v <= 6)
  {
    match v
    case 1 => Viewing
    case 2 => Interact
    case 3 => Clipboard
    case 4 => FileTransfer
    case 5 => Exec
    case 6 => Chat
    case _ => AccessControlCode.Other(v)
  }

  function AccessToU16(c: AccessControlCode): u16
  {
    match c
    case Viewing => 1
    case Interact => 2
    case Clipboard => 3
    case FileTransfer => 4
    case Exec => 5
    case Chat => 6
    case Other(v) => v
  }

  predicate AccessCanonical(c: AccessControlCode) { c.Other? ==> !(1 <= c.value <= 6) }

  lemma AccessTable(c: AccessControlCode)
    requires AccessCanonical(c)
    ensures AccessFromU16(AccessToU16(c)) == c
  {
  }

  // ---------------------------------------------------------------- flag words

  /// `SurfaceCapsetFlags`
  const ListReq: Flags.Word := 0x0000_0001
  const Select: Flags.Word := 0x0000_0002
  const Multi: Flags.Word := 0x0000_0004
  /// `InputActionFlags`
  const ActionDisabled: Flags.Word := 0x0001
  /// `MouseCapsetFlags`
  const Large: Flags.Word := 0x0000_0001
  /// `AccessFlags`
  const Allowed: Flags.Word := 0x0001
  const Confirm: Flags.Word := 0x0002
  const AccessDisabled: Flags.Word := 0x0004
  /// `LicenseCapsetFlags`
  const Licensed: Flags.Word := 0x0000_0001
  const Mobile: Flags.Word := 0x0000_0002
  const Web: Flags.Word := 0x0000_0004
  /// `SystemCapsetFlags`
  const OsInfo: Flags.Word := 0x0000_0001

  // ---------------------------------------------------------------- codec definitions

  const CodecDefTy := "NowCodecDef"
  const CodecDefFields := [Layout.UInt("size", "u16", 2), Layout.UInt("id", "Codec", 2), Layout.UInt("flags", "u32", 4)]

  /// `NowCodecDef`: its own size, the codec and the codec's flags.
  datatype NowCodecDef = NowCodecDef(size: u16, id: Codec, flags: u32)

  /// `NowCodecDef::new_with_flags` (and `new`, with no flag): the size is
  /// the definition's own, 8.
  function NewCodecDefWithFlags(id: Codec, flags: u32): (d: NowCodecDef)
    ensures d.size == 8 && d.id == id && d.flags == flags
  {
    NowCodecDef(8, id, flags)
  }

  function NewCodecDef(id: Codec): (d: NowCodecDef)
    ensures d == NewCodecDefWithFlags(id, 0)
  {
    NewCodecDefWithFlags(id, 0)
  }

  function CodecDefValues(d: NowCodecDef): (vs: seq<nat>)
    ensures Layout.Fits(CodecDefFields, vs)
  {
    Pow256Widths();
    [d.size, CodecToU16(d.id), d.flags]
  }

  function EncodeCodecDef(d: NowCodecDef): (r: Result<Bytes>)
    ensures r.Ok? && |r.value| == 8
  {
    Ok(Layout.Encode(CodecDefFields, CodecDefValues(d)))
  }

  /// The derived decoder: 8 bytes, and what it reads is the encoding of
  /// what it returns.
  function DecodeCodecDef(b: Bytes): (r: Result<Step<NowCodecDef>>)
    ensures r.Ok? <==> 8 <= |b|
    ensures r.Ok? ==> r.value.rest == b[8..] && CodecCanonical(r.value.value.id)
                      && EncodeCodecDef(r.value.value).value == b[..8]
  {
    Pow256Widths();
    var x :- Layout.Decode(CodecDefTy, CodecDefFields, b);
    var d := NowCodecDef(x.value[0], CodecFromU16(x.value[1]), x.value[2]);
    assert CodecDefValues(d) == x.value;
    Ok(Step(d, x.rest))
  }

  lemma CodecDefRoundTrip(d: NowCodecDef, rest: Bytes)
    requires CodecCanonical(d.id)
    ensures DecodeCodecDef(EncodeCodecDef(d).value + rest) == Ok(Step(d, rest))
  {
    Layout.RoundTrip(CodecDefTy, CodecDefFields, CodecDefValues(d), rest);
    CodecTable(d.id);
  }

  lemma CodecDefInverse(xs: seq<NowCodecDef>)
    requires forall d | d in xs :: CodecCanonical(d.id)
    ensures Containers.InverseOn(EncodeCodecDef, DecodeCodecDef, xs)
  {
    forall d, rest: Bytes | d in xs ensures DecodeCodecDef(EncodeCodecDef(d).value + rest) == Ok(Step(d, rest)) {
      CodecDefRoundTrip(d, rest);
    }
  }

  // ---------------------------------------------------------------- input action definitions

  const ActionDefTy := "NowInputActionDef"
  const ActionDefFields := [Layout.UInt("code", "InputActionCode", 2), Layout.FlagsOf("flags", "InputActionFlags", 2)]

  datatype NowInputActionDef = NowInputActionDef(code: InputActionCode, flags: u16)

  /// `new_enabled`: no flag; `new_disabled`: only the disabled flag.
  function NewEnabled(code: InputActionCode): (d: NowInputActionDef)
    ensures d.code == code && d.flags == 0 && !Flags.Has(d.flags, ActionDisabled)
  {
    Flags.EmptyHasNothing(ActionDisabled);
    NowInputActionDef(code, 0)
  }

  function NewDisabled(code: InputActionCode): (d: NowInputActionDef)
    ensures d.code == code && d.flags == ActionDisabled && Flags.Has(d.flags, ActionDisabled)
  {
    Flags.EmptyWith(ActionDisabled);
    NowInputActionDef(code, Flags.With(0, ActionDisabled) as u16)
  }

  function ActionDefValues(d: NowInputActionDef): (vs: seq<nat>)
    ensures Layout.Fits(ActionDefFields, vs)
  {
    Pow256Widths();
    [ActionToU16(d.code), d.flags]
  }

  function EncodeActionDef(d: NowInputActionDef): (r: Result<Bytes>)
    ensures r.Ok? && |r.value| == 4
  {
    Ok(Layout.Encode(ActionDefFields, ActionDefValues(d)))
  }

  function DecodeActionDef(b: Bytes): (r: Result<Step<NowInputActionDef>>)
    ensures r.Ok? <==> 4 <= |b|
    ensures r.Ok? ==> r.value.rest == b[4..] && ActionCanonical(r.value.value.code)
                      && EncodeActionDef(r.value.value).value == b[..4]
  {
    Pow256Widths();
    var x :- Layout.Decode(ActionDefTy, ActionDefFields, b);
    var d := NowInputActionDef(ActionFromU16(x.value[0]), x.value[1]);
    assert ActionDefValues(d) == x.value;
    Ok(Step(d, x.rest))
  }

  lemma ActionDefRoundTrip(d: NowInputActionDef, rest: Bytes)
    requires ActionCanonical(d.code)
    ensures DecodeActionDef(EncodeActionDef(d).value + rest) == Ok(Step(d, rest))
  {
    Layout.RoundTrip(ActionDefTy, ActionDefFields, ActionDefValues(d), rest);
    ActionTable(d.code);
  }

  lemma ActionDefInverse(xs: seq<NowInputActionDef>)
    requires forall d | d in xs :: ActionCanonical(d.code)
    ensures Containers.InverseOn(EncodeActionDef, DecodeActionDef, xs)
  {
    forall d, rest: Bytes | d in xs ensures DecodeActionDef(EncodeActionDef(d).value + rest) == Ok(Step(d, rest)) {
      ActionDefRoundTrip(d, rest);
    }
  }

  // ---------------------------------------------------------------- access control definitions

  const AccessDefTy := "AccessControlDef"
  const AccessDefFields := [Layout.UInt("code", "AccessControlCode", 2), Layout.FlagsOf("flags", "AccessFlags", 2)]

  datatype AccessControlDef = AccessControlDef(code: AccessControlCode, flags: u16)

  /// `new_allowed`, `new_confirm`, `new_disabled`: exactly one flag set on
  /// an empty word.
  function NewAccessDef(code: AccessControlCode, flag: Flags.Word): (d: AccessControlDef)
    requires flag in {Allowed, Confirm, AccessDisabled}
    ensures d.code == code && d.flags == flag && Flags.Has(d.flags, flag)
  {
    Flags.EmptyWith(flag);
    AccessControlDef(code, Flags.With(0, flag) as u16)
  }

  function AccessDefValues(d: AccessControlDef): (vs: seq<nat>)
    ensures Layout.Fits(AccessDefFields, vs)
  {
    Pow256Widths();
    [AccessToU16(d.code), d.flags]
  }

  function EncodeAccessDef(d: AccessControlDef): (r: Result<Bytes>)
    ensures r.Ok? && |r.value| == 4
  {
    Ok(Layout.Encode(AccessDefFields, AccessDefValues(d)))
  }

  function DecodeAccessDef(b: Bytes): (r: Result<Step<AccessControlDef>>)
    ensures r.Ok? <==> 4 <= |b|
    ensures r.Ok? ==> r.value.rest == b[4..] && AccessCanonical(r.value.value.code)
                      && EncodeAccessDef(r.value.value).value == b[..4]
  {
    Pow256Widths();
    var x :- Layout.Decode(AccessDefTy, AccessDefFields, b);
    var d := AccessControlDef(AccessFromU16(x.value[0]), x.value[1]);
    assert AccessDefValues(d) == x.value;
    Ok(Step(d, x.rest))
  }

  lemma AccessDefRoundTrip(d: AccessControlDef, rest: Bytes)
    requires AccessCanonical(d.code)
    ensures DecodeAccessDef(EncodeAccessDef(d).value + rest) == Ok(Step(d, rest))
  {
    Layout.RoundTrip(AccessDefTy, AccessDefFields, AccessDefValues(d), rest);
    AccessTable(d.code);
  }

  lemma AccessDefInverse(xs: seq<AccessControlDef>)
    requires forall d | d in xs :: AccessCanonical(d.code)
    ensures Containers.InverseOn(EncodeAccessDef, DecodeAccessDef, xs)
  {
    forall d, rest: Bytes | d in xs ensures DecodeAccessDef(EncodeAccessDef(d).value + rest) == Ok(Step(d, rest)) {
      AccessDefRoundTrip(d, rest);
    }
  }

  /// The definitions whose decoders every value of which is canonical.
  predicate CodecDefOk(d: NowCodecDef) { CodecCanonical(d.id) }
  predicate ActionDefOk(d: NowInputActionDef) { ActionCanonical(d.code) }
  predicate AccessDefOk(d: AccessControlDef) { AccessCanonical(d.code) }

  lemma DefDecodersYield()
    ensures Containers.Yields(DecodeCodecDef, CodecDefOk)
    ensures Containers.Yields(DecodeActionDef, ActionDefOk)
    ensures Containers.Yields(DecodeAccessDef, AccessDefOk)
  {
  }

  // ---------------------------------------------------------------- update capset

  const UpdateTy := "UpdateCapset"
  const UpdateFields := [Layout.UInt("flags", "u32", 4), Layout.UInt("quality_mode", "QualityMode", 1),
                         Layout.UInt("padding", "u8", 1), Layout.UInt("codec_id", "Codec", 2),
                         Layout.UInt("performance", "u32", 4)]

  /// `UpdateCapset`: fixed fields, then the supported codecs as a `Vec8`.
  datatype UpdateCapset = UpdateCapset(flags: u32, qualityMode: QualityMode, padding: u8, codecId: Codec,
                                       performance: u32, codecs: seq<NowCodecDef>)

  /// `UpdateCapset::new`: the quality and codec given, everything else
  /// zero and no codec list.
  function NewUpdate(qualityMode: QualityMode, codecId: Codec): (c: UpdateCapset)
    ensures c.qualityMode == qualityMode && c.codecId == codecId && c.codecs == []
    ensures c.flags == 0 && c.padding == 0 && c.performance == 0
  {
    UpdateCapset(0, qualityMode, 0, codecId, 0, [])
  }

  /// `new_with_supported_codecs`: unspecified quality and codec, the list
  /// in the order given.
  function NewUpdateWithCodecs(codecs: seq<NowCodecDef>): (c: UpdateCapset)
    ensures c.qualityMode == QualityMode.Unspecified && c.codecId == Codec.Unspecified && c.codecs == codecs
    ensures c.flags == 0 && c.padding == 0 && c.performance == 0
  {
    UpdateCapset(0, QualityMode.Unspecified, 0, Codec.Unspecified, 0, codecs)
  }

  function UpdateValues(c: UpdateCapset): (vs: seq<nat>)
    ensures Layout.Fits(UpdateFields, vs)
  {
    Pow256Widths();
    [c.flags, QualityToU8(c.qualityMode), c.padding, CodecToU16(c.codecId), c.performance]
  }

  predicate UpdateWellFormed(c: UpdateCapset)
  {
    QualityCanonical(c.qualityMode) && CodecCanonical(c.codecId) && forall d | d in c.codecs :: CodecDefOk(d)
  }

  /// The derived encoder: it fails only when there are more codecs than a
  /// `u8` count can hold.
  function EncodeUpdate(c: UpdateCapset): (r: Result<Bytes>)
    ensures r.Ok? <==> |c.codecs| < 256
  {
    Pow256Widths();
    Layout.EncodeWithVec(UpdateTy, UpdateFields, UpdateValues(c), "codecs", EncodeCodecDef, 1, c.codecs)
  }

  /// The capset whose fixed fields read as `vs`.
  function UpdateOf(vs: seq<nat>, codecs: seq<NowCodecDef>): (c: UpdateCapset)
    requires Layout.Fits(UpdateFields, vs)
    ensures QualityCanonical(c.qualityMode) && CodecCanonical(c.codecId) && c.codecs == codecs
  {
    Pow256Widths();
    assert vs[0] < Pow256(4) && vs[1] < Pow256(1) && vs[2] < Pow256(1) && vs[3] < Pow256(2) && vs[4] < Pow256(4);
    UpdateCapset(vs[0], QualityFromU8(vs[1]), vs[2], CodecFromU16(vs[3]), vs[4], codecs)
  }

  function DecodeUpdate(b: Bytes): (r: Result<Step<UpdateCapset>>)
    ensures r.Ok? ==> 13 <= |b| && UpdateWellFormed(r.value.value)
  {
    var x :- Layout.DecodeWithVec(UpdateTy, UpdateFields, "Vec8 < NowCodecDef >", "codecs", DecodeCodecDef, 1, b);
    DefDecodersYield();
    Layout.WithVecYields(UpdateTy, UpdateFields, "Vec8 < NowCodecDef >", "codecs", DecodeCodecDef, CodecDefOk, 1, b);
    Ok(Step(UpdateOf(x.value.0, x.value.1), x.rest))
  }

  lemma UpdateRoundTrip(c: UpdateCapset, rest: Bytes)
    requires UpdateWellFormed(c) && |c.codecs| < 256
    ensures DecodeUpdate(EncodeUpdate(c).value + rest) == Ok(Step(c, rest))
  {
    Pow256Widths();
    CodecDefInverse(c.codecs);
    Layout.WithVecRoundTrip(UpdateTy, UpdateFields, UpdateValues(c), "Vec8 < NowCodecDef >", "codecs",
                            EncodeCodecDef, DecodeCodecDef, 1, c.codecs, rest);
    QualityTable(c.qualityMode);
    CodecTable(c.codecId);
  }

  // ---------------------------------------------------------------- input and access capsets

  const InputTy := "InputCapset"
  const AccessTy := "AccessCapset"

  /// The fixed fields both capsets open with: flags, then a reserved word.
  function FlagsReservedFields(): seq<Layout.Field>
  {
    [Layout.UInt("flags", "u32", 4), Layout.UInt("reserved", "u32", 4)]
  }

  /// `InputCapset`: flags, reserved, then the action definitions.
  datatype InputCapset = InputCapset(flags: u32, reserved: u32, actions: seq<NowInputActionDef>)

  /// `AccessCapset`: flags, reserved, then the access control definitions.
  datatype AccessCapset = AccessCapset(flags: u32, reserved: u32, accessControls: seq<AccessControlDef>)

  /// `new_with_actions` and `new_with_access_controls`: zero flags and
  /// reserved word, the list in the order given.
  function NewInput(actions: seq<NowInputActionDef>): (c: InputCapset)
    ensures c.flags == 0 && c.reserved == 0 && c.actions == actions
  {
    InputCapset(0, 0, actions)
  }

  function NewAccess(controls: seq<AccessControlDef>): (c: AccessCapset)
    ensures c.flags == 0 && c.reserved == 0 && c.accessControls == controls
  {
    AccessCapset(0, 0, controls)
  }

  function TwoWords(flags: u32, reserved: u32): (vs: seq<nat>)
    ensures Layout.Fits(FlagsReservedFields(), vs)
  {
    Pow256Widths();
    [flags, reserved]
  }

  function EncodeInput(c: InputCapset): (r: Result<Bytes>)
    ensures r.Ok? <==> |c.actions| < 256
  {
    Pow256Widths();
    Layout.EncodeWithVec(InputTy, FlagsReservedFields(), TwoWords(c.flags, c.reserved), "actions",
                         EncodeActionDef, 1, c.actions)
  }

  function DecodeInput(b: Bytes): (r: Result<Step<InputCapset>>)
    ensures r.Ok? ==> 9 <= |b| && forall d | d in r.value.value.actions :: ActionDefOk(d)
  {
    Pow256Widths();
    var x :- Layout.DecodeWithVec(InputTy, FlagsReservedFields(), "Vec8 < NowInputActionDef >", "actions",
                                  DecodeActionDef, 1, b);
    DefDecodersYield();
    Layout.WithVecYields(InputTy, FlagsReservedFields(), "Vec8 < NowInputActionDef >", "actions",
                         DecodeActionDef, ActionDefOk, 1, b);
    Ok(Step(InputCapset(x.value.0[0], x.value.0[1], x.value.1), x.rest))
  }

  lemma InputRoundTrip(c: InputCapset, rest: Bytes)
    requires (forall d | d in c.actions :: ActionDefOk(d)) && |c.actions| < 256
    ensures DecodeInput(EncodeInput(c).value + rest) == Ok(Step(c, rest))
  {
    Pow256Widths();
    ActionDefInverse(c.actions);
    Layout.WithVecRoundTrip(InputTy, FlagsReservedFields(), TwoWords(c.flags, c.reserved),
                            "Vec8 < NowInputActionDef >", "actions", EncodeActionDef, DecodeActionDef, 1, c.actions, rest);
  }

  function EncodeAccess(c: AccessCapset): (r: Result<Bytes>)
    ensures r.Ok? <==> |c.accessControls| < 256
  {
    Pow256Widths();
    Layout.EncodeWithVec(AccessTy, FlagsReservedFields(), TwoWords(c.flags, c.reserved), "access_controls",
                         EncodeAccessDef, 1, c.accessControls)
  }

  function DecodeAccess(b: Bytes): (r: Result<Step<AccessCapset>>)
    ensures r.Ok? ==> 9 <= |b| && forall d | d in r.value.value.accessControls :: AccessDefOk(d)
  {
    Pow256Widths();
    var x :- Layout.DecodeWithVec(AccessTy, FlagsReservedFields(), "Vec8 < AccessControlDef >", "access_controls",
                                  DecodeAccessDef, 1, b);
    DefDecodersYield();
    Layout.WithVecYields(AccessTy, FlagsReservedFields(), "Vec8 < AccessControlDef >", "access_controls",
                         DecodeAccessDef, AccessDefOk, 1, b);
    Ok(Step(AccessCapset(x.value.0[0], x.value.0[1], x.value.1), x.rest))
  }

  lemma AccessRoundTrip(c: AccessCapset, rest: Bytes)
    requires (forall d | d in c.accessControls :: AccessDefOk(d)) && |c.accessControls| < 256
    ensures DecodeAccess(EncodeAccess(c).value + rest) == Ok(Step(c, rest))
  {
    Pow256Widths();
    AccessDefInverse(c.accessControls);
    Layout.WithVecRoundTrip(AccessTy, FlagsReservedFields(), TwoWords(c.flags, c.reserved),
                            "Vec8 < AccessControlDef >", "access_controls", EncodeAccessDef, DecodeAccessDef, 1,
                            c.accessControls, rest);
  }

  // ---------------------------------------------------------------- mouse, license and transport capsets

  const MouseTy := "MouseCapset"
  const MouseFields := [Layout.FlagsOf("flags", "MouseCapsetFlags", 4), Layout.UInt("mode", "MouseMode", 1),
                        Layout.UInt("padding", "u8", 1), Layout.UInt("reserved", "u16", 2)]

  /// `MouseCapset`: flags, the mouse mode, padding and a reserved word.
  datatype MouseCapset = MouseCapset(flags: u32, mode: Mouse.MouseMode, padding: u8, reserved: u16)

  /// `MouseCapset::new`: padding and reserved are zero.
  function NewMouse(mode: Mouse.MouseMode, flags: u32): (c: MouseCapset)
    ensures c.mode == mode && c.flags == flags && c.padding == 0 && c.reserved == 0
  {
    MouseCapset(flags, mode, 0, 0)
  }

  function MouseValues(c: MouseCapset): (vs: seq<nat>)
    ensures Layout.Fits(MouseFields, vs)
  {
    Pow256Widths();
    [c.flags, Mouse.ModeToByte(c.mode), c.padding, c.reserved]
  }

  predicate MouseModeCanonical(m: Mouse.MouseMode) { m.Other? ==> !(1 <= m.value <= 3) }

  function EncodeMouse(c: MouseCapset): (e: Bytes)
    ensures |e| == 8
  {
    Layout.Encode(MouseFields, MouseValues(c))
  }

  /// The derived decoder: 8 bytes, and what it reads is the encoding of
  /// what it returns.
  function DecodeMouse(b: Bytes): (r: Result<Step<MouseCapset>>)
    ensures r.Ok? <==> 8 <= |b|
    ensures r.Ok? ==> r.value.rest == b[8..] && MouseModeCanonical(r.value.value.mode)
                      && EncodeMouse(r.value.value) == b[..8]
  {
    var x :- Layout.Decode(MouseTy, MouseFields, b);
    Ok(Step(MouseOf(x.value), x.rest))
  }

  /// The capset whose fields read as `vs`; it writes `vs` back.
  function MouseOf(vs: seq<nat>): (c: MouseCapset)
    requires Layout.Fits(MouseFields, vs)
    ensures MouseModeCanonical(c.mode) && MouseValues(c) == vs
  {
    Pow256Widths();
    assert vs[0] < Pow256(4) && vs[1] < Pow256(1) && vs[2] < Pow256(1) && vs[3] < Pow256(2);
    var c := MouseCapset(vs[0], Mouse.ModeFromByte(vs[1]), vs[2], vs[3]);
    Mouse.ModeTable(vs[1], c.mode);
    c
  }

  lemma MouseRoundTrip(c: MouseCapset, rest: Bytes)
    requires MouseModeCanonical(c.mode)
    ensures DecodeMouse(EncodeMouse(c) + rest) == Ok(Step(c, rest))
  {
    Layout.RoundTrip(MouseTy, MouseFields, MouseValues(c), rest);
    Mouse.ModeTable(0, c.mode);
  }

  const LicenseTy := "LicenseCapset"
  const TransportTy := "TransportCapset"

  /// `LicenseCapset` and `TransportCapset`: one `u32` word each, the
  /// license's a flags word; the transport default is 0.
  datatype LicenseCapset = LicenseCapset(flags: u32)
  datatype TransportCapset = TransportCapset(flags: u32)

  const DefaultTransport := TransportCapset(0)

  function EncodeLicense(c: LicenseCapset): (e: Bytes)
    ensures |e| == 4
  {
    U32(c.flags)
  }

  function DecodeLicense(b: Bytes): (r: Result<Step<LicenseCapset>>)
    ensures r.Ok? <==> 4 <= |b|
    ensures r.Ok? ==> r.value.rest == b[4..] && EncodeLicense(r.value.value) == b[..4]
  {
    var x :- Flags32Field(LicenseTy, "LicenseCapsetFlags", "flags", b);
    FieldsReadEncodings(LicenseTy, "LicenseCapsetFlags", "flags", b, 4);
    Ok(Step(LicenseCapset(x.value), x.rest))
  }

  lemma LicenseRoundTrip(c: LicenseCapset, rest: Bytes)
    ensures DecodeLicense(EncodeLicense(c) + rest) == Ok(Step(c, rest))
  {
    U32RoundTrip(LicenseTy, "LicenseCapsetFlags", "flags", c.flags, rest);
  }

  function EncodeTransport(c: TransportCapset): (e: Bytes)
    ensures |e| == 4
  {
    U32(c.flags)
  }

  function DecodeTransport(b: Bytes): (r: Result<Step<TransportCapset>>)
    ensures r.Ok? <==> 4 <= |b|
    ensures r.Ok? ==> r.value.rest == b[4..] && EncodeTransport(r.value.value) == b[..4]
  {
    var x :- U32Field(TransportTy, "u32", "flags", b);
    U32FieldReads(TransportTy, "u32", "flags", b);
    Ok(Step(TransportCapset(x.value), x.rest))
  }

  lemma TransportRoundTrip(c: TransportCapset, rest: Bytes)
    ensures DecodeTransport(EncodeTransport(c) + rest) == Ok(Step(c, rest))
  {
    U32RoundTrip(TransportTy, "u32", "flags", c.flags, rest);
  }
}
