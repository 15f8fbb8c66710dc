/// `NowInputMsg`: a `Vec16` of input events (mouse, scroll, keyboard,
/// Unicode, toggle keys, actions). `InputEvent` is a meta enum on a
/// one-byte subtype with a fallback variant that keeps the undecoded rest
/// of the buffer.
module Input {
  import opened Wire
  import opened Errors
  import opened Derived
  import Containers
  import Capsets
  import UnicodeEvent
  import Serialization

  const Ty := "InputEvent"
  const MsgTy := "NowInputMsg"
  const MouseTy := "NowInputEventMouse"
  const ScrollTy := "NowInputEventScroll"
  const KeyboardTy := "NowInputEventKeyboard"
  const ToggleTy := "NowInputEventToggle"
  const ActionTy := "NowInputEventAction"

  /// `InputMessageType`, with its fallback `Other(v)`.
  datatype InputMessageType =
    | MouseSubtype | ScrollSubtype | KeyboardSubtype | UnicodeSubtype | ToggleSubtype | ActionSubtype
    | Other(value: u8)

  function MessageTypeFromU8(v: u8): (t: InputMessageType)
    ensures t.Other? <==> !(1 <= v <= 6)
    ensures t.Other? ==> t.value == v
  {
    match v
    case 1 => MouseSubtype
    case 2 => ScrollSubtype
    case 3 => KeyboardSubtype
    case 4 => UnicodeSubtype
    case 5 => ToggleSubtype
    case 6 => ActionSubtype
    case _ => Other(v)
  }

  function MessageTypeToU8(t: InputMessageType): u8
  {
    match t
    case MouseSubtype => 1
    case ScrollSubtype => 2
    case KeyboardSubtype => 3
    case UnicodeSubtype => 4
    case ToggleSubtype => 5
    case ActionSubtype => 6
    case Other(v) => v
  }

  /// `Other(v)` only stands for a value outside the table.
  predicate MessageTypeCanonical(t: InputMessageType)
  {
    t.Other? ==> !(1 <= t.value <= 6)
  }

  /// The two directions of the subtype table.
  lemma MessageTypeTable(t: InputMessageType)
    ensures forall v: u8 :: MessageTypeCanonical(MessageTypeFromU8(v)) && MessageTypeToU8(MessageTypeFromU8(v)) == v
    ensures MessageTypeCanonical(t) ==> MessageTypeFromU8(MessageTypeToU8(t)) == t
  {
  }

  /// `EventMouseFlags`: no button, or the button pressed; with fallback.
  datatype EventMouseFlags = NoButton | ButtonLeft | ButtonRight | ButtonMiddle | ButtonX1 | ButtonX2
                           | OtherButtons(value: u8)

  predicate ListedButtons(v: u8) { v in {0x00, 0x01, 0x02, 0x04, 0x10, 0x20} }

  function MouseFlagsFromU8(v: u8): (f: EventMouseFlags)
    ensures f.OtherButtons? <==> !ListedButtons(v)
  {
    match v
    case 0x00 => NoButton
    case 0x01 => ButtonLeft
    case 0x02 => ButtonRight
    case 0x04 => ButtonMiddle
    case 0x10 => ButtonX1
    case 0x20 => ButtonX2
    case _ => OtherButtons(v)
  }

  function MouseFlagsToU8(f: EventMouseFlags): u8
  {
    match f
    case NoButton => 0x00
    case ButtonLeft => 0x01
    case ButtonRight => 0x02
    case ButtonMiddle => 0x04
    case ButtonX1 => 0x10
    case ButtonX2 => 0x20
    case OtherButtons(v) => v
  }

  predicate MouseFlagsCanonical(f: EventMouseFlags)
  {
    f.OtherButtons? ==> !ListedButtons(f.value)
  }

  lemma MouseFlagsTable(f: EventMouseFlags)
    ensures forall v: u8 :: MouseFlagsCanonical(MouseFlagsFromU8(v)) && MouseFlagsToU8(MouseFlagsFromU8(v)) == v
    ensures MouseFlagsCanonical(f) ==> MouseFlagsFromU8(MouseFlagsToU8(f)) == f
  {
  }

  /// `ToggleEventKeys`, the `u16` a toggle event's code holds; with
  /// fallback.
  datatype ToggleEventKeys = ScrollLock | NumLock | CapsLock | KanaLock | OtherKeys(value: u16)

  function ToggleKeysFromU16(v: u16): (k: ToggleEventKeys)
    ensures k.OtherKeys? <==> v !in {1, 2, 4, 8}
  {
    match v
    case 1 => ScrollLock
    case 2 => NumLock
    case 4 => CapsLock
    case 8 => KanaLock
    case _ => OtherKeys(v)
  }

  function ToggleKeysToU16(k: ToggleEventKeys): u16
  {
    match k
    case ScrollLock => 1
    case NumLock => 2
    case CapsLock => 4
    case KanaLock => 8
    case OtherKeys(v) => v
  }

  lemma ToggleKeysTable(k: ToggleEventKeys)
    ensures forall v: u16 :: ToggleKeysToU16(ToggleKeysFromU16(v)) == v
    ensures (k.OtherKeys? ==> k.value !in {1, 2, 4, 8}) ==> ToggleKeysFromU16(ToggleKeysToU16(k)) == k
  {
  }

  // ---------------------------------------------------------------- events

  /// `NowInputEventMouse`: the buttons and the position.
  datatype MouseEvent = MouseEvent(subtype: InputMessageType, flags: EventMouseFlags, x: i16, y: i16)

  /// `NowInputEventScroll`: a flags byte and the scroll amounts.
  datatype ScrollEvent = ScrollEvent(subtype: InputMessageType, flags: u8, x: i16, y: i16)

  /// `NowInputEventKeyboard` and `NowInputEventToggle`: a flags byte and a
  /// `u16` code, under two names.
  datatype CodeEvent = CodeEvent(subtype: InputMessageType, flags: u8, code: u16)

  /// `NowInputEventUnicode`: the code's bytes, with their own codec.
  datatype UnicodeInput = UnicodeInput(subtype: InputMessageType, code: Bytes)

  /// `NowInputEventAction`: a flags byte and an `InputActionCode`.
  datatype ActionEvent = ActionEvent(subtype: InputMessageType, flags: u8, code: Capsets.InputActionCode)

  datatype InputEvent =
    | Mouse(mouse: MouseEvent)
    | Scroll(scroll: ScrollEvent)
    | Keyboard(keyboard: CodeEvent)
    | Unicode(unicode: UnicodeInput)
    | Toggle(toggle: CodeEvent)
    | Action(action: ActionEvent)
    | Custom(payload: Bytes)

  /// The constructors: each event with its own subtype; scroll, toggle and
  /// action events with no flag.
  function NewMouse(flags: EventMouseFlags, x: i16, y: i16): (m: MouseEvent)
    ensures m.subtype == MouseSubtype && m.flags == flags && m.x == x && m.y == y
  {
    MouseEvent(MouseSubtype, flags, x, y)
  }

  function NewScroll(x: i16, y: i16): (m: ScrollEvent)
    ensures m.subtype == ScrollSubtype && m.flags == 0 && m.x == x && m.y == y
  {
    ScrollEvent(ScrollSubtype, 0, x, y)
  }

  function NewKeyboard(flags: u8, code: u16): (m: CodeEvent)
    ensures m.subtype == KeyboardSubtype && m.flags == flags && m.code == code
  {
    CodeEvent(KeyboardSubtype, flags, code)
  }

  function NewUnicode(code: Bytes): (m: UnicodeInput)
    ensures m.subtype == UnicodeSubtype && m.code == code
  {
    UnicodeInput(UnicodeSubtype, code)
  }

  function NewToggle(code: u16): (m: CodeEvent)
    ensures m.subtype == ToggleSubtype && m.flags == 0 && m.code == code
  {
    CodeEvent(ToggleSubtype, 0, code)
  }

  function NewAction(code: Capsets.InputActionCode): (m: ActionEvent)
    ensures m.subtype == ActionSubtype && m.flags == 0 && m.code == code
  {
    ActionEvent(ActionSubtype, 0, code)
  }

  // ---------------------------------------------------------------- struct codecs

  /// A struct's subtype field: a byte through the subtype table, which
  /// never refuses one.
  function SubtypeField(structTy: string, b: Bytes): (r: Result<Step<InputMessageType>>)
    ensures r.Ok? <==> 0 < |b|
    ensures r.Ok? ==> r.value == Step(MessageTypeFromU8(b[0]), b[1..])
  {
    var x :- U8Field(structTy, "InputMessageType", "subtype", b);
    U8FieldReads(structTy, "InputMessageType", "subtype", b);
    Ok(Step(MessageTypeFromU8(x.value), x.rest))
  }

  lemma SubtypeFieldRoundTrip(structTy: string, t: InputMessageType, rest: Bytes)
    requires MessageTypeCanonical(t)
    ensures SubtypeField(structTy, U8(MessageTypeToU8(t)) + rest) == Ok(Step(t, rest))
  {
    var b := U8(MessageTypeToU8(t)) + rest;
    assert b[0] == MessageTypeToU8(t) && b[1..] == rest;
    MessageTypeTable(t);
  }

  function EncodeMouse(m: MouseEvent): (e: Bytes)
    ensures |e| == 6 && e[0] == MessageTypeToU8(m.subtype)
  {
    U8(MessageTypeToU8(m.subtype)) + U8(MouseFlagsToU8(m.flags)) + I16(m.x) + I16(m.y)
  }

  /// The derived decoder; the subtype is read and kept, not checked.
  function DecodeMouse(b: Bytes): (r: Result<Step<MouseEvent>>)
    ensures r.Ok? <==> 6 <= |b|
    ensures r.Ok? ==> r.value.rest == b[6..] && r.value.value.subtype == MessageTypeFromU8(b[0])
                      && MouseFlagsCanonical(r.value.value.flags)
  {
    var subtype :- SubtypeField(MouseTy, b);
    var flags :- U8Field(MouseTy, "EventMouseFlags", "flags", subtype.rest);
    var x :- I16Field(MouseTy, "i16", "x", flags.rest);
    var y :- I16Field(MouseTy, "i16", "y", x.rest);
    MouseFlagsTable(NoButton);
    Ok(Step(MouseEvent(subtype.value, MouseFlagsFromU8(flags.value), x.value, y.value), y.rest))
  }

  lemma MouseRoundTrip(m: MouseEvent, rest: Bytes)
    requires MessageTypeCanonical(m.subtype) && MouseFlagsCanonical(m.flags)
    ensures DecodeMouse(EncodeMouse(m) + rest) == Ok(Step(m, rest))
  {
    var e0, e1, e2, e3 := U8(MessageTypeToU8(m.subtype)), U8(MouseFlagsToU8(m.flags)), I16(m.x), I16(m.y);
    assert EncodeMouse(m) + rest == e0 + (e1 + (e2 + (e3 + rest)));
    SubtypeFieldRoundTrip(MouseTy, m.subtype, e1 + (e2 + (e3 + rest)));
    U8RoundTrip(MouseTy, "EventMouseFlags", "flags", MouseFlagsToU8(m.flags), e2 + (e3 + rest));
    I16RoundTrip(MouseTy, "i16", "x", m.x, e3 + rest);
    I16RoundTrip(MouseTy, "i16", "y", m.y, rest);
    MouseFlagsTable(m.flags);
  }

  function EncodeScroll(m: ScrollEvent): (e: Bytes)
    ensures |e| == 6 && e[0] == MessageTypeToU8(m.subtype)
  {
    U8(MessageTypeToU8(m.subtype)) + U8(m.flags) + I16(m.x) + I16(m.y)
  }

  function DecodeScroll(b: Bytes): (r: Result<Step<ScrollEvent>>)
    ensures r.Ok? <==> 6 <= |b|
    ensures r.Ok? ==> r.value.rest == b[6..] && r.value.value.subtype == MessageTypeFromU8(b[0])
  {
    var subtype :- SubtypeField(ScrollTy, b);
    var flags :- U8Field(ScrollTy, "u8", "flags", subtype.rest);
    var x :- I16Field(ScrollTy, "i16", "x", flags.rest);
    var y :- I16Field(ScrollTy, "i16", "y", x.rest);
    Ok(Step(ScrollEvent(subtype.value, flags.value, x.value, y.value), y.rest))
  }

  lemma ScrollRoundTrip(m: ScrollEvent, rest: Bytes)
    requires MessageTypeCanonical(m.subtype)
    ensures DecodeScroll(EncodeScroll(m) + rest) == Ok(Step(m, rest))
  {
    var e0, e1, e2, e3 := U8(MessageTypeToU8(m.subtype)), U8(m.flags), I16(m.x), I16(m.y);
    assert EncodeScroll(m) + rest == e0 + (e1 + (e2 + (e3 + rest)));
    SubtypeFieldRoundTrip(ScrollTy, m.subtype, e1 + (e2 + (e3 + rest)));
    U8RoundTrip(ScrollTy, "u8", "flags", m.flags, e2 + (e3 + rest));
    I16RoundTrip(ScrollTy, "i16", "x", m.x, e3 + rest);
    I16RoundTrip(ScrollTy, "i16", "y", m.y, rest);
  }

  function EncodeCode(m: CodeEvent): (e: Bytes)
    ensures |e| == 4 && e[0] == MessageTypeToU8(m.subtype)
  {
    U8(MessageTypeToU8(m.subtype)) + U8(m.flags) + U16(m.code)
  }

  /// The derived decoder of the keyboard or the toggle struct, named `ty`.
  function DecodeCode(ty: string, b: Bytes): (r: Result<Step<CodeEvent>>)
    ensures r.Ok? <==> 4 <= |b|
    ensures r.Ok? ==> r.value.rest == b[4..] && r.value.value.subtype == MessageTypeFromU8(b[0])
  {
    var subtype :- SubtypeField(ty, b);
    var flags :- U8Field(ty, "u8", "flags", subtype.rest);
    var code :- U16Field(ty, "u16", "code", flags.rest);
    Ok(Step(CodeEvent(subtype.value, flags.value, code.value), code.rest))
  }

  lemma CodeRoundTrip(ty: string, m: CodeEvent, rest: Bytes)
    requires MessageTypeCanonical(m.subtype)
    ensures DecodeCode(ty, EncodeCode(m) + rest) == Ok(Step(m, rest))
  {
    var e0, e1, e2 := U8(MessageTypeToU8(m.subtype)), U8(m.flags), U16(m.code);
    assert EncodeCode(m) + rest == e0 + (e1 + (e2 + rest));
    SubtypeFieldRoundTrip(ty, m.subtype, e1 + (e2 + rest));
    U8RoundTrip(ty, "u8", "flags", m.flags, e2 + rest);
    U16RoundTrip(ty, "u16", "code", m.code, rest);
  }

  function EncodeAction(m: ActionEvent): (e: Bytes)
    ensures |e| == 4 && e[0] == MessageTypeToU8(m.subtype)
  {
    U8(MessageTypeToU8(m.subtype)) + U8(m.flags) + U16(Capsets.ActionToU16(m.code))
  }

  function DecodeAction(b: Bytes): (r: Result<Step<ActionEvent>>)
    ensures r.Ok? <==> 4 <= |b|
    ensures r.Ok? ==> r.value.rest == b[4..] && r.value.value.subtype == MessageTypeFromU8(b[0])
                      && Capsets.ActionCanonical(r.value.value.code)
  {
    var subtype :- SubtypeField(ActionTy, b);
    var flags :- U8Field(ActionTy, "u8", "flags", subtype.rest);
    var code :- U16Field(ActionTy, "InputActionCode", "code", flags.rest);
    Ok(Step(ActionEvent(subtype.value, flags.value, Capsets.ActionFromU16(code.value)), code.rest))
  }

  lemma ActionRoundTrip(m: ActionEvent, rest: Bytes)
    requires MessageTypeCanonical(m.subtype) && Capsets.ActionCanonical(m.code)
    ensures DecodeAction(EncodeAction(m) + rest) == Ok(Step(m, rest))
  {
    var e0, e1, e2 := U8(MessageTypeToU8(m.subtype)), U8(m.flags), U16(Capsets.ActionToU16(m.code));
    assert EncodeAction(m) + rest == e0 + (e1 + (e2 + rest));
    SubtypeFieldRoundTrip(ActionTy, m.subtype, e1 + (e2 + rest));
    U8RoundTrip(ActionTy, "u8", "flags", m.flags, e2 + rest);
    U16RoundTrip(ActionTy, "InputActionCode", "code", Capsets.ActionToU16(m.code), rest);
    Capsets.ActionTable(m.code);
  }

  /// The Unicode event's own encoder; a code whose length the flags
  /// computation panics on is an error.
  function EncodeUnicode(m: UnicodeInput): (r: Result<Bytes>)
    ensures r.Ok? <==> |m.code| % 256 != 0
    ensures r.Ok? ==> |r.value| > 0 && r.value[0] == MessageTypeToU8(m.subtype)
  {
    UnicodeEvent.Encode(MessageTypeToU8(m.subtype), m.code)
  }

  /// The Unicode event's own decoder, reading the code where the event
  /// starts; it sets the subtype to `Unicode` whatever byte it skipped.
  function DecodeUnicode(b: Bytes): (r: Result<Step<UnicodeInput>>)
    ensures r.Ok? ==> r.value.value.subtype == UnicodeSubtype && 1 <= |r.value.value.code| <= 4
  {
    var code :- UnicodeEvent.Decode(b);
    Ok(Step(UnicodeInput(UnicodeSubtype, code.value), code.rest))
  }

  lemma UnicodeRoundTrip(m: UnicodeInput, rest: Bytes)
    requires m.subtype == UnicodeSubtype && 1 <= |m.code| <= 4
    ensures EncodeUnicode(m).Ok? && DecodeUnicode(EncodeUnicode(m).value + rest) == Ok(Step(m, rest))
  {
    UnicodeEvent.RoundTrip(4, m.code, rest);
  }

  // ---------------------------------------------------------------- meta enum

  /// The derived meta-enum encoder: only a Unicode event can fail; the
  /// fallback writes its bytes as they are.
  function Encode(e: InputEvent): (r: Result<Bytes>)
    ensures !e.Unicode? ==> r.Ok?
    ensures e.Unicode? ==> (r.Ok? <==> |e.unicode.code| % 256 != 0)
    ensures e.Custom? ==> r == Ok(e.payload)
  {
    match e
    case Mouse(m) => Ok(EncodeMouse(m))
    case Scroll(m) => Ok(EncodeScroll(m))
    case Keyboard(m) => Ok(EncodeCode(m))
    case Unicode(m) => OutVariant(Ty, "Unicode", EncodeUnicode(m))
    case Toggle(m) => Ok(EncodeCode(m))
    case Action(m) => Ok(EncodeAction(m))
    case Custom(payload) => Ok(payload)
  }

  /// An event whose subtype field names its own variant, holding values
  /// the decoders can return; a custom payload starts with an unlisted
  /// subtype.
  predicate WellFormed(e: InputEvent)
  {
    match e
    case Mouse(m) => m.subtype == MouseSubtype && MouseFlagsCanonical(m.flags)
    case Scroll(m) => m.subtype == ScrollSubtype
    case Keyboard(m) => m.subtype == KeyboardSubtype
    case Unicode(m) => m.subtype == UnicodeSubtype && 1 <= |m.code| <= 4
    case Toggle(m) => m.subtype == ToggleSubtype
    case Action(m) => m.subtype == ActionSubtype && Capsets.ActionCanonical(m.code)
    case Custom(payload) => |payload| > 0 && !(1 <= payload[0] <= 6)
  }

  /// The variants as the meta enum's decoder reads them, each from the
  /// bytes its subtype opens.
  function MouseVariant(b: Bytes): (r: Result<Step<InputEvent>>)
    requires 0 < |b| && b[0] == 1
    ensures r.Ok? ==> WellFormed(r.value.value)
  {
    var s :- InVariant(Ty, "Mouse", DecodeMouse(b));
    Ok(Step(Mouse(s.value), s.rest))
  }

  function ScrollVariant(b: Bytes): (r: Result<Step<InputEvent>>)
    requires 0 < |b| && b[0] == 2
    ensures r.Ok? ==> WellFormed(r.value.value)
  {
    var s :- InVariant(Ty, "Scroll", DecodeScroll(b));
    Ok(Step(Scroll(s.value), s.rest))
  }

  function KeyboardVariant(b: Bytes): (r: Result<Step<InputEvent>>)
    requires 0 < |b| && b[0] == 3
    ensures r.Ok? ==> WellFormed(r.value.value)
  {
    var s :- InVariant(Ty, "Keyboard", DecodeCode(KeyboardTy, b));
    Ok(Step(Keyboard(s.value), s.rest))
  }

  function UnicodeVariant(b: Bytes): (r: Result<Step<InputEvent>>)
    ensures r.Ok? ==> WellFormed(r.value.value)
  {
    var s :- InVariant(Ty, "Unicode", DecodeUnicode(b));
    Ok(Step(Unicode(s.value), s.rest))
  }

  function ToggleVariant(b: Bytes): (r: Result<Step<InputEvent>>)
    requires 0 < |b| && b[0] == 5
    ensures r.Ok? ==> WellFormed(r.value.value)
  {
    var s :- InVariant(Ty, "Toggle", DecodeCode(ToggleTy, b));
    Ok(Step(Toggle(s.value), s.rest))
  }

  function ActionVariant(b: Bytes): (r: Result<Step<InputEvent>>)
    requires 0 < |b| && b[0] == 6
    ensures r.Ok? ==> WellFormed(r.value.value)
  {
    var s :- InVariant(Ty, "Action", DecodeAction(b));
    Ok(Step(Action(s.value), s.rest))
  }

  /// The derived meta-enum decoder: the subtype is peeked; a listed subtype
  /// decodes its variant from the same bytes, any other keeps all of them
  /// and leaves them unread. Whatever it returns is well formed.
  function Decode(b: Bytes): (r: Result<Step<InputEvent>>)
    ensures r.Ok? ==> 0 < |b| && WellFormed(r.value.value)
    ensures 0 < |b| && !(1 <= b[0] <= 6) ==> r == Ok(Step(Custom(b), b))
  {
    var raw :- Subtype(Ty, 1, b);
    assert raw == b[0] by { assert b[..1] == [b[0]]; }
    match MessageTypeFromU8(raw)
    case MouseSubtype => MouseVariant(b)
    case ScrollSubtype => ScrollVariant(b)
    case KeyboardSubtype => KeyboardVariant(b)
    case UnicodeSubtype => UnicodeVariant(b)
    case ToggleSubtype => ToggleVariant(b)
    case ActionSubtype => ActionVariant(b)
    case Other(_) =>
      var all := Rest(b);
      Ok(Step(Custom(all.value), all.rest))
  }

  lemma FirstByte(b: Bytes, v: u8)
    requires 0 < |b| && b[0] == v
    ensures Subtype(Ty, 1, b) == Ok(v as nat)
  {
    assert b[..1] == [v];
  }

  lemma MouseReadsBack(m: MouseEvent, rest: Bytes)
    requires WellFormed(Mouse(m))
    ensures Decode(EncodeMouse(m) + rest) == Ok(Step(Mouse(m), rest))
  {
    var e := EncodeMouse(m) + rest;
    MouseRoundTrip(m, rest);
    FirstByte(e, 1);
    assert InVariant(Ty, "Mouse", DecodeMouse(e)) == Ok(Step(m, rest));
  }

  lemma ScrollReadsBack(m: ScrollEvent, rest: Bytes)
    requires WellFormed(Scroll(m))
    ensures Decode(EncodeScroll(m) + rest) == Ok(Step(Scroll(m), rest))
  {
    var e := EncodeScroll(m) + rest;
    ScrollRoundTrip(m, rest);
    FirstByte(e, 2);
    assert InVariant(Ty, "Scroll", DecodeScroll(e)) == Ok(Step(m, rest));
  }

  lemma KeyboardReadsBack(m: CodeEvent, rest: Bytes)
    requires WellFormed(Keyboard(m))
    ensures Decode(EncodeCode(m) + rest) == Ok(Step(Keyboard(m), rest))
  {
    var e := EncodeCode(m) + rest;
    CodeRoundTrip(KeyboardTy, m, rest);
    FirstByte(e, 3);
    assert InVariant(Ty, "Keyboard", DecodeCode(KeyboardTy, e)) == Ok(Step(m, rest));
  }

  lemma UnicodeReadsBack(m: UnicodeInput, rest: Bytes)
    requires WellFormed(Unicode(m))
    ensures EncodeUnicode(m).Ok? && Decode(EncodeUnicode(m).value + rest) == Ok(Step(Unicode(m), rest))
  {
    UnicodeRoundTrip(m, rest);
    var e := EncodeUnicode(m).value + rest;
    FirstByte(e, 4);
    assert InVariant(Ty, "Unicode", DecodeUnicode(e)) == Ok(Step(m, rest));
  }

  lemma ToggleReadsBack(m: CodeEvent, rest: Bytes)
    requires WellFormed(Toggle(m))
    ensures Decode(EncodeCode(m) + rest) == Ok(Step(Toggle(m), rest))
  {
    var e := EncodeCode(m) + rest;
    CodeRoundTrip(ToggleTy, m, rest);
    FirstByte(e, 5);
    assert InVariant(Ty, "Toggle", DecodeCode(ToggleTy, e)) == Ok(Step(m, rest));
  }

  lemma ActionReadsBack(m: ActionEvent, rest: Bytes)
    requires WellFormed(Action(m))
    ensures Decode(EncodeAction(m) + rest) == Ok(Step(Action(m), rest))
  {
    var e := EncodeAction(m) + rest;
    ActionRoundTrip(m, rest);
    FirstByte(e, 6);
    assert InVariant(Ty, "Action", DecodeAction(e)) == Ok(Step(m, rest));
  }

  /// Decoding an encoded well-formed event gives it back and leaves what
  /// follows it unread; a custom event takes every byte after it too and
  /// leaves them all unread, so it comes back only when nothing follows it.
  lemma RoundTrip(e: InputEvent, rest: Bytes)
    requires WellFormed(e)
    requires e.Custom? ==> rest == []
    ensures Encode(e).Ok?
    ensures e.Custom? ==> Decode(Encode(e).value) == Ok(Step(e, e.payload))
    ensures !e.Custom? ==> Decode(Encode(e).value + rest) == Ok(Step(e, rest))
  {
    match e
    case Mouse(m) => MouseReadsBack(m, rest);
    case Scroll(m) => ScrollReadsBack(m, rest);
    case Keyboard(m) => KeyboardReadsBack(m, rest);
    case Unicode(m) => UnicodeReadsBack(m, rest);
    case Toggle(m) => ToggleReadsBack(m, rest);
    case Action(m) => ActionReadsBack(m, rest);
    case Custom(payload) =>
  }

  // ---------------------------------------------------------------- the message

  /// `NowInputMsg`: the events, as a `Vec16`.
  datatype NowInputMsg = NowInputMsg(events: seq<InputEvent>)

  /// `new_with_events`
  function NewWithEvents(events: seq<InputEvent>): (m: NowInputMsg)
    ensures m.events == events
  {
    NowInputMsg(events)
  }

  /// The derived encoder: the count, then each event.
  function EncodeMsg(m: NowInputMsg): (r: Result<Bytes>)
    ensures r.Ok? <==> |m.events| < 0x1_0000 && forall e | e in m.events :: Encode(e).Ok?
  {
    Pow256Widths();
    OutField(MsgTy, "input_event", Containers.EncodeVec(Encode, 2, m.events))
  }

  /// The derived decoder: the count, then that many events, each read
  /// from where the previous one stopped.
  function DecodeMsg(b: Bytes): (r: Result<Step<NowInputMsg>>)
    ensures r.Ok? ==> 2 <= |b| && |r.value.value.events| == LeValue(b[..2])
                      && forall e | e in r.value.value.events :: WellFormed(e)
  {
    var events :- InField(MsgTy, "Vec16 < InputEvent >", "input_event", Containers.DecodeVec(Decode, 2, b));
    assert Containers.Yields(Decode, WellFormed);
    Containers.VecYields(Decode, WellFormed, 2, b);
    Ok(Step(NowInputMsg(events.value), events.rest))
  }

  /// The events a message can carry and read back: well formed, and no
  /// fallback, which would take the events after it as its own.
  predicate EventOk(e: InputEvent)
  {
    WellFormed(e) && !e.Custom?
  }

  lemma EventsInverse(xs: seq<InputEvent>)
    requires forall e | e in xs :: EventOk(e)
    ensures Containers.InverseOn(Encode, Decode, xs)
  {
    forall e, rest: Bytes | e in xs && Encode(e).Ok?
      ensures Decode(Encode(e).value + rest) == Ok(Step(e, rest))
    {
      RoundTrip(e, rest);
    }
  }

  /// A message of up to 65535 well-formed, non-fallback events reads back.
  lemma MsgRoundTrip(m: NowInputMsg, rest: Bytes)
    requires |m.events| < 0x1_0000 && forall e | e in m.events :: EventOk(e)
    ensures EncodeMsg(m).Ok? && DecodeMsg(EncodeMsg(m).value + rest) == Ok(Step(m, rest))
  {
    forall e | e in m.events ensures Encode(e).Ok? { RoundTrip(e, []); }
    Pow256Widths();
    EventsInverse(m.events);
    Containers.VecRoundTrip(Encode, Decode, 2, m.events, rest);
  }

  /// An event with an unlisted subtype leaves the cursor where it was, so
  /// every event the count still announces reads the same bytes again as
  /// the same custom event.
  lemma UnlistedEventRepeats(payload: Bytes)
    requires |payload| > 0 && !(1 <= payload[0] <= 6)
    ensures DecodeMsg([2, 0] + payload) == Ok(Step(NowInputMsg([Custom(payload), Custom(payload)]), payload))
  {
    var b := [2, 0] + payload;
    var ty := Containers.VecName(2);
    assert b[..2] == [2, 0] && b[2..] == payload;
    assert LeValue([2, 0]) == 2;
    assert Decode(payload) == Ok(Step(Custom(payload), payload));
    var last := Containers.DecodeItems(Decode, ty, 2, 2, payload);
    assert last == Ok(Step([], payload));
    var second := Containers.DecodeItems(Decode, ty, 1, 2, payload);
    assert second == Ok(Step([Custom(payload)] + [], payload));
    assert [Custom(payload)] + [] == [Custom(payload)];
    var items := Containers.DecodeItems(Decode, ty, 0, 2, payload);
    assert items == Ok(Step([Custom(payload)] + [Custom(payload)], payload));
    assert [Custom(payload)] + [Custom(payload)] == [Custom(payload), Custom(payload)];
  }

  // ---------------------------------------------------------------- vectors

  /// The events of the tests' packets, after their 6-byte headers.
  const ToggleBytes: Bytes := [0x05, 0x00, 0x02, 0x00]
  const KeyboardBytes: Bytes := [0x03, 0x01, 0x08, 0x00]
  const ScrollBytes: Bytes := [0x02, 0x00, 0x00, 0x00, 0x78, 0x00]
  const UnicodeBytes: Bytes := [0x04, 0xC0, 0xe4, 0x05, 0x77, 0x02]
  const MouseBytes1: Bytes := [0x01, 0x00, 0xe4, 0x05, 0x77, 0x02]
  const MouseBytes2: Bytes := [0x01, 0x00, 0xe0, 0x05, 0x70, 0x02]

  /// A word below 0x8000 encodes, signed or unsigned, as its low byte then
  /// its high byte.
  lemma Word(v: nat)
    requires v < 0x8000
    ensures U16(v) == [v % 256, v / 256] && I16(v) == [v % 256, v / 256]
  {
    Pow256Widths();
    LeBytesOfLeValue(U16(v));
    LeBytesOfLeValue(I16(v));
  }

  /// An event that encodes to `bytes` decodes from them, with nothing left.
  lemma EventVector(e: InputEvent, bytes: Bytes)
    requires EventOk(e) && Encode(e) == Ok(bytes)
    ensures Decode(bytes) == Ok(Step(e, []))
  {
    RoundTrip(e, []);
    assert bytes + [] == bytes;
  }

  /// A toggle of `NumLock` (code 2).
  lemma ToggleVector()
    ensures Encode(Toggle(NewToggle(ToggleKeysToU16(NumLock)))) == Ok(ToggleBytes)
    ensures Decode(ToggleBytes) == Ok(Step(Toggle(NewToggle(2)), []))
  {
    Word(2);
    assert EncodeCode(NewToggle(2)) == [5] + [0] + [2, 0] == ToggleBytes;
    assert Encode(Toggle(NewToggle(2))) == Ok(ToggleBytes);
    EventVector(Toggle(NewToggle(2)), ToggleBytes);
  }

  /// Key 8 with flags 1.
  lemma KeyboardVector()
    ensures Encode(Keyboard(NewKeyboard(1, 8))) == Ok(KeyboardBytes)
    ensures Decode(KeyboardBytes) == Ok(Step(Keyboard(NewKeyboard(1, 8)), []))
  {
    Word(8);
    assert EncodeCode(NewKeyboard(1, 8)) == [3] + [1] + [8, 0] == KeyboardBytes;
    assert Encode(Keyboard(NewKeyboard(1, 8))) == Ok(KeyboardBytes);
    EventVector(Keyboard(NewKeyboard(1, 8)), KeyboardBytes);
  }

  /// A scroll of 120 vertically.
  lemma ScrollVector()
    ensures Encode(Scroll(NewScroll(0, 120))) == Ok(ScrollBytes)
    ensures Decode(ScrollBytes) == Ok(Step(Scroll(NewScroll(0, 120)), []))
  {
    Word(0);
    Word(120);
    assert EncodeScroll(NewScroll(0, 120)) == [2] + [0] + [0, 0] + [0x78, 0] == ScrollBytes;
    assert Encode(Scroll(NewScroll(0, 120))) == Ok(ScrollBytes);
    EventVector(Scroll(NewScroll(0, 120)), ScrollBytes);
  }

  /// The four code bytes `e4 05 77 02`.
  lemma UnicodeVector()
    ensures Encode(Unicode(NewUnicode(UnicodeEvent.Code))) == Ok(UnicodeBytes)
    ensures Decode(UnicodeBytes) == Ok(Step(Unicode(NewUnicode(UnicodeEvent.Code)), []))
  {
    UnicodeEvent.Vectors();
    EventVector(Unicode(NewUnicode(UnicodeEvent.Code)), UnicodeBytes);
  }

  /// The two mouse moves, to (1508, 631) and (1504, 624), with no button.
  lemma MouseVectors()
    ensures Encode(Mouse(NewMouse(NoButton, 1508, 631))) == Ok(MouseBytes1)
    ensures Encode(Mouse(NewMouse(NoButton, 1504, 624))) == Ok(MouseBytes2)
    ensures Decode(MouseBytes1) == Ok(Step(Mouse(NewMouse(NoButton, 1508, 631)), []))
  {
    Word(1508);
    Word(631);
    Word(1504);
    Word(624);
    assert EncodeMouse(NewMouse(NoButton, 1508, 631)) == [1] + [0] + [0xe4, 0x05] + [0x77, 0x02] == MouseBytes1;
    assert EncodeMouse(NewMouse(NoButton, 1504, 624)) == [1] + [0] + [0xe0, 0x05] + [0x70, 0x02] == MouseBytes2;
    assert Encode(Mouse(NewMouse(NoButton, 1508, 631))) == Ok(MouseBytes1);
    EventVector(Mouse(NewMouse(NoButton, 1508, 631)), MouseBytes1);
  }

  /// The two mouse moves, one after the other.
  lemma MouseItems()
    ensures Containers.EncodeItems(Encode, Containers.VecName(2),
              [Mouse(NewMouse(NoButton, 1508, 631)), Mouse(NewMouse(NoButton, 1504, 624))])
            == Ok(MouseBytes1 + MouseBytes2)
  {
    var a, b := Mouse(NewMouse(NoButton, 1508, 631)), Mouse(NewMouse(NoButton, 1504, 624));
    MouseVectors();
    var ty := Containers.VecName(2);
    assert Containers.EncodeItems(Encode, ty, []) == Ok([]);
    Containers.EncodeItemsCons(Encode, ty, b, []);
    assert [b] + [] == [b] && MouseBytes2 + [] == MouseBytes2;
    Containers.EncodeItemsCons(Encode, ty, a, [b]);
    assert [a] + [b] == [a, b];
  }

  /// The message of the two mouse moves: a count of 2, then both events.
  lemma MouseMsgVector()
    ensures EncodeMsg(NewWithEvents([Mouse(NewMouse(NoButton, 1508, 631)), Mouse(NewMouse(NoButton, 1504, 624))]))
            == Ok([0x02, 0x00] + MouseBytes1 + MouseBytes2)
  {
    MouseItems();
    Pow256Widths();
    assert Serialization.EncodeUInt(2, 2) == [0x02, 0x00];
    assert [0x02, 0x00] + (MouseBytes1 + MouseBytes2) == [0x02, 0x00] + MouseBytes1 + MouseBytes2;
  }
}
