/// The mouse message value tables: the message subtype, the cursor type,
/// the mouse mode and state, and the two one-bit flag words.
module Mouse {
  import opened Wire
  import Flags

  /// `MouseMessageType`, values 1 to 4 and the fallback.
  datatype MouseMessageType = Position | Cursor | Mode | State | Other(value: u8)

  function MessageTypeFromByte(v: u8): (t: MouseMessageType)
    ensures t.Other? <==> !(1 <= v <= 4)
    ensures t.Other? ==> t.value == v
  {
    match v
    case 1 => Position
    case 2 => Cursor
    case 3 => Mode
    case 4 => State
    case _ => MouseMessageType.Other(v)
  }

  function MessageTypeToByte(t: MouseMessageType): u8
  {
    match t
    case Position => 1
    case Cursor => 2
    case Mode => 3
    case State => 4
    case Other(v) => v
  }

  /// The two directions of the table; `Other(v)` stands only for a value
  /// outside it.
  lemma MessageTypeTable(v: u8, t: MouseMessageType)
    ensures MessageTypeToByte(MessageTypeFromByte(v)) == v
    ensures !(t.Other? && 1 <= t.value <= 4) ==> MessageTypeFromByte(MessageTypeToByte(t)) == t
  {
  }

  /// `MouseCursorType`, values 0 to 2 and the fallback.
  datatype MouseCursorType = Mono | Color | Alpha | Other(value: u8)

  function CursorTypeFromByte(v: u8): (t: MouseCursorType)
    ensures t.Other? <==> v > 2
    ensures t.Other? ==> t.value == v
  {
    match v
    case 0 => Mono
    case 1 => Color
    case 2 => Alpha
    case _ => MouseCursorType.Other(v)
  }

  function CursorTypeToByte(t: MouseCursorType): u8
  {
    match t
    case Mono => 0
    case Color => 1
    case Alpha => 2
    case Other(v) => v
  }

  lemma CursorTypeTable(v: u8, t: MouseCursorType)
    ensures CursorTypeToByte(CursorTypeFromByte(v)) == v
    ensures !(t.Other? && t.value <= 2) ==> CursorTypeFromByte(CursorTypeToByte(t)) == t
  {
  }

  /// `MouseMode` and `MouseState`: two tables with the same values 1 to 3.
  datatype MouseMode = Primary | Secondary | Disabled | Other(value: u8)
  datatype MouseState = Primary | Secondary | Disabled | Other(value: u8)

  function ModeFromByte(v: u8): (t: MouseMode)
    ensures t.Other? <==> !(1 <= v <= 3)
    ensures t.Other? ==> t.value == v
  {
    match v
    case 1 => MouseMode.Primary
    case 2 => MouseMode.Secondary
    case 3 => MouseMode.Disabled
    case _ => MouseMode.Other(v)
  }

  function ModeToByte(t: MouseMode): u8
  {
    match t
    case Primary => 1
    case Secondary => 2
    case Disabled => 3
    case Other(v) => v
  }

  function StateFromByte(v: u8): (t: MouseState)
    ensures t.Other? <==> !(1 <= v <= 3)
    ensures t.Other? ==> t.value == v
  {
    match v
    case 1 => MouseState.Primary
    case 2 => MouseState.Secondary
    case 3 => MouseState.Disabled
    case _ => MouseState.Other(v)
  }

  function StateToByte(t: MouseState): u8
  {
    match t
    case Primary => 1
    case Secondary => 2
    case Disabled => 3
    case Other(v) => v
  }

  lemma ModeTable(v: u8, t: MouseMode)
    ensures ModeToByte(ModeFromByte(v)) == v
    ensures !(t.Other? && 1 <= t.value <= 3) ==> ModeFromByte(ModeToByte(t)) == t
  {
  }

  lemma StateTable(v: u8, t: MouseState)
    ensures StateToByte(StateFromByte(v)) == v
    ensures !(t.Other? && 1 <= t.value <= 3) ==> StateFromByte(StateToByte(t)) == t
  {
  }

  /// The mode a state's byte reads as, variant for variant.
  function ModeOfState(s: MouseState): MouseMode
  {
    match s
    case Primary => MouseMode.Primary
    case Secondary => MouseMode.Secondary
    case Disabled => MouseMode.Disabled
    case Other(v) => MouseMode.Other(v)
  }

  /// The mode and state tables agree: every byte reads as the same-named
  /// variant in both.
  lemma ModeAndStateShareValues(v: u8)
    ensures ModeFromByte(v) == ModeOfState(StateFromByte(v))
    ensures ModeToByte(ModeOfState(StateFromByte(v))) == StateToByte(StateFromByte(v))
  {
  }

  /// `MousePositionFlags::SAME` and `MouseCursorFlags::LARGE`, on `u8` words.
  const Same: Flags.Word := 0x01
  const Large: Flags.Word := 0x01

  /// Both flags are the lowest bit: a word has either exactly when it is odd.
  lemma SameAndLargeAreLowBit(v: u8)
    ensures Flags.Has(v, Same) <==> v % 2 == 1
    ensures Flags.Has(v, Large) <==> Flags.Has(v, Same)
  {
    Flags.HasLowBit(v);
  }
}
