/// `MessageType`, the one-byte tag of a message body, and `BodyType`, what a
/// packet header says its body is.
module MessageTypes {
  import opened Wire
  import opened Text

  datatype MessageType =
    | Status | Handshake | Negotiate | Authenticate | Associate | Capabilities
    | Channel | Activate | Terminate | Surface | Update | Input | Mouse
    | Network | Access | Desktop | System | Session | Sharing
    | Other(value: u8)

  /// `From<u8> for MessageType`: the declared value table, anything else `Other`.
  function FromByte(v: u8): (t: MessageType)
    ensures t.Other? ==> t.value == v
  {
    match v
    case 0x00 => Status
    case 0x01 => Handshake
    case 0x02 => Negotiate
    case 0x03 => Authenticate
    case 0x04 => Associate
    case 0x05 => Capabilities
    case 0x06 => Channel
    case 0x07 => Activate
    case 0x08 => Terminate
    case 0x41 => Surface
    case 0x42 => Update
    case 0x43 => Input
    case 0x44 => Mouse
    case 0x45 => Network
    case 0x46 => Access
    case 0x47 => Desktop
    case 0x48 => System
    case 0x49 => Session
    case 0x50 => Sharing
    case _ => Other(v)
  }

  /// `From<MessageType> for u8`.
  function ToByte(t: MessageType): u8
  {
    match t
    case Status => 0x00
    case Handshake => 0x01
    case Negotiate => 0x02
    case Authenticate => 0x03
    case Associate => 0x04
    case Capabilities => 0x05
    case Channel => 0x06
    case Activate => 0x07
    case Terminate => 0x08
    case Surface => 0x41
    case Update => 0x42
    case Input => 0x43
    case Mouse => 0x44
    case Network => 0x45
    case Access => 0x46
    case Desktop => 0x47
    case System => 0x48
    case Session => 0x49
    case Sharing => 0x50
    case Other(v) => v
  }

  /// `Other(v)` only ever stands for a value outside the table.
  predicate Canonical(t: MessageType)
  {
    t.Other? ==> FromByte(t.value).Other?
  }

  lemma ByteRoundTrip(v: u8)
    ensures ToByte(FromByte(v)) == v && Canonical(FromByte(v))
  {
  }

  lemma TypeRoundTrip(t: MessageType)
    requires Canonical(t)
    ensures FromByte(ToByte(t)) == t
  {
  }

  /// The `{:?}` rendering of a message type.
  function DebugName(t: MessageType): string
  {
    match t
    case Status => "Status"
    case Handshake => "Handshake"
    case Negotiate => "Negotiate"
    case Authenticate => "Authenticate"
    case Associate => "Associate"
    case Capabilities => "Capabilities"
    case Channel => "Channel"
    case Activate => "Activate"
    case Terminate => "Terminate"
    case Surface => "Surface"
    case Update => "Update"
    case Input => "Input"
    case Mouse => "Mouse"
    case Network => "Network"
    case Access => "Access"
    case Desktop => "Desktop"
    case System => "System"
    case Session => "Session"
    case Sharing => "Sharing"
    case Other(v) => "Other(" + NatToString(v) + ")"
  }

  /// What a header says its body is: a message of some type, or the payload
  /// of the virtual channel with the given id.
  datatype BodyType = Message(ty: MessageType) | VirtualChannel(id: u8)

  /// `Encode for BodyType`: always one byte, the type value or the channel id.
  function EncodeBodyType(t: BodyType): (e: Bytes)
    ensures |e| == 1
  {
    match t
    case Message(ty) => [ToByte(ty)]
    case VirtualChannel(id) => [id]
  }
}
