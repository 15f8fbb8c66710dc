/// The state enumerations that error kinds refer to.
module States {

  /// `ConnectionState`: the steps of the client connection sequence, in order.
  datatype ConnectionState = Handshake | Negotiate | Authenticate | Associate | Capabilities | Channels | Final

  /// Position of a state in the sequence.
  function Index(s: ConnectionState): nat
  {
    match s
    case Handshake => 0
    case Negotiate => 1
    case Authenticate => 2
    case Associate => 3
    case Capabilities => 4
    case Channels => 5
    case Final => 6
  }

  function ConnectionStateName(s: ConnectionState): string
  {
    match s
    case Handshake => "Handshake"
    case Negotiate => "Negotiate"
    case Authenticate => "Authenticate"
    case Associate => "Associate"
    case Capabilities => "Capabilities"
    case Channels => "Channels"
    case Final => "Final"
  }

  /// `ShareeState`
  datatype ShareeState = Connection | Active | Final

  function ShareeStateName(s: ShareeState): string
  {
    match s
    case Connection => "Connection"
    case Active => "Active"
    case Final => "Final"
  }
}
