/// `NowStatus`: a `u32` packing a severity (bits 30-31), a status type
/// (bits 16-23) and a code (bits 0-15), kept together with the three parts
/// it was built from or parsed into.
///
/// The code type parameter of the source only converts to and from `u16`;
/// the model keeps the code as that `u16`, and gives the code enums the
/// tests use (`DisconnectStatusCode`, `AuthStatusCode`, `ExecStatusCode`)
/// their value tables.
module Status {
  import opened Wire
  import opened Errors
  import opened Derived
  import Serialization

  /// `SeverityLevel`; `OtherSeverity` is its fallback `Other(v)`.
  datatype SeverityLevel = Info | Warn | Error | Fatal | OtherSeverity(value: u8)

  function SeverityFromByte(v: u8): (s: SeverityLevel)
    ensures s.OtherSeverity? ==> s.value == v
  {
    match v
    case 0 => Info
    case 1 => Warn
    case 2 => Error
    case 3 => Fatal
    case _ => OtherSeverity(v)
  }

  function SeverityToByte(s: SeverityLevel): u8
  {
    match s
    case Info => 0
    case Warn => 1
    case Error => 2
    case Fatal => 3
    case OtherSeverity(v) => v
  }

  /// `StatusType`; `NoType` is its `None` and `OtherType` its fallback `Other(v)`.
  datatype StatusType =
    | NoType | Disconnect | Connect | Security | Handshake | Negotiate | Auth
    | Associate | Capabilities | Channel | Clipboard | FileTransfer | Exec
    | OtherType(value: u8)

  function TypeFromByte(v: u8): (t: StatusType)
    ensures t.OtherType? ==> t.value == v
  {
    match v
    case 0x00 => NoType
    case 0x01 => Disconnect
    case 0x02 => Connect
    case 0x03 => Security
    case 0x15 => Handshake
    case 0x16 => Negotiate
    case 0x17 => Auth
    case 0x18 => Associate
    case 0x19 => Capabilities
    case 0x1A => Channel
    case 0x81 => Clipboard
    case 0x82 => FileTransfer
    case 0x83 => Exec
    case _ => OtherType(v)
  }

  function TypeToByte(t: StatusType): u8
  {
    match t
    case NoType => 0x00
    case Disconnect => 0x01
    case Connect => 0x02
    case Security => 0x03
    case Handshake => 0x15
    case Negotiate => 0x16
    case Auth => 0x17
    case Associate => 0x18
    case Capabilities => 0x19
    case Channel => 0x1A
    case Clipboard => 0x81
    case FileTransfer => 0x82
    case Exec => 0x83
    case OtherType(v) => v
  }

  /// `Other(v)` stands only for a value outside the table.
  predicate CanonicalSeverity(s: SeverityLevel)
  {
    s.OtherSeverity? ==> SeverityFromByte(s.value).OtherSeverity?
  }

  predicate CanonicalType(t: StatusType)
  {
    t.OtherType? ==> TypeFromByte(t.value).OtherType?
  }

  /// Both tables are bijections between bytes and canonical variants.
  lemma SeverityTable(v: u8, s: SeverityLevel)
    ensures SeverityToByte(SeverityFromByte(v)) == v && CanonicalSeverity(SeverityFromByte(v))
    ensures CanonicalSeverity(s) ==> SeverityFromByte(SeverityToByte(s)) == s
  {
  }

  lemma TypeTable(v: u8, t: StatusType)
    ensures TypeToByte(TypeFromByte(v)) == v && CanonicalType(TypeFromByte(v))
    ensures CanonicalType(t) ==> TypeFromByte(TypeToByte(t)) == t
  {
  }

  /// `NowStatus`: the packed word and the three parts cached beside it.
  datatype NowStatus = NowStatus(repr: u32, severity: SeverityLevel, statusType: StatusType, code: u16)

  /// `NowStatusBuilder::build`: `severity << 30` (bits shifted past 32 are
  /// lost), plus `type << 16`, plus the code.
  function Build(severity: SeverityLevel, statusType: StatusType, code: u16): (s: NowStatus)
    ensures s.severity == severity && s.statusType == statusType && s.code == code
    ensures SeverityToByte(severity) <= 3 ==>
              s.repr == SeverityToByte(severity) * 0x4000_0000 + TypeToByte(statusType) * 0x1_0000 + code
  {
    var repr := (SeverityToByte(severity) * 0x4000_0000) % 0x1_0000_0000
                + TypeToByte(statusType) * 0x1_0000 + code;
    NowStatus(repr, severity, statusType, code)
  }

  /// `NowStatus::builder(code)`: severity `Info` and type `None` until set.
  function Builder(code: u16): (s: NowStatus)
  {
    Build(Info, NoType, code)
  }

  /// `Default`: `builder(0).build()`.
  const DefaultStatus: NowStatus := Builder(0)

  /// The error a failed integer conversion of `try_from` gives.
  function IntError(): ProtoError
  {
    FromIntError()
  }

  /// `try_from(u32)`: the severity from bits 30-31, the type from bits
  /// 16-23, the code from bits 0-15, each narrowed with a checked
  /// conversion, and `repr` kept verbatim.
  function TryFrom(repr: u32): (r: Result<NowStatus>)
    ensures r.Ok?
    ensures r.value.repr == repr
  {
    var sev := repr / 0x4000_0000;
    var ty := (repr % 0x100_0000) / 0x1_0000;
    var code := repr % 0x1_0000;
    if sev >= 0x100 || ty >= 0x100 || code >= 0x1_0000 then Err(IntError())
    else Ok(NowStatus(repr, SeverityFromByte(sev), TypeFromByte(ty), code))
  }

  /// `encode_into`: the packed word, little-endian.
  function Encode(s: NowStatus): (e: Bytes)
    ensures |e| == 4
  {
    U32(s.repr)
  }

  /// `decode_from`: a `u32` (its error passed on as it is), then `try_from`.
  function Decode(b: Bytes): (r: Result<Step<NowStatus>>)
    ensures r.Ok? <==> 4 <= |b|
    ensures r.Ok? ==> r.value.rest == b[4..] && Encode(r.value.value) == b[..4] && Consistent(r.value.value)
  {
    var repr :- Serialization.DecodeUInt(b, 4);
    Serialization.UIntEncodingOfDecoded(b, 4);
    Ok(Step(TryFrom(repr.value).value, repr.rest))
  }

  /// A status is what parsing its own word gives: the cache agrees with
  /// the word.
  predicate Consistent(s: NowStatus)
  {
    TryFrom(s.repr) == Ok(s)
  }

  /// Building from a severity of at most 3 and canonical parts, then
  /// parsing the word, gives the same status back.
  lemma BuildThenParse(severity: SeverityLevel, statusType: StatusType, code: u16)
    requires SeverityToByte(severity) <= 3 && CanonicalSeverity(severity) && CanonicalType(statusType)
    ensures Consistent(Build(severity, statusType, code))
  {
    var sev, ty := SeverityToByte(severity), TypeToByte(statusType);
    var repr := Build(severity, statusType, code).repr;
    assert repr == sev * 0x4000_0000 + (ty * 0x1_0000 + code);
    assert repr / 0x4000_0000 == sev;
    assert repr % 0x100_0000 == ty * 0x1_0000 + code;
    assert (ty * 0x1_0000 + code) / 0x1_0000 == ty;
    assert repr % 0x1_0000 == code;
    SeverityTable(sev, severity);
    TypeTable(ty, statusType);
  }

  /// Parsing ignores bits 24-29: two words that differ only there give the
  /// same severity, type and code, but the words stay distinct.
  lemma MiddleBitsIgnored(repr: u32, bits: nat)
    requires bits < 64 && repr % 0x4000_0000 < 0x100_0000
    ensures repr + bits * 0x100_0000 < 0x1_0000_0000
    ensures var a, c := TryFrom(repr).value, TryFrom(repr + bits * 0x100_0000).value;
            a.severity == c.severity && a.statusType == c.statusType && a.code == c.code
            && (bits > 0 ==> a != c)
  {
    var r2 := repr + bits * 0x100_0000;
    assert r2 / 0x4000_0000 == repr / 0x4000_0000;
    assert r2 % 0x100_0000 == repr % 0x100_0000;
    assert r2 % 0x1_0000 == repr % 0x1_0000;
  }

  /// A severity of 4 or more does not survive the shift: `Other(4)` builds
  /// the same word as `Info`.
  lemma WideSeverityLost()
    ensures Build(OtherSeverity(4), NoType, 0).repr == Build(Info, NoType, 0).repr == 0
    ensures !Consistent(Build(OtherSeverity(4), NoType, 0))
  {
    var w, info := Build(OtherSeverity(4), NoType, 0), Build(Info, NoType, 0);
    assert (4 * 0x4000_0000) % 0x1_0000_0000 == 0;
    assert w.repr == 0 == info.repr;
    BuildThenParse(Info, NoType, 0);
    assert TryFrom(0) == Ok(info);
  }

  /// Decoding an encoded consistent status gives it back.
  lemma RoundTrip(s: NowStatus, rest: Bytes)
    requires Consistent(s)
    ensures Decode(Encode(s) + rest) == Ok(Step(s, rest))
  {
    Pow256Widths();
    Serialization.UIntRoundTrip(s.repr, 4, rest);
  }

  /// The default status is Info/None/0 with word 0, and is consistent.
  lemma DefaultIsZero()
    ensures DefaultStatus == NowStatus(0, Info, NoType, 0) && Consistent(DefaultStatus)
  {
    BuildThenParse(Info, NoType, 0);
  }

  /// `0x8017_ffff` is Error/Auth/Failure both ways, and `SeverityLevel::from(3)`
  /// is `Fatal`.
  lemma AuthFailureVector()
    ensures Build(Error, Auth, AuthToU16(AuthFailure)).repr == 0x8017_ffff
    ensures var s := TryFrom(0x8017_ffff).value;
            s.severity == Error && s.statusType == Auth && AuthFromU16(s.code) == AuthFailure
    ensures SeverityFromByte(3) == Fatal
  {
  }

  // ---------------------------------------------------------------- code enums

  /// `DisconnectStatusCode`
  datatype DisconnectCode =
    | DisconnectSuccess | DisconnectFailure | ByLocalUser | ByRemoteUser | ByLocalSystem
    | ByRemoteSystem | SystemShutdown | SystemReboot | LocalLogoff | RemoteLogoff
    | ByOtherConnection | LogonTimeout | LogonCancelled | IdleTimeout | AlreadyActive
    | LicenseRequired | DisconnectOther(value: u16)

  function DisconnectFromU16(v: u16): (c: DisconnectCode)
    ensures c.DisconnectOther? ==> c.value == v
  {
    match v
    case 0x0000 => DisconnectSuccess
    case 0xFFFF => DisconnectFailure
    case 1 => ByLocalUser
    case 2 => ByRemoteUser
    case 3 => ByLocalSystem
    case 4 => ByRemoteSystem
    case 5 => SystemShutdown
    case 6 => SystemReboot
    case 7 => LocalLogoff
    case 8 => RemoteLogoff
    case 9 => ByOtherConnection
    case 10 => LogonTimeout
    case 11 => LogonCancelled
    case 12 => IdleTimeout
    case 13 => AlreadyActive
    case 14 => LicenseRequired
    case _ => DisconnectOther(v)
  }

  function DisconnectToU16(c: DisconnectCode): u16
  {
    match c
    case DisconnectSuccess => 0x0000
    case DisconnectFailure => 0xFFFF
    case ByLocalUser => 1
    case ByRemoteUser => 2
    case ByLocalSystem => 3
    case ByRemoteSystem => 4
    case SystemShutdown => 5
    case SystemReboot => 6
    case LocalLogoff => 7
    case RemoteLogoff => 8
    case ByOtherConnection => 9
    case LogonTimeout => 10
    case LogonCancelled => 11
    case IdleTimeout => 12
    case AlreadyActive => 13
    case LicenseRequired => 14
    case DisconnectOther(v) => v
  }

  lemma DisconnectTable(v: u16, c: DisconnectCode)
    ensures DisconnectToU16(DisconnectFromU16(v)) == v
    ensures (c.DisconnectOther? ==> DisconnectFromU16(c.value).DisconnectOther?) ==>
              DisconnectFromU16(DisconnectToU16(c)) == c
  {
  }

  /// `HandshakeStatusCode`
  datatype HandshakeCode = HandshakeSuccess | HandshakeFailure | Incompatible | HandshakeOther(value: u16)

  function HandshakeFromU16(v: u16): (c: HandshakeCode)
    ensures c.HandshakeOther? ==> c.value == v
  {
    match v
    case 0x0000 => HandshakeSuccess
    case 0xFFFF => HandshakeFailure
    case 1 => Incompatible
    case _ => HandshakeOther(v)
  }

  function HandshakeToU16(c: HandshakeCode): u16
  {
    match c
    case HandshakeSuccess => 0x0000
    case HandshakeFailure => 0xFFFF
    case Incompatible => 1
    case HandshakeOther(v) => v
  }

  lemma HandshakeTable(v: u16, c: HandshakeCode)
    ensures HandshakeToU16(HandshakeFromU16(v)) == v
    ensures (c.HandshakeOther? ==> HandshakeFromU16(c.value).HandshakeOther?) ==>
              HandshakeFromU16(HandshakeToU16(c)) == c
  {
  }

  /// `AuthStatusCode`
  datatype AuthCode =
    | AuthSuccess | AuthFailure | Timeout | Cancelled | AccountDisabled | AccountExpired
    | AccountRestriction | InvalidLogonHours | InvalidWorkstation | PasswordExpired
    | PasswordMustChange | AuthOther(value: u16)

  function AuthFromU16(v: u16): (c: AuthCode)
    ensures c.AuthOther? ==> c.value == v
  {
    match v
    case 0x0000 => AuthSuccess
    case 0xFFFF => AuthFailure
    case 1 => Timeout
    case 2 => Cancelled
    case 3 => AccountDisabled
    case 4 => AccountExpired
    case 5 => AccountRestriction
    case 6 => InvalidLogonHours
    case 7 => InvalidWorkstation
    case 8 => PasswordExpired
    case 9 => PasswordMustChange
    case _ => AuthOther(v)
  }

  function AuthToU16(c: AuthCode): u16
  {
    match c
    case AuthSuccess => 0x0000
    case AuthFailure => 0xFFFF
    case Timeout => 1
    case Cancelled => 2
    case AccountDisabled => 3
    case AccountExpired => 4
    case AccountRestriction => 5
    case InvalidLogonHours => 6
    case InvalidWorkstation => 7
    case PasswordExpired => 8
    case PasswordMustChange => 9
    case AuthOther(v) => v
  }

  lemma AuthTable(v: u16, c: AuthCode)
    ensures AuthToU16(AuthFromU16(v)) == v
    ensures (c.AuthOther? ==> AuthFromU16(c.value).AuthOther?) ==> AuthFromU16(AuthToU16(c)) == c
  {
  }

  /// `AssociateStatusCode`
  datatype AssociateCode = AssociateSuccess | AssociateFailure | AssociateOther(value: u16)

  function AssociateFromU16(v: u16): (c: AssociateCode)
    ensures c.AssociateOther? ==> c.value == v
  {
    match v
    case 0x0000 => AssociateSuccess
    case 0xFFFF => AssociateFailure
    case _ => AssociateOther(v)
  }

  function AssociateToU16(c: AssociateCode): u16
  {
    match c
    case AssociateSuccess => 0x0000
    case AssociateFailure => 0xFFFF
    case AssociateOther(v) => v
  }

  lemma AssociateTable(v: u16, c: AssociateCode)
    ensures AssociateToU16(AssociateFromU16(v)) == v
    ensures (c.AssociateOther? ==> AssociateFromU16(c.value).AssociateOther?) ==>
              AssociateFromU16(AssociateToU16(c)) == c
  {
  }

  /// `ExecStatusCode`
  datatype ExecCode = ExecSuccess | FileNotFound | InvalidExecutable | AccessDenied | ExecFailure | ExecOther(value: u16)

  function ExecFromU16(v: u16): (c: ExecCode)
    ensures c.ExecOther? ==> c.value == v
  {
    match v
    case 0x0000 => ExecSuccess
    case 0x0001 => FileNotFound
    case 0x0002 => InvalidExecutable
    case 0x0003 => AccessDenied
    case 0xFFFF => ExecFailure
    case _ => ExecOther(v)
  }

  function ExecToU16(c: ExecCode): u16
  {
    match c
    case ExecSuccess => 0x0000
    case FileNotFound => 0x0001
    case InvalidExecutable => 0x0002
    case AccessDenied => 0x0003
    case ExecFailure => 0xFFFF
    case ExecOther(v) => v
  }

  lemma ExecTable(v: u16, c: ExecCode)
    ensures ExecToU16(ExecFromU16(v)) == v
    ensures (c.ExecOther? ==> ExecFromU16(c.value).ExecOther?) ==> ExecFromU16(ExecToU16(c)) == c
  {
  }

  /// An undeclared exec code is kept as `Other`.
  lemma ExecUnknownCode()
    ensures ExecFromU16(327) == ExecOther(327)
  {
  }
}
