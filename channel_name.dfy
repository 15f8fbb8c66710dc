/// `ChannelName`: the well-known virtual channel names and any other name,
/// with the string mapping used on the wire and the order `derive(Ord)` gives.
module ChannelNames {
  import opened Wire
  import opened Text

  datatype ChannelName = Unknown(name: Bytes) | Clipboard | FileTransfer | Exec | Chat | Tunnel

  /// "NowClipboard"
  const ClipboardStr: Bytes := [0x4E, 0x6F, 0x77, 0x43, 0x6C, 0x69, 0x70, 0x62, 0x6F, 0x61, 0x72, 0x64]
  /// "NowFileTransfer"
  const FileTransferStr: Bytes := [0x4E, 0x6F, 0x77, 0x46, 0x69, 0x6C, 0x65, 0x54, 0x72, 0x61, 0x6E, 0x73, 0x66, 0x65, 0x72]
  /// "NowExec"
  const ExecStr: Bytes := [0x4E, 0x6F, 0x77, 0x45, 0x78, 0x65, 0x63]
  /// "NowChat"
  const ChatStr: Bytes := [0x4E, 0x6F, 0x77, 0x43, 0x68, 0x61, 0x74]
  /// "NowTunnel"
  const TunnelStr: Bytes := [0x4E, 0x6F, 0x77, 0x54, 0x75, 0x6E, 0x6E, 0x65, 0x6C]

  /// `as_str`
  function AsStr(n: ChannelName): Bytes
  {
    match n
    case Unknown(name) => name
    case Clipboard => ClipboardStr
    case FileTransfer => FileTransferStr
    case Exec => ExecStr
    case Chat => ChatStr
    case Tunnel => TunnelStr
  }

  /// The name a decoded string stands for: the five fixed strings map to
  /// their variants, anything else to `Unknown`.
  function FromStr(s: Bytes): (n: ChannelName)
    ensures AsStr(n) == s && Canonical(n)
  {
    if s == ClipboardStr then Clipboard
    else if s == FileTransferStr then FileTransfer
    else if s == ExecStr then Exec
    else if s == ChatStr then Chat
    else if s == TunnelStr then Tunnel
    else Unknown(s)
  }

  predicate IsWellKnown(s: Bytes)
  {
    s == ClipboardStr || s == FileTransferStr || s == ExecStr || s == ChatStr || s == TunnelStr
  }

  /// `Unknown` never spells one of the well-known names.
  predicate Canonical(n: ChannelName)
  {
    n.Unknown? ==> !IsWellKnown(n.name)
  }

  lemma FromStrOfAsStr(n: ChannelName)
    ensures FromStr(AsStr(n)) == n <==> Canonical(n)
  {
  }

  lemma UnknownChatDecodesAsChat()
    ensures FromStr(AsStr(Unknown(ChatStr))) == Chat
  {
  }

  /// Rank of the variant in declaration order, the first key of `derive(Ord)`.
  function Rank(n: ChannelName): nat
  {
    match n
    case Unknown(_) => 0
    case Clipboard => 1
    case FileTransfer => 2
    case Exec => 3
    case Chat => 4
    case Tunnel => 5
  }

  /// Byte-wise lexicographic order of strings, as `str` compares.
  predicate StrLess(a: Bytes, b: Bytes)
    decreases |a|
  {
    if a == [] then b != []
    else if b == [] then false
    else a[0] < b[0] || (a[0] == b[0] && StrLess(a[1..], b[1..]))
  }

  lemma {:induction false} StrLessIrreflexive(a: Bytes)
    ensures !StrLess(a, a)
    decreases |a|
  {
    if a != [] { StrLessIrreflexive(a[1..]); }
  }

  lemma {:induction false} StrLessTransitive(a: Bytes, b: Bytes, c: Bytes)
    requires StrLess(a, b) && StrLess(b, c)
    ensures StrLess(a, c)
    decreases |a|
  {
    if a != [] && b != [] && c != [] && a[0] == b[0] && b[0] == c[0] {
      StrLessTransitive(a[1..], b[1..], c[1..]);
    }
  }

  lemma {:induction false} StrLessTotal(a: Bytes, b: Bytes)
    requires a != b
    ensures StrLess(a, b) || StrLess(b, a)
    decreases |a|
  {
    if a != [] && b != [] && a[0] == b[0] {
      assert a == [a[0]] + a[1..] && b == [b[0]] + b[1..];
      StrLessTotal(a[1..], b[1..]);
    }
  }

  /// `derive(Ord)` on `ChannelName`: by variant, then `Unknown` names by string.
  predicate Less(a: ChannelName, b: ChannelName)
  {
    Rank(a) < Rank(b) || (a.Unknown? && b.Unknown? && StrLess(a.name, b.name))
  }

  lemma LessIsStrictTotalOrder(a: ChannelName, b: ChannelName, c: ChannelName)
    ensures !Less(a, a)
    ensures Less(a, b) && Less(b, c) ==> Less(a, c)
    ensures a != b ==> Less(a, b) || Less(b, a)
    ensures Less(a, b) ==> !Less(b, a)
  {
    if Less(a, b) && Less(b, a) && a.Unknown? && b.Unknown? {
      StrLessTransitive(a.name, b.name, a.name);
    }
    if a.Unknown? { StrLessIrreflexive(a.name); }
    if Less(a, b) && Less(b, c) && a.Unknown? && b.Unknown? && c.Unknown? {
      StrLessTransitive(a.name, b.name, c.name);
    }
    if a != b && a.Unknown? && b.Unknown? { StrLessTotal(a.name, b.name); }
  }

  /// The `{:?}` rendering, for error display; an `Unknown` name is shown
  /// without its text.
  function DebugName(n: ChannelName): string
  {
    match n
    case Unknown(_) => "Unknown(..)"
    case Clipboard => "Clipboard"
    case FileTransfer => "FileTransfer"
    case Exec => "Exec"
    case Chat => "Chat"
    case Tunnel => "Tunnel"
  }
}
