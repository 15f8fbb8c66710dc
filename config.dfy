/// The command-line configuration of the client (`wayk_cli_client/src/config.rs`):
/// parsing of the authentication method and of the chat preferences, and the
/// fixed lists the client announces.
module Config {
  import opened Wire
  import Authenticate
  import ChannelNames
  import Capsets
  import Capabilities
  import Mouse

  // ---------------------------------------------------------------- string helpers

  /// `char::is_whitespace`: the Unicode `White_Space` property.
  predicate IsWhitespace(c: char)
  {
    || c == ' '
    || ('\t' <= c <= '\r')
    || c == '\U{85}' || c == '\U{A0}' || c == '\U{1680}'
    || ('\U{2000}' <= c <= '\U{200A}')
    || c == '\U{2028}' || c == '\U{2029}' || c == '\U{202F}' || c == '\U{205F}' || c == '\U{3000}'
  }

  predicate AllWhitespace(s: string)
  {
    forall i :: 0 <= i < |s| ==> IsWhitespace(s[i])
  }

  /// Neither end of `s` is whitespace.
  predicate Trimmed(s: string)
  {
    s == [] || (!IsWhitespace(s[0]) && !IsWhitespace(s[|s| - 1]))
  }

  /// `str::trim_start`
  function TrimStart(s: string): (r: string)
    ensures |r| <= |s| && r == s[|s| - |r|..]
    ensures forall i | 0 <= i < |s| - |r| :: IsWhitespace(s[i])
    ensures r == [] || !IsWhitespace(r[0])
  {
    if s != [] && IsWhitespace(s[0]) then TrimStart(s[1..]) else s
  }

  /// `str::trim_end`
  function TrimEnd(s: string): (r: string)
    ensures |r| <= |s| && r == s[..|r|]
    ensures forall i | |r| <= i < |s| :: IsWhitespace(s[i])
    ensures r == [] || !IsWhitespace(r[|r| - 1])
  {
    if s != [] && IsWhitespace(s[|s| - 1]) then TrimEnd(s[..|s| - 1]) else s
  }

  /// `str::trim`: `s` without its leading and trailing whitespace.
  function Trim(s: string): (r: string)
    ensures Trimmed(r) && |r| <= |s|
    ensures r == [] <==> AllWhitespace(s)
  {
    var e := TrimEnd(s);
    var r := TrimStart(e);
    TrimParts(s, e, r);
    r
  }

  /// What trimming the end and then the start leaves of `s`.
  lemma TrimParts(s: string, e: string, r: string)
    requires e == TrimEnd(s) && r == TrimStart(e)
    ensures Trimmed(r) && |r| <= |s|
    ensures r == [] <==> AllWhitespace(s)
  {
    if r != [] {
      TrimKept(s, e, r);
    } else {
      TrimEmpty(s, e);
    }
  }

  lemma TrimKept(s: string, e: string, r: string)
    requires e == TrimEnd(s) && r == TrimStart(e) && r != []
    ensures Trimmed(r) && !AllWhitespace(s)
  {
    var k := |e| - |r|;
    assert r[|r| - 1] == e[|e| - 1] && r[0] == e[k];
    assert e[k] == s[k];
  }

  lemma TrimEmpty(s: string, e: string)
    requires e == TrimEnd(s) && TrimStart(e) == []
    ensures AllWhitespace(s)
  {
    forall i | 0 <= i < |s|
      ensures IsWhitespace(s[i])
    {
      if i < |e| {
        assert IsWhitespace(e[i]) && e[i] == s[i];
      }
    }
  }

  /// Whitespace around `s` makes no difference to its trimmed form.
  lemma {:induction false} TrimPadding(w1: string, s: string, w2: string)
    requires AllWhitespace(w1) && AllWhitespace(w2)
    ensures Trim(w1 + s + w2) == Trim(s)
  {
    TrimEndPadding(w1 + s, w2);
    assert w1 + s + w2 == (w1 + s) + w2;
    TrimStartPadding(w1, TrimEnd(s));
    assert TrimEnd(w1 + s) == w1 + TrimEnd(s) || (AllWhitespace(s) && TrimStart(TrimEnd(w1 + s)) == []) by {
      TrimEndPrefix(w1, s);
    }
    if AllWhitespace(s) {
      assert AllWhitespace(TrimEnd(w1 + s)) by {
        TrimEndPrefix(w1, s);
      }
      TrimStartAllWhitespace(TrimEnd(w1 + s));
      TrimStartAllWhitespace(TrimEnd(s));
    }
  }

  lemma {:induction false} TrimEndPadding(s: string, w: string)
    requires AllWhitespace(w)
    ensures TrimEnd(s + w) == TrimEnd(s)
    decreases |w|
  {
    if w != [] {
      assert (s + w)[..|s + w| - 1] == s + w[..|w| - 1];
      TrimEndPadding(s, w[..|w| - 1]);
    } else {
      assert s + w == s;
    }
  }

  lemma {:induction false} TrimStartPadding(w: string, s: string)
    requires AllWhitespace(w)
    ensures TrimStart(w + s) == TrimStart(s)
    decreases |w|
  {
    if w != [] {
      assert (w + s)[1..] == w[1..] + s;
      TrimStartPadding(w[1..], s);
    } else {
      assert w + s == s;
    }
  }

  lemma {:induction false} TrimStartAllWhitespace(s: string)
    requires AllWhitespace(s)
    ensures TrimStart(s) == []
  {
  }

  /// Trimming the end of `w + s` trims the end of `s`, or, when `s` is all
  /// whitespace, leaves only part of `w`.
  lemma {:induction false} TrimEndPrefix(w: string, s: string)
    requires AllWhitespace(w)
    ensures !AllWhitespace(s) ==> TrimEnd(w + s) == w + TrimEnd(s)
    ensures AllWhitespace(s) ==> AllWhitespace(TrimEnd(w + s))
    decreases |s|
  {
    if s != [] && IsWhitespace(s[|s| - 1]) {
      assert (w + s)[..|w + s| - 1] == w + s[..|s| - 1];
      TrimEndPrefix(w, s[..|s| - 1]);
      if !AllWhitespace(s) {
        assert !AllWhitespace(s[..|s| - 1]);
      }
    } else if s == [] {
      assert w + s == w;
    } else {
      assert !AllWhitespace(s);
    }
  }

  /// `c` does not occur in `s`.
  predicate Lacks(s: string, c: char)
  {
    forall i :: 0 <= i < |s| ==> s[i] != c
  }

  /// Trimming removes characters and adds none.
  lemma TrimLacks(s: string, c: char)
    requires Lacks(s, c)
    ensures Lacks(Trim(s), c)
  {
    var e := TrimEnd(s);
    SliceLacks(s, c, 0, |e|);
    var r := TrimStart(e);
    SliceLacks(e, c, |e| - |r|, |e|);
  }

  lemma SliceLacks(s: string, c: char, from: nat, to: nat)
    requires Lacks(s, c) && from <= to <= |s|
    ensures Lacks(s[from..to], c)
  {
    forall i | 0 <= i < to - from ensures s[from..to][i] != c {
      assert s[from..to][i] == s[from + i];
    }
  }

  /// `str::find` of one character: the first position of `c`.
  function Find(s: string, c: char): (r: Option<nat>)
    ensures r.Some? ==> r.value < |s| && s[r.value] == c && Lacks(s[..r.value], c)
    ensures r.None? <==> Lacks(s, c)
  {
    if s == [] then None
    else if s[0] == c then Some(0)
    else
      match Find(s[1..], c)
      case None => None
      case Some(i) =>
        assert s[1..][..i] == s[1..i + 1];
        Some(i + 1)
  }

  /// `str::split` on one character: the pieces between the separators.
  function Split(s: string, c: char): (r: seq<string>)
    ensures |r| >= 1
    ensures forall k :: 0 <= k < |r| ==> Lacks(r[k], c)
    ensures |r| == 1 <==> Lacks(s, c)
    decreases |s|
  {
    match Find(s, c)
    case None => [s]
    case Some(i) => [s[..i]] + Split(s[i + 1..], c)
  }

  /// The pieces joined back with the separator.
  function Join(parts: seq<string>, c: char): string
  {
    if |parts| <= 1 then (if parts == [] then [] else parts[0])
    else parts[0] + [c] + Join(parts[1..], c)
  }

  /// Splitting loses nothing: joining the pieces gives the input back.
  lemma {:induction false} JoinSplit(s: string, c: char)
    ensures Join(Split(s, c), c) == s
    decreases |s|
  {
    match Find(s, c)
    case None =>
    case Some(i) =>
      var rest := Split(s[i + 1..], c);
      JoinSplit(s[i + 1..], c);
      assert Split(s, c) == [s[..i]] + rest;
      AroundSeparator(s, i, c);
  }

  /// The first piece of a split is everything before the first separator,
  /// and the second what lies between the first and the second.
  lemma {:induction false} SplitHead(s: string, c: char)
    ensures |Split(s, c)| == 1 ==> Split(s, c)[0] == s
    ensures |Split(s, c)| > 1 ==> Split(s, c)[0] + [c] + Split(s, c)[1] <= s
  {
    match Find(s, c)
    case None =>
    case Some(i) =>
      var tail := s[i + 1..];
      var rest := Split(tail, c);
      assert Split(s, c) == [s[..i]] + rest;
      SplitFirst(tail, c);
      AroundSeparator(s, i, c);
      PrefixAppend(s[..i] + [c], rest[0], tail);
  }

  /// A string is what precedes index `i`, the character there, and what follows.
  lemma AroundSeparator(s: string, i: nat, c: char)
    requires i < |s| && s[i] == c
    ensures s == s[..i] + [c] + s[i + 1..]
  {
  }

  /// The first piece of a split starts the input.
  lemma SplitFirst(s: string, c: char)
    ensures Split(s, c)[0] <= s
  {
  }

  lemma PrefixAppend(p: string, a: string, b: string)
    requires a <= b
    ensures p + a <= p + b
  {
    assert (p + b)[..|p + a|] == p + b[..|a|];
  }

  predicate IsAsciiUpper(c: char) { 'A' <= c <= 'Z' }

  /// `str::to_lowercase` on the ASCII letters.
  function LowerAscii(s: string): (r: string)
    ensures |r| == |s|
    ensures forall i :: 0 <= i < |s| ==> r[i] == (if IsAsciiUpper(s[i]) then (s[i] as int + 32) as char else s[i])
  {
    if s == [] then []
    else [if IsAsciiUpper(s[0]) then (s[0] as int + 32) as char else s[0]] + LowerAscii(s[1..])
  }

  // ---------------------------------------------------------------- authentication method

  /// `PFPConfig`, `AuthConfig`
  datatype AuthConfig = PfpConfig(friendlyName: string, friendlyText: string) | NoAuth

  /// A parse result: the value, or the error text the parser returns.
  datatype Parsed<T> = Parsed(value: T) | Invalid(message: string)

  /// `AuthConfig::available_methods`
  const AvailableMethods := "PFP, None"

  /// `auth_type`
  function AuthTypeOf(c: AuthConfig): (t: Authenticate.AuthType)
    ensures t == Authenticate.Pfp <==> c.PfpConfig?
    ensures t == Authenticate.AuthNone <==> c.NoAuth?
  {
    match c
    case PfpConfig(_, _) => Authenticate.Pfp
    case NoAuth => Authenticate.AuthNone
  }

  /// The method name: the trimmed text before the first ':' of the trimmed
  /// input, or all of it.
  function MethodName(s: string): (r: string)
  {
    var t := Trim(s);
    match Find(t, ':')
    case Some(p) => Trim(t[..p])
    case None => t
  }

  /// What follows the first ':', untrimmed, or nothing.
  function MethodBody(s: string): (r: string)
  {
    var t := Trim(s);
    match Find(t, ':')
    case Some(p) => t[p + 1..]
    case None => ""
  }

  /// `AuthConfig::from_str`
  function ParseAuthConfig(s: string): (r: Parsed<AuthConfig>)
    ensures r.Parsed? <==>
      || LowerAscii(MethodName(s)) == "none"
      || (LowerAscii(MethodName(s)) == "pfp" && |Split(MethodBody(s), ',')| >= 2)
    ensures r.Parsed? && r.value.NoAuth? <==> LowerAscii(MethodName(s)) == "none"
    ensures r.Parsed? && r.value.PfpConfig? ==>
      && Trimmed(r.value.friendlyName) && Lacks(r.value.friendlyName, ',')
      && Trimmed(r.value.friendlyText) && Lacks(r.value.friendlyText, ',')
    ensures r.Invalid? && LowerAscii(MethodName(s)) != "pfp" ==>
      r.message == "Unknown authentication method `" + LowerAscii(MethodName(s)) + "`. Available methods: " + AvailableMethods
  {
    var name := LowerAscii(MethodName(s));
    if name == "pfp" then
      var args := Split(MethodBody(s), ',');
      if |args| < 2 then
        Invalid("Invalid PFP arguments in `" + Trim(s) + "`. Syntax is `PFP:<friendly_name>,<friendly_text>`")
      else
        TrimLacks(args[0], ',');
        TrimLacks(args[1], ',');
        Parsed(PfpConfig(Trim(args[0]), Trim(args[1])))
    else if name == "none" then Parsed(NoAuth)
    else Invalid("Unknown authentication method `" + name + "`. Available methods: " + AvailableMethods)
  }

  /// The parsed name and text are the trimmed first two pieces of the body;
  /// later pieces are dropped.
  lemma PfpFields(s: string)
    requires ParseAuthConfig(s).Parsed? && ParseAuthConfig(s).value.PfpConfig?
    ensures ParseAuthConfig(s).value.friendlyName == Trim(Split(MethodBody(s), ',')[0])
    ensures ParseAuthConfig(s).value.friendlyText == Trim(Split(MethodBody(s), ',')[1])
  {
  }

  /// Whitespace around the method name, the name, the text and the whole
  /// input makes no difference; the method name's case makes none either.
  lemma PfpSpacing(w0: string, m: string, w1: string, w2: string, name: string, w3: string,
                   w4: string, text: string, w5: string)
    requires AllWhitespace(w0) && AllWhitespace(w1) && AllWhitespace(w2) && AllWhitespace(w3)
    requires AllWhitespace(w4) && AllWhitespace(w5)
    requires Trimmed(m) && Lacks(m, ':') && LowerAscii(m) == "pfp"
    requires Trimmed(name) && Lacks(name, ',')
    requires Trimmed(text) && text != [] && Lacks(text, ',')
    ensures ParseAuthConfig(w0 + ((m + w1) + ":" + ((w2 + name + w3) + "," + (w4 + text))) + w5)
      == Parsed(PfpConfig(name, text))
  {
    var body := (w2 + name + w3) + "," + (w4 + text);
    var t := (m + w1) + ":" + body;
    OuterTrim(w0, m, w1, w2 + name + w3, w4, text, w5);
    HeadPiece(t, m, w1, body);
    BodyAfterHead(m + w1, w2, name, w3, w4, text);
    PfpParses(w0 + t + w5, t, |m + w1|, w2 + name + w3, w4 + text);
  }

  /// The whole input trims to what lies between the outer whitespace.
  lemma OuterTrim(w0: string, m: string, w1: string, first: string, w4: string, text: string, w5: string)
    requires AllWhitespace(w0) && AllWhitespace(w5) && Trimmed(m) && m != [] && Trimmed(text) && text != []
    ensures var t := (m + w1) + ":" + (first + "," + (w4 + text));
      Trim(w0 + t + w5) == t
  {
    var t := (m + w1) + ":" + (first + "," + (w4 + text));
    assert t[0] == m[0];
    assert t[|t| - 1] == text[|text| - 1];
    TrimmedPadded(w0, t, w5);
  }

  /// After the head and its separator come the two pieces of the body.
  lemma BodyAfterHead(h: string, w2: string, name: string, w3: string, w4: string, text: string)
    requires AllWhitespace(w2) && AllWhitespace(w3) && AllWhitespace(w4)
    requires Trimmed(name) && Lacks(name, ',')
    requires Trimmed(text) && Lacks(text, ',')
    ensures var t := h + ":" + ((w2 + name + w3) + "," + (w4 + text));
      Split(t[|h| + 1..], ',') == [w2 + name + w3, w4 + text]
    ensures Trim(w2 + name + w3) == name && Trim(w4 + text) == text
  {
    BodyPieces(w2, name, w3, w4, text);
    AfterSeparator(h, (w2 + name + w3) + "," + (w4 + text));
  }

  lemma AfterSeparator(h: string, body: string)
    ensures (h + ":" + body)[|h| + 1..] == body
  {
  }

  lemma HeadPiece(t: string, m: string, w: string, body: string)
    requires AllWhitespace(w) && Trimmed(m) && Lacks(m, ':')
    requires t == (m + w) + ":" + body
    ensures Find(t, ':') == Some(|m + w|) && Trim(t[..|m + w|]) == m
  {
    assert Lacks(m + w, ':');
    assert t[..|m + w|] == [] + m + w;
    FindAt(t, ':', |m + w|);
    TrimmedPadded([], m, w);
  }

  lemma BodyPieces(w2: string, name: string, w3: string, w4: string, text: string)
    requires AllWhitespace(w2) && AllWhitespace(w3) && AllWhitespace(w4)
    requires Trimmed(name) && Lacks(name, ',')
    requires Trimmed(text) && Lacks(text, ',')
    ensures Split((w2 + name + w3) + "," + (w4 + text), ',') == [w2 + name + w3, w4 + text]
    ensures Trim(w2 + name + w3) == name && Trim(w4 + text) == text
  {
    assert Lacks(w2 + name + w3, ',') && Lacks(w4 + text, ',');
    SplitTwo(w2 + name + w3, w4 + text, ',');
    TrimmedPadded(w2, name, w3);
    TrimmedPadded(w4, text, []);
    assert w4 + text + [] == w4 + text;
  }

  /// What `ParseAuthConfig` makes of an input whose pieces are known.
  lemma PfpParses(s: string, t: string, p: nat, name: string, text: string)
    requires Trim(s) == t && p < |t| && Find(t, ':') == Some(p)
    requires LowerAscii(Trim(t[..p])) == "pfp"
    requires Split(t[p + 1..], ',') == [name, text]
    ensures ParseAuthConfig(s) == Parsed(PfpConfig(Trim(name), Trim(text)))
  {
  }

  /// A trimmed string with whitespace around it trims back to itself.
  lemma TrimmedPadded(w1: string, x: string, w2: string)
    requires AllWhitespace(w1) && AllWhitespace(w2) && Trimmed(x)
    ensures Trim(w1 + x + w2) == x
  {
    TrimPadding(w1, x, w2);
    assert TrimEnd(x) == x;
    assert TrimStart(x) == x;
  }

  /// `Find` stops at the first occurrence.
  lemma FindAt(s: string, c: char, i: nat)
    requires i < |s| && s[i] == c && Lacks(s[..i], c)
    ensures Find(s, c) == Some(i)
  {
    match Find(s, c) {
      case None =>
        assert false;
      case Some(k) =>
        if k < i {
          assert false;
        } else if k > i {
          assert false;
        }
    }
  }

  /// Two pieces without the separator split back apart.
  lemma SplitTwo(a: string, b: string, c: char)
    requires Lacks(a, c) && Lacks(b, c)
    ensures Split(a + [c] + b, c) == [a, b]
  {
    var s := a + [c] + b;
    assert s[..|a|] == a;
    FindAt(s, c, |a|);
    assert s[|a| + 1..] == b;
  }

  // ---------------------------------------------------------------- chat preferences

  /// `ChatConfig`
  datatype ChatConfig = ChatConfig(friendlyName: string, statusText: Option<string>)

  /// `ChatConfig::from_str`: the first piece of the trimmed input (not
  /// trimmed itself) is the name and the second, if any, the status; the
  /// "friendly name missing" error cannot happen, since a split always yields
  /// a piece.
  function ParseChatConfig(s: string): (r: Parsed<ChatConfig>)
    ensures r.Parsed?
    ensures Lacks(r.value.friendlyName, ',')
    ensures r.value.statusText.None? <==> Lacks(Trim(s), ',')
    ensures r.value.statusText.None? ==> r.value.friendlyName == Trim(s)
    ensures r.value.statusText.Some? ==>
      && Lacks(r.value.statusText.value, ',')
      && r.value.friendlyName + [','] + r.value.statusText.value <= Trim(s)
  {
    ChatFromTrimmed(Trim(s))
  }

  function ChatFromTrimmed(t: string): (r: Parsed<ChatConfig>)
    ensures r.Parsed?
    ensures Lacks(r.value.friendlyName, ',')
    ensures r.value.statusText.None? <==> Lacks(t, ',')
    ensures r.value.statusText.None? ==> r.value.friendlyName == t
    ensures r.value.statusText.Some? ==>
      && Lacks(r.value.statusText.value, ',')
      && r.value.friendlyName + [','] + r.value.statusText.value <= t
  {
    var args := Split(t, ',');
    SplitHead(t, ',');
    if |args| == 0 then Invalid("friendly name missing")
    else if |args| == 1 then Parsed(ChatConfig(args[0], None))
    else Parsed(ChatConfig(args[0], Some(args[1])))
  }

  // ---------------------------------------------------------------- fixed lists

  /// `configure_available_auth_types`
  const ConfiguredAuthTypes: seq<Authenticate.AuthType> := [Authenticate.AuthNone, Authenticate.Pfp]

  /// `configure_channels_to_open`
  const ChannelsToOpen: seq<ChannelNames.ChannelName> := [ChannelNames.Clipboard, ChannelNames.Chat]

  /// `configure_capabilities`: transport, update (JPEG with flag 1), license
  /// and mouse (primary, no flag).
  const ConfiguredCapabilities: seq<Capabilities.NowCapset> := [
    Capabilities.Transport(Capsets.DefaultTransport),
    Capabilities.Update(Capsets.NewUpdateWithCodecs([Capsets.NewCodecDefWithFlags(Capsets.Jpeg, 1)])),
    Capabilities.License(Capsets.LicenseCapset(0)),
    Capabilities.Mouse(Capsets.NewMouse(Mouse.MouseMode.Primary, 0))
  ]

  /// Whatever method the user configures, the client offers it.
  lemma ConfiguredMethodOffered(c: AuthConfig)
    ensures AuthTypeOf(c) in ConfiguredAuthTypes
  {
  }

  /// The client announces one capability set of each kind.
  lemma ConfiguredCapabilitiesDistinct()
    ensures forall i, j :: 0 <= i < j < |ConfiguredCapabilities| ==>
      Capabilities.KindOf(ConfiguredCapabilities[i]) != Capabilities.KindOf(ConfiguredCapabilities[j])
  {
  }
}
