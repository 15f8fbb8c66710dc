/// `ProtoError`: an error kind, an optional description and an optional
/// source error, and the combinators every codec uses to build error chains.
module Errors {
  import opened Wire
  import opened Text
  import Io
  import MessageTypes
  import ChannelNames
  import States

  datatype ProtoErrorKind =
    | Decoding(what: string)
    | Encoding(what: string)
    | ConnectionSequence(state: States.ConnectionState)
    | VirtualChannel(channel: ChannelNames.ChannelName)
    | ChannelsManager
    | UnexpectedMessage(messageType: MessageTypes.MessageType)
    | Sharee(sharee: States.ShareeState)
    | Io(io: Io.NoStdIoError)
    | FromUtf8
    | IntConversion

  /// The descriptions the crate formats, kept as the values they are
  /// formatted from; `Render` spells each one as the crate's `format!` does.
  datatype Desc =
    | Plain(text: string)
    | FieldDecode(fieldTy: string, ty: string, field: string)
    | FieldEncode(ty: string, field: string)
    | VariantDecode(ty: string, variant: string)
    | VariantEncode(variant: string)
    | ItemDecode(index: nat)
    | StringTooLong(len: nat, name: string)
    | StringShort(name: string, len: nat)
    | StringOverLimit(len: nat, name: string)
    | SliceSize(countTy: string)
    | CountOverAvailable(count: nat, available: nat)
    | MethodUnavailable(authMethod: string)
    | UnexpectedCallIn(fn: string, state: string)
    | UnexpectedReceived
    | Then(desc: Desc, earlier: Desc)

  function Render(d: Desc): string
  {
    match d
    case Plain(text) => text
    case FieldDecode(fieldTy, ty, field) => "couldn't decode " + fieldTy + " into " + ty + "::" + field
    case FieldEncode(ty, field) => "couldn't encode " + ty + "::" + field
    case VariantDecode(ty, variant) => "couldn't decode " + ty + " for subtype " + variant
    case VariantEncode(variant) => "couldn't encode " + variant + " message"
    case ItemDecode(i) => "couldn't decode item n°" + NatToString(i)
    case StringTooLong(len, name) =>
      "attempted to parse a string greater (len: " + NatToString(len) + ") than the " + name + " size limit"
    case StringShort(name, len) => "no enough bytes to parse the " + name + " (expected " + NatToString(len) + ")"
    case StringOverLimit(len, name) => "provided string greater (len: " + NatToString(len) + ") than " + name + " size limit"
    case SliceSize(countTy) => "couldn't convert losslessly slice size into " + countTy + " (count)"
    case CountOverAvailable(count, available) =>
      "couldn't decode list: count (" + NatToString(count) + ") greater than available bytes ("
      + NatToString(available) + ")"
    case MethodUnavailable(authMethod) => "authentication method `" + authMethod + "` not available on server."
    case UnexpectedCallIn(fn, state) => "unexpected call to `" + fn + "` in state " + state
    case UnexpectedReceived => "received an unexpected message: "
    case Then(desc, earlier) => Render(desc) + " [" + Render(earlier) + "]"
  }

  datatype ProtoError = ProtoError(kind: ProtoErrorKind, description: Option<Desc>, source: Option<ProtoError>)

  datatype Result<T> = Ok(value: T) | Err(error: ProtoError)
  {
    predicate IsFailure() { Err? }

    function PropagateFailure<U>(): Result<U>
      requires Err?
    {
      Err(error)
    }

    function Extract(): T
      requires Ok?
    {
      value
    }
  }

  /// `From<ProtoErrorKind> for ProtoError`: the bare kind.
  function FromKind(kind: ProtoErrorKind): (e: ProtoError)
    ensures e.kind == kind && e.description.None? && e.source.None?
  {
    ProtoError(kind, None, None)
  }

  /// `From<NoStdIoError>`
  function FromIo(io: Io.NoStdIoError): (e: ProtoError)
    ensures e.kind == Io(io) && e.description.None? && e.source.None?
  {
    FromKind(Io(io))
  }

  /// `From<FromUtf8Error>`
  function FromUtf8Error(): (e: ProtoError)
    ensures e.kind == FromUtf8 && e.description.None? && e.source.None?
  {
    FromKind(FromUtf8)
  }

  /// `From<TryFromIntError>`
  function FromIntError(): (e: ProtoError)
    ensures e.kind == IntConversion && e.description.None? && e.source.None?
  {
    FromKind(IntConversion)
  }

  /// `ProtoError::new`: an `Err` carrying just the kind.
  function Fail<T>(kind: ProtoErrorKind): (r: Result<T>)
    ensures r.Err? && r.error == FromKind(kind)
  {
    Err(FromKind(kind))
  }

  /// An I/O result seen as a protocol result (`?` on an I/O call).
  function Lift<T>(r: Io.IoResult<T>): (o: Result<T>)
    ensures r.IoOk? ==> o == Ok(r.value)
    ensures r.IoErr? ==> o == Err(FromIo(r.error))
  {
    match r
    case IoOk(v) => Ok(v)
    case IoErr(e) => Err(FromIo(e))
  }

  /// `chain`: on error, a new error of kind `kind` whose source is the old one.
  function Chain<T>(r: Result<T>, kind: ProtoErrorKind): (o: Result<T>)
    ensures r.Ok? ==> o == r
    ensures r.Err? ==> o.Err? && o.error.kind == kind && o.error.description.None?
                       && o.error.source == Some(r.error)
  {
    match r
    case Ok(_) => r
    case Err(e) => Err(ProtoError(kind, None, Some(e)))
  }

  /// The description `or_desc` leaves: the new one, followed by the old one
  /// in brackets when there was one.
  function AddDesc(desc: Desc, current: Option<Desc>): Desc
  {
    match current
    case Some(d) => Then(desc, d)
    case None => desc
  }

  /// `or_desc`: on error, prefix the description; kind and source unchanged.
  function OrDesc<T>(r: Result<T>, desc: Desc): (o: Result<T>)
    ensures r.Ok? ==> o == r
    ensures r.Err? ==> o.Err? && o.error.kind == r.error.kind && o.error.source == r.error.source
    ensures r.Err? && r.error.description.None? ==> o.error.description == Some(desc)
    ensures r.Err? && r.error.description.Some? ==> o.error.description == Some(Then(desc, r.error.description.value))
  {
    match r
    case Ok(_) => r
    case Err(e) => Err(e.(description := Some(AddDesc(desc, e.description))))
  }

  /// `or_else_desc`: `or_desc` with a description computed only on error.
  function OrElseDesc<T>(r: Result<T>, f: () -> Desc): (o: Result<T>)
    ensures r.Ok? ==> o == r
    ensures r.Err? ==> o == OrDesc(r, f())
  {
    match r
    case Ok(_) => r
    case Err(_) => OrDesc(r, f())
  }

  /// `source`: on error, replace the source; kind and description unchanged.
  function WithSource<T>(r: Result<T>, src: ProtoError): (o: Result<T>)
    ensures r.Ok? ==> o == r
    ensures r.Err? ==> o.Err? && o.error.kind == r.error.kind
                       && o.error.description == r.error.description && o.error.source == Some(src)
  {
    match r
    case Ok(_) => r
    case Err(e) => Err(e.(source := Some(src)))
  }

  /// `chain` on an `Option`: `None` becomes the bare kind.
  function OptionChain<T>(o: Option<T>, kind: ProtoErrorKind): (r: Result<T>)
    ensures o.Some? <==> r.Ok?
    ensures o.Some? ==> r.value == o.value
    ensures o.None? ==> r.error == FromKind(kind)
  {
    match o
    case Some(v) => Ok(v)
    case None => Err(FromKind(kind))
  }

  /// `Display for ProtoErrorKind`
  function KindText(k: ProtoErrorKind): string
  {
    match k
    case Decoding(what) => "couldn't decode " + what
    case Encoding(what) => "couldn't encode " + what
    case ConnectionSequence(state) => "connection sequence failed at state " + States.ConnectionStateName(state)
    case VirtualChannel(name) => "virtual channel " + ChannelNames.DebugName(name) + " failed"
    case ChannelsManager => "virtual channels manager failed"
    case UnexpectedMessage(ty) => "unexpected " + MessageTypes.DebugName(ty) + " message"
    case Sharee(state) => "sharee error in state " + States.ShareeStateName(state)
    case Io(e) => "io error: " + Io.Display(e)
    case FromUtf8 => "couldn't parse utf8 string: invalid utf-8"
    case IntConversion => "integer conversion failed: out of range integral type conversion attempted"
  }

  /// `Display for ProtoError`: the kind, then the description, then the
  /// whole source chain.
  function Display(e: ProtoError): (r: string)
    ensures KindText(e.kind) <= r
    ensures e.description.None? && e.source.None? ==> r == KindText(e.kind)
    ensures e.source.Some? ==> |r| > |Display(e.source.value)|
  {
    KindText(e.kind)
    + (match e.description case Some(d) => " [description: " + Render(d) + "]" case None => "")
    + (match e.source case Some(s) => " [source: " + Display(s) + "]" case None => "")
  }

  /// How many errors the chain holds, counting `e` itself.
  function Depth(e: ProtoError): nat
  {
    1 + match e.source case Some(s) => Depth(s) case None => 0
  }

  /// Chaining keeps the old error intact and visible: the new error is one
  /// level deeper and its display ends with the old error's display.
  lemma ChainKeepsSource<T>(r: Result<T>, kind: ProtoErrorKind)
    requires r.Err?
    ensures Depth(Chain(r, kind).error) == Depth(r.error) + 1
    ensures Display(Chain(r, kind).error) == KindText(kind) + " [source: " + Display(r.error) + "]"
  {
  }

  /// Adding a description never loses an earlier one: the earlier
  /// description is a bracketed suffix of the new one.
  lemma OrDescKeepsDescription<T>(r: Result<T>, desc: Desc)
    requires r.Err? && r.error.description.Some?
    ensures var d := Render(OrDesc(r, desc).error.description.value);
            var old_ := Render(r.error.description.value);
            d == Render(desc) + " [" + old_ + "]"
            && d[|d| - |old_| - 1..|d| - 1] == old_
  {
  }
}
