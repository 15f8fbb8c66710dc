/// The crate's own I/O layer: a bounds-checked read cursor over a byte slice,
/// and the `write_all` loop every encoder writes through.
module Io {
  import opened Wire

  datatype IoErrorKind =
    | NotFound | PermissionDenied | ConnectionRefused | ConnectionReset
    | ConnectionAborted | NotConnected | AddrInUse | AddrNotAvailable
    | BrokenPipe | AlreadyExists | WouldBlock | InvalidInput | InvalidData
    | TimedOut | WriteZero | Interrupted | Other | UnexpectedEof | Unknown

  datatype NoStdIoError = NoStdIoError(kind: IoErrorKind, desc: Option<string>)

  datatype IoResult<T> = IoOk(value: T) | IoErr(error: NoStdIoError)

  /// The `{:?}` rendering of an error kind.
  function KindName(k: IoErrorKind): string
  {
    match k
    case NotFound => "NotFound"
    case PermissionDenied => "PermissionDenied"
    case ConnectionRefused => "ConnectionRefused"
    case ConnectionReset => "ConnectionReset"
    case ConnectionAborted => "ConnectionAborted"
    case NotConnected => "NotConnected"
    case AddrInUse => "AddrInUse"
    case AddrNotAvailable => "AddrNotAvailable"
    case BrokenPipe => "BrokenPipe"
    case AlreadyExists => "AlreadyExists"
    case WouldBlock => "WouldBlock"
    case InvalidInput => "InvalidInput"
    case InvalidData => "InvalidData"
    case TimedOut => "TimedOut"
    case WriteZero => "WriteZero"
    case Interrupted => "Interrupted"
    case Other => "Other"
    case UnexpectedEof => "UnexpectedEof"
    case Unknown => "Unknown"
  }

  /// `Display for NoStdIoError`: the kind, then the description in parentheses.
  function Display(e: NoStdIoError): string
  {
    match e.desc
    case Some(d) => KindName(e.kind) + " (" + d + ")"
    case None => KindName(e.kind)
  }

  /// Outcome of an operation that may panic instead of returning.
  datatype Panicking<T> = Returned(value: T) | Panicked

  /// The error every failed cursor access returns.
  const Eof := NoStdIoError(UnexpectedEof, None)

  /// `inner.get(pos..pos + n)`
  function GetRange(inner: Bytes, pos: nat, n: nat): IoResult<Bytes>
  {
    if pos + n <= |inner| then IoOk(inner[pos..pos + n]) else IoErr(Eof)
  }

  /// `inner.get(pos..)`
  function GetFrom(inner: Bytes, pos: nat): IoResult<Bytes>
  {
    if pos <= |inner| then IoOk(inner[pos..]) else IoErr(Eof)
  }

  /// What `read_u8` … `read_u64` return when `b` holds the unread bytes: the
  /// little-endian value of the next `width` bytes and the bytes after them.
  function TakeUInt(b: Bytes, width: nat): (r: IoResult<Step<nat>>)
    ensures r.IoOk? <==> width <= |b|
    ensures r.IoOk? ==> r.value.rest == b[width..] && r.value.value < Pow256(width)
    ensures r.IoErr? ==> r.error == Eof
  {
    match GetRange(b, 0, width)
    case IoOk(range) => IoOk(Step(LeValue(range), b[width..]))
    case IoErr(e) => IoErr(e)
  }

  /// What `read_i8` … `read_i64` return: the same bytes read as two's complement.
  function TakeInt(b: Bytes, width: nat): (r: IoResult<Step<int>>)
    requires width > 0
    ensures r.IoOk? <==> width <= |b|
    ensures r.IoOk? ==> r.value.rest == b[width..]
    ensures r.IoOk? ==> -(Pow256(width) / 2 as int) <= r.value.value < Pow256(width) / 2
  {
    match TakeUInt(b, width)
    case IoOk(s) => IoOk(Step(FromTwos(s.value, width), s.rest))
    case IoErr(e) => IoErr(e)
  }

  /// Reading a value back from its own little-endian bytes gives the value
  /// and leaves whatever follows unread.
  lemma TakeUIntOfLeBytes(v: nat, width: nat, rest: Bytes)
    requires v < Pow256(width)
    ensures TakeUInt(LeBytes(v, width) + rest, width) == IoOk(Step(v, rest))
  {
    assert (LeBytes(v, width) + rest)[..width] == LeBytes(v, width);
    assert (LeBytes(v, width) + rest)[width..] == rest;
    LeValueOfLeBytes(v, width);
  }

  lemma TakeIntOfLeBytes(v: int, width: nat, rest: Bytes)
    requires width > 0 && -(Pow256(width) / 2 as int) <= v < Pow256(width) / 2
    ensures TakeInt(LeBytes(ToTwos(v, width), width) + rest, width) == IoOk(Step(v, rest))
  {
    TakeUIntOfLeBytes(ToTwos(v, width), width, rest);
  }

  /// `peek_u16`/`peek_u32`/`peek_u64` as written: they slice one byte short
  /// (`pos..pos + width - 1`) and then unwrap a `width`-byte conversion.
  function PeekAsWritten(inner: Bytes, pos: nat, width: nat): (r: Panicking<IoResult<nat>>)
    requires width in {2, 4, 8}
    ensures r.Returned? ==> r.value.IoErr?
  {
    match GetRange(inner, pos, width - 1)
    case IoOk(range) => if |range| == width then Returned(IoOk(LeValue(range))) else Panicked
    case IoErr(e) => Returned(IoErr(e))
  }

  /// The peek never yields a value: it either panics or reports end of input.
  lemma PeekUIntAsWrittenNeverReturnsValue(inner: Bytes, pos: nat, width: nat)
    requires width in {2, 4, 8}
    ensures PeekAsWritten(inner, pos, width) == (if pos + width - 1 <= |inner| then Panicked else Returned(IoErr(Eof)))
  {
  }

  /// Concrete input: four readable bytes, yet `peek_u32` panics at position 0.
  lemma PeekU32PanicsOnFourBytes()
    ensures PeekAsWritten([1, 0, 0, 0], 0, 4) == Panicked
    ensures TakeUInt([1, 0, 0, 0], 4) == IoOk(Step(1, []))
  {
    assert LeValue([1, 0, 0, 0]) == 1 by {
      assert [1, 0, 0, 0][1..] == [0, 0, 0];
      assert [0, 0, 0][1..] == [0, 0];
      assert [0, 0][1..] == [0];
    }
  }

  /// Corrected peek: the value the next `read_u<width>` would return, without
  /// consuming anything.
  function PeekUInt(b: Bytes, width: nat): (r: IoResult<nat>)
    ensures r.IoOk? <==> width <= |b|
    ensures r.IoOk? ==> TakeUInt(b, width) == IoOk(Step(r.value, b[width..]))
  {
    match GetRange(b, 0, width)
    case IoOk(range) => IoOk(LeValue(range))
    case IoErr(e) => IoErr(e)
  }

  /// `Cursor`: a byte slice and a read position that may run past its end.
  class Cursor {
    const inner: Bytes
    var pos: nat

    constructor (inner: Bytes)
      ensures this.inner == inner && pos == 0
    {
      this.inner := inner;
      pos := 0;
    }

    function Position(): nat
      reads this
    {
      pos
    }

    method SetPosition(p: nat)
      modifies this
      ensures pos == p
    {
      pos := p;
    }

    method PeekU8() returns (r: IoResult<u8>)
      ensures r.IoOk? <==> pos < |inner|
      ensures r.IoOk? ==> r.value == inner[pos]
      ensures r.IoErr? ==> r.error == Eof
    {
      if pos < |inner| {
        r := IoOk(inner[pos]);
      } else {
        r := IoErr(Eof);
      }
    }

    /// `peek_u16`/`peek_u32`/`peek_u64` as written.
    method PeekUIntAsWritten(width: nat) returns (r: Panicking<IoResult<nat>>)
      requires width in {2, 4, 8}
      ensures r == PeekAsWritten(inner, pos, width)
      ensures r.Returned? ==> r.value == IoErr(Eof)
    {
      PeekUIntAsWrittenNeverReturnsValue(inner, pos, width);
      var range := GetRange(inner, pos, width - 1);
      if range.IoErr? {
        r := Returned(IoErr(range.error));
      } else {
        // `try_into` of a `width - 1` byte slice into a `width` byte array
        // fails, and the failure is unwrapped.
        r := Panicked;
      }
    }

    /// The peek the code evidently intends: the next `width`-byte value.
    method PeekUInt(width: nat) returns (r: IoResult<nat>)
      ensures r.IoOk? <==> pos + width <= |inner|
      ensures r.IoOk? ==> r.value == LeValue(inner[pos..pos + width])
      ensures r.IoOk? ==> TakeUInt(inner[pos..], width) == IoOk(Step(r.value, inner[pos + width..]))
      ensures r.IoErr? ==> r.error == Eof
    {
      if pos + width <= |inner| {
        assert inner[pos..][..width] == inner[pos..pos + width];
        assert inner[pos..][width..] == inner[pos + width..];
        r := IoOk(LeValue(inner[pos..pos + width]));
      } else {
        r := IoErr(Eof);
      }
    }

    method PeekRest() returns (r: IoResult<Bytes>)
      ensures r.IoOk? <==> pos <= |inner|
      ensures r.IoOk? ==> r.value == inner[pos..]
    {
      r := GetFrom(inner, pos);
    }

    method PeekN(n: nat) returns (r: IoResult<Bytes>)
      ensures r.IoOk? <==> pos + n <= |inner|
      ensures r.IoOk? ==> r.value == inner[pos..pos + n]
    {
      r := GetRange(inner, pos, n);
    }

    function GetRef(): Bytes
    {
      inner
    }

    /// `rewind`: `pos -= len`. Moving back past the start is an
    /// arithmetic underflow, which panics, and the position is then left as
    /// it was.
    method Rewind(len: nat) returns (r: Panicking<()>)
      modifies this
      ensures r.Panicked? <==> old(pos) < len
      ensures pos == if r.Panicked? then old(pos) else old(pos) - len
    {
      if len <= pos {
        pos := pos - len;
        r := Returned(());
      } else {
        r := Panicked;
      }
    }

    /// `forward`: `pos += len`, with no bound check.
    method Forward(len: nat)
      modifies this
      ensures pos == old(pos) + len
    {
      pos := pos + len;
    }

    method ReadN(n: nat) returns (r: IoResult<Bytes>)
      modifies this
      ensures r.IoOk? <==> old(pos) + n <= |inner|
      ensures r.IoOk? ==> r.value == inner[old(pos)..old(pos) + n] && pos == old(pos) + n
      ensures r.IoErr? ==> r.error == Eof && pos == old(pos)
    {
      r := GetRange(inner, pos, n);
      if r.IoOk? {
        pos := pos + n;
      }
    }

    /// `read_u8`, `read_u16`, `read_u32`, `read_u64` (by width).
    method ReadUInt(width: nat) returns (r: IoResult<nat>)
      modifies this
      ensures r.IoOk? <==> old(pos) + width <= |inner|
      ensures r.IoOk? ==> r.value == LeValue(inner[old(pos)..old(pos) + width]) && pos == old(pos) + width
      ensures r.IoOk? ==> TakeUInt(inner[old(pos)..], width) == IoOk(Step(r.value, inner[pos..]))
      ensures r.IoErr? ==> r.error == Eof && pos == old(pos)
    {
      var range := GetRange(inner, pos, width);
      if range.IoOk? {
        assert inner[pos..][..width] == range.value;
        assert inner[pos..][width..] == inner[pos + width..];
        pos := pos + width;
        r := IoOk(LeValue(range.value));
      } else {
        r := IoErr(range.error);
      }
    }

    /// `read_i8`, `read_i16`, `read_i32`, `read_i64` (by width).
    method ReadInt(width: nat) returns (r: IoResult<int>)
      requires width > 0
      modifies this
      ensures r.IoOk? <==> old(pos) + width <= |inner|
      ensures r.IoOk? ==> r.value == FromTwos(LeValue(inner[old(pos)..old(pos) + width]), width)
      ensures r.IoOk? ==> pos == old(pos) + width
      ensures r.IoErr? ==> r.error == Eof && pos == old(pos)
    {
      var u := ReadUInt(width);
      if u.IoOk? {
        r := IoOk(FromTwos(u.value, width));
      } else {
        r := IoErr(u.error);
      }
    }

    method ReadRest() returns (r: IoResult<Bytes>)
      modifies this
      ensures r.IoOk? <==> old(pos) <= |inner|
      ensures r.IoOk? ==> r.value == inner[old(pos)..] && pos == |inner|
      ensures r.IoErr? ==> r.error == Eof && pos == old(pos)
    {
      r := GetFrom(inner, pos);
      if r.IoOk? {
        pos := pos + |r.value|;
      }
    }
  }

  /// What one call of the underlying `write` does: accept `n` bytes (at most
  /// the whole buffer) or fail with an error of kind `kind`.
  datatype WriteReply = Wrote(n: nat) | Failed(kind: IoErrorKind)

  /// What `write_all` does against a writer whose successive `write` calls
  /// reply `replies` (after which every `write` accepts the whole buffer):
  /// the result, and how many bytes of `buf` reached the writer.
  function WriteAllOutcome(replies: seq<WriteReply>, buf: Bytes): (o: (IoResult<()>, nat))
    ensures o.1 <= |buf|
    decreases |replies|
  {
    if buf == [] then (IoOk(()), 0)
    else if replies == [] then (IoOk(()), |buf|)
    else match replies[0]
      case Wrote(n) =>
        if n == 0 then (IoErr(NoStdIoError(WriteZero, Some("failed to write whole buffer"))), 0)
        else
          var k := Min(n, |buf|);
          var rest := WriteAllOutcome(replies[1..], buf[k..]);
          (rest.0, k + rest.1)
      case Failed(kind) =>
        if kind == Interrupted then WriteAllOutcome(replies[1..], buf)
        else (IoErr(NoStdIoError(kind, None)), 0)
  }

  lemma {:induction false} WriteAllOutcomeProperties(replies: seq<WriteReply>, buf: Bytes)
    ensures WriteAllOutcome(replies, buf).0.IoOk? ==> WriteAllOutcome(replies, buf).1 == |buf|
    ensures WriteAllOutcome(replies, buf).0.IoErr? ==> WriteAllOutcome(replies, buf).0.error.kind != Interrupted
    decreases |replies|
  {
    if buf != [] && replies != [] {
      match replies[0]
      case Wrote(n) =>
        if n != 0 { WriteAllOutcomeProperties(replies[1..], buf[Min(n, |buf|)..]); }
      case Failed(kind) =>
        if kind == Interrupted { WriteAllOutcomeProperties(replies[1..], buf); }
    }
  }

  /// A writer standing for `NoStdWrite`: `written` is everything accepted so
  /// far and `replies` scripts how the next `write` calls behave.
  class ScriptedWriter {
    var written: Bytes
    var replies: seq<WriteReply>

    constructor (replies: seq<WriteReply>)
      ensures written == [] && this.replies == replies
    {
      written := [];
      this.replies := replies;
    }

    /// One call of the underlying `write`.
    method Write(buf: Bytes) returns (r: IoResult<nat>)
      modifies this
      ensures old(replies) == [] ==> r == IoOk(|buf|) && replies == []
      ensures old(replies) != [] ==> replies == old(replies)[1..]
      ensures r.IoOk? ==> r.value <= |buf| && written == old(written) + buf[..r.value]
      ensures r.IoErr? ==> written == old(written)
      ensures old(replies) != [] ==> r == match old(replies)[0]
                                          case Wrote(n) => IoOk(Min(n, |buf|))
                                          case Failed(k) => IoErr(NoStdIoError(k, None))
    {
      if replies == [] {
        written := written + buf;
        assert buf[..|buf|] == buf;
        r := IoOk(|buf|);
      } else {
        match replies[0] {
          case Wrote(n) =>
            var k := Min(n, |buf|);
            written := written + buf[..k];
            r := IoOk(k);
          case Failed(kind) =>
            r := IoErr(NoStdIoError(kind, None));
        }
        replies := replies[1..];
      }
    }

    /// `write_all`: call `write` until the whole buffer is accepted, retrying
    /// on `Interrupted` and giving up with `WriteZero` on a zero-byte write.
    method WriteAll(buf: Bytes) returns (r: IoResult<()>)
      modifies this
      ensures (r, |written| - |old(written)|) == WriteAllOutcome(old(replies), buf)
      ensures written == old(written) + buf[..|written| - |old(written)|]
    {
      var rest := buf;
      ghost var done := 0;
      while rest != []
        invariant |rest| + done == |buf| && rest == buf[done..]
        invariant written == old(written) + buf[..done]
        invariant WriteAllOutcome(old(replies), buf).0 == WriteAllOutcome(replies, rest).0
        invariant WriteAllOutcome(old(replies), buf).1 == done + WriteAllOutcome(replies, rest).1
        decreases |replies| + |rest|
      {
        ghost var before := replies;
        var w := Write(rest);
        match w
        case IoOk(n) =>
          if n == 0 {
            r := IoErr(NoStdIoError(WriteZero, Some("failed to write whole buffer")));
            return;
          }
          assert buf[..done + n] == buf[..done] + rest[..n];
          rest := rest[n..];
          done := done + n;
        case IoErr(e) =>
          if e.kind != Interrupted {
            r := IoErr(e);
            return;
          }
      }
      r := IoOk(());
    }

    /// `write_u8` … `write_u64`: `write_all` of the little-endian bytes.
    method WriteUInt(v: nat, width: nat) returns (r: IoResult<()>)
      requires v < Pow256(width)
      modifies this
      ensures (r, |written| - |old(written)|) == WriteAllOutcome(old(replies), LeBytes(v, width))
      ensures r.IoOk? ==> written == old(written) + LeBytes(v, width)
    {
      WriteAllOutcomeProperties(replies, LeBytes(v, width));
      r := WriteAll(LeBytes(v, width));
      assert r.IoOk? ==> LeBytes(v, width)[..width] == LeBytes(v, width);
    }

    /// `write_i8` … `write_i64`: `write_all` of the two's complement bytes.
    method WriteInt(v: int, width: nat) returns (r: IoResult<()>)
      requires width > 0 && -(Pow256(width) / 2 as int) <= v < Pow256(width) / 2
      modifies this
      ensures r.IoOk? ==> written == old(written) + LeBytes(ToTwos(v, width), width)
    {
      r := WriteUInt(ToTwos(v, width), width);
    }
  }
}
