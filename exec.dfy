/// `ExecMessageType`, the exec channel's one value table: 0x00 is the
/// capabilities request and any other byte the `Other` fallback.
module Exec {
  import opened Wire
  import opened Errors
  import Io
  import Serialization

  datatype ExecMessageType = CapsetReq | Other(value: u8)

  /// `From<u8>`: the table, anything else `Other`.
  function FromByte(v: u8): (t: ExecMessageType)
    ensures t.CapsetReq? <==> v == 0x00
    ensures t.Other? ==> t.value == v
  {
    if v == 0x00 then CapsetReq else Other(v)
  }

  /// `From<ExecMessageType> for u8`.
  function ToByte(t: ExecMessageType): u8
  {
    match t
    case CapsetReq => 0x00
    case Other(v) => v
  }

  /// `Other(v)` only ever stands for a value outside the table.
  predicate Canonical(t: ExecMessageType)
  {
    t.Other? ==> t.value != 0x00
  }

  /// Byte to type to byte is the identity, and decoding only ever yields
  /// canonical values.
  lemma ByteRoundTrip(v: u8)
    ensures ToByte(FromByte(v)) == v && Canonical(FromByte(v))
  {
  }

  lemma TypeRoundTrip(t: ExecMessageType)
    requires Canonical(t)
    ensures FromByte(ToByte(t)) == t
  {
  }

  /// The derived `Encode`: the value as one `u8`.
  function Encode(t: ExecMessageType): (e: Bytes)
    ensures |e| == 1 && e[0] == ToByte(t)
  {
    Serialization.EncodeUInt(ToByte(t), 1)
  }

  /// The derived `Decode`: a `u8` through the table; fails only on an
  /// empty buffer.
  function Decode(b: Bytes): (r: Result<Step<ExecMessageType>>)
    ensures r.Ok? <==> 1 <= |b|
    ensures r.Ok? ==> r.value.rest == b[1..] && r.value.value == FromByte(b[0])
    ensures r.Err? ==> r.error == FromIo(Io.Eof)
  {
    var v :- Serialization.DecodeUInt(b, 1);
    Serialization.UIntEncodingOfDecoded(b, 1);
    Ok(Step(FromByte(v.value as u8), v.rest))
  }

  lemma RoundTrip(t: ExecMessageType, rest: Bytes)
    requires Canonical(t)
    ensures Decode(Encode(t) + rest) == Ok(Step(t, rest))
  {
    Serialization.UIntRoundTrip(ToByte(t), 1, rest);
  }
}
