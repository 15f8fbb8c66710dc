/// The code the `Encode`/`Decode` derive macros generate, as the pieces
/// every message codec is assembled from.
///
/// A derived struct reads its fields in declaration order, attaching to a
/// failing field the struct's decoding kind and the text "couldn't decode
/// <field type> into <struct>::<field>"; it writes them in the same order,
/// attaching "couldn't encode <struct>::<field>". A meta enum reads its
/// subtype, rewinds over it, and hands the same unread bytes to the variant
/// of that subtype; any other subtype keeps the rest of the buffer, read
/// without moving the cursor.
///
/// Every decoder here takes the bytes still unread at the cursor and returns
/// the value with the bytes left unread after it.
module Derived {
  import opened Wire
  import opened Errors
  import Io
  import Serialization

  /// The error a derived struct's decoder attaches to a failing field.
  function InField<T>(ty: string, fieldTy: string, field: string, r: Result<T>): (o: Result<T>)
    ensures r.Ok? ==> o == r
    ensures r.Err? ==> o == Err(ProtoError(Decoding(ty),
                                           Some(FieldDecode(fieldTy, ty, field)),
                                           Some(r.error)))
  {
    OrDesc(Chain(r, Decoding(ty)), FieldDecode(fieldTy, ty, field))
  }

  /// The error a derived struct's encoder attaches to a failing field.
  function OutField(ty: string, field: string, r: Result<Bytes>): (o: Result<Bytes>)
    ensures r.Ok? ==> o == r
    ensures r.Err? ==> o == Err(ProtoError(Encoding(ty), Some(FieldEncode(ty, field)), Some(r.error)))
  {
    OrElseDesc(Chain(r, Encoding(ty)), () => FieldEncode(ty, field))
  }

  // ---------------------------------------------------------------- integer fields

  function U8(v: u8): (e: Bytes)
    ensures |e| == 1 && e == [v]
  {
    Serialization.EncodeUInt(v, 1)
  }

  function U16(v: u16): (e: Bytes)
    ensures |e| == 2 && LeValue(e) == v
  {
    Pow256Widths();
    LeValueOfLeBytes(v, 2);
    Serialization.EncodeUInt(v, 2)
  }

  function U32(v: u32): (e: Bytes)
    ensures |e| == 4 && LeValue(e) == v
  {
    Pow256Widths();
    LeValueOfLeBytes(v, 4);
    Serialization.EncodeUInt(v, 4)
  }

  function U64(v: u64): (e: Bytes)
    ensures |e| == 8 && LeValue(e) == v
  {
    Pow256Widths();
    LeValueOfLeBytes(v, 8);
    Serialization.EncodeUInt(v, 8)
  }

  /// An `i16`, in two's complement.
  function I16(v: i16): (e: Bytes)
    ensures |e| == 2 && LeValue(e) == ToTwos(v, 2)
  {
    Pow256Widths();
    LeValueOfLeBytes(ToTwos(v, 2), 2);
    Serialization.EncodeInt(v, 2)
  }

  /// Zero encodes as zero bytes at every width.
  lemma ZeroEncodings()
    ensures U8(0) == [0] && U16(0) == [0, 0] && U32(0) == [0, 0, 0, 0] && U64(0) == [0, 0, 0, 0, 0, 0, 0, 0]
    ensures I16(0) == [0, 0]
  {
    Pow256Widths();
    LeBytesZero(1);
    LeBytesZero(2);
    LeBytesZero(4);
    LeBytesZero(8);
    assert seq(1, _ => 0) == [0];
    assert seq(2, _ => 0) == [0, 0];
    assert seq(4, _ => 0) == [0, 0, 0, 0];
    assert seq(8, _ => 0) == [0, 0, 0, 0, 0, 0, 0, 0];
  }

  /// The name `stringify!` gives an unsigned integer type of `width` bytes.
  function UIntName(width: nat): string
  {
    match width
    case 1 => "u8"
    case 2 => "u16"
    case 4 => "u32"
    case _ => "u64"
  }

  /// A struct field of an unsigned integer type, with the error the
  /// struct attaches.
  function UIntField(ty: string, fieldTy: string, field: string, b: Bytes, width: nat): (r: Result<Step<nat>>)
    ensures r.Ok? <==> width <= |b|
    ensures r.Ok? ==> r.value.rest == b[width..] && r.value.value < Pow256(width)
    ensures r.Err? ==> r.error.kind == Decoding(ty)
  {
    InField(ty, fieldTy, field, Serialization.DecodeUInt(b, width))
  }

  /// A struct field holding a flags word: the word is itself a derived
  /// struct with the single field `value`, so a failure carries both
  /// structs' errors.
  function FlagsField(ty: string, flagsTy: string, field: string, b: Bytes, width: nat): (r: Result<Step<nat>>)
    ensures r.Ok? <==> width <= |b|
    ensures r.Ok? ==> r.value.rest == b[width..] && r.value.value < Pow256(width)
    ensures r.Err? ==> r.error.kind == Decoding(ty) && r.error.source.Some?
                       && r.error.source.value.kind == Decoding(flagsTy)
  {
    var x :- InField(ty, flagsTy, field, UIntField(flagsTy, UIntName(width), "value", b, width));
    Ok(x)
  }

  /// What either kind of field reads is the encoding of what it returns.
  lemma FieldsReadEncodings(ty: string, fieldTy: string, field: string, b: Bytes, width: nat)
    requires width <= |b|
    ensures Serialization.EncodeUInt(UIntField(ty, fieldTy, field, b, width).value.value, width) == b[..width]
    ensures Serialization.EncodeUInt(FlagsField(ty, fieldTy, field, b, width).value.value, width) == b[..width]
  {
    Serialization.UIntEncodingOfDecoded(b, width);
  }

  /// A one-byte field returns the byte it reads.
  lemma U8FieldReads(ty: string, fieldTy: string, field: string, b: Bytes)
    requires 0 < |b|
    ensures U8Field(ty, fieldTy, field, b).value.value == b[0]
  {
    FieldsReadEncodings(ty, fieldTy, field, b, 1);
  }

  /// A four-byte field reads the encoding of the word it returns.
  lemma U32FieldReads(ty: string, fieldTy: string, field: string, b: Bytes)
    requires 4 <= |b|
    ensures U32(U32Field(ty, fieldTy, field, b).value.value) == b[..4]
    ensures U32(Flags32Field(ty, fieldTy, field, b).value.value) == b[..4]
  {
    FieldsReadEncodings(ty, fieldTy, field, b, 4);
  }

  /// In front of any bytes, an integer's encoding reads back through both
  /// kinds of field, which leave exactly those bytes unread.
  lemma UIntRoundTrip(ty: string, fieldTy: string, field: string, v: nat, width: nat, rest: Bytes)
    requires v < Pow256(width)
    ensures UIntField(ty, fieldTy, field, Serialization.EncodeUInt(v, width) + rest, width) == Ok(Step(v, rest))
    ensures FlagsField(ty, fieldTy, field, Serialization.EncodeUInt(v, width) + rest, width) == Ok(Step(v, rest))
  {
    Serialization.UIntRoundTrip(v, width, rest);
  }

  function U8Field(ty: string, fieldTy: string, field: string, b: Bytes): (r: Result<Step<u8>>)
    ensures r.Ok? <==> 1 <= |b|
    ensures r.Ok? ==> r.value.rest == b[1..]
  {
    var x :- UIntField(ty, fieldTy, field, b, 1);
    Ok(Step(x.value, x.rest))
  }

  function U16Field(ty: string, fieldTy: string, field: string, b: Bytes): (r: Result<Step<u16>>)
    ensures r.Ok? <==> 2 <= |b|
    ensures r.Ok? ==> r.value.rest == b[2..]
  {
    var x :- UIntField(ty, fieldTy, field, b, 2);
    Ok(Step(x.value, x.rest))
  }

  function U32Field(ty: string, fieldTy: string, field: string, b: Bytes): (r: Result<Step<u32>>)
    ensures r.Ok? <==> 4 <= |b|
    ensures r.Ok? ==> r.value.rest == b[4..]
  {
    var x :- UIntField(ty, fieldTy, field, b, 4);
    Ok(Step(x.value, x.rest))
  }

  function U64Field(ty: string, fieldTy: string, field: string, b: Bytes): (r: Result<Step<u64>>)
    ensures r.Ok? <==> 8 <= |b|
    ensures r.Ok? ==> r.value.rest == b[8..]
  {
    var x :- UIntField(ty, fieldTy, field, b, 8);
    Ok(Step(x.value, x.rest))
  }

  function Flags8Field(ty: string, fieldTy: string, field: string, b: Bytes): (r: Result<Step<u8>>)
    ensures r.Ok? <==> 1 <= |b|
    ensures r.Ok? ==> r.value.rest == b[1..]
  {
    var x :- FlagsField(ty, fieldTy, field, b, 1);
    Ok(Step(x.value, x.rest))
  }

  function Flags16Field(ty: string, fieldTy: string, field: string, b: Bytes): (r: Result<Step<u16>>)
    ensures r.Ok? <==> 2 <= |b|
    ensures r.Ok? ==> r.value.rest == b[2..]
  {
    var x :- FlagsField(ty, fieldTy, field, b, 2);
    Ok(Step(x.value, x.rest))
  }

  function Flags32Field(ty: string, fieldTy: string, field: string, b: Bytes): (r: Result<Step<u32>>)
    ensures r.Ok? <==> 4 <= |b|
    ensures r.Ok? ==> r.value.rest == b[4..]
  {
    var x :- FlagsField(ty, fieldTy, field, b, 4);
    Ok(Step(x.value, x.rest))
  }

  function I16Field(ty: string, fieldTy: string, field: string, b: Bytes): (r: Result<Step<i16>>)
    ensures r.Ok? <==> 2 <= |b|
    ensures r.Ok? ==> r.value.rest == b[2..]
  {
    var x :- InField(ty, fieldTy, field, Serialization.DecodeInt(b, 2));
    Ok(Step(x.value, x.rest))
  }

  /// Each typed field reads its own encoding back, in front of any bytes,
  /// and leaves exactly those bytes unread.
  lemma U8RoundTrip(ty: string, fieldTy: string, field: string, v: u8, rest: Bytes)
    ensures U8Field(ty, fieldTy, field, U8(v) + rest) == Ok(Step(v, rest))
    ensures Flags8Field(ty, fieldTy, field, U8(v) + rest) == Ok(Step(v, rest))
  {
    UIntRoundTrip(ty, fieldTy, field, v, 1, rest);
  }

  lemma U16RoundTrip(ty: string, fieldTy: string, field: string, v: u16, rest: Bytes)
    ensures U16Field(ty, fieldTy, field, U16(v) + rest) == Ok(Step(v, rest))
    ensures Flags16Field(ty, fieldTy, field, U16(v) + rest) == Ok(Step(v, rest))
  {
    UIntRoundTrip(ty, fieldTy, field, v, 2, rest);
  }

  lemma U32RoundTrip(ty: string, fieldTy: string, field: string, v: u32, rest: Bytes)
    ensures U32Field(ty, fieldTy, field, U32(v) + rest) == Ok(Step(v, rest))
    ensures Flags32Field(ty, fieldTy, field, U32(v) + rest) == Ok(Step(v, rest))
  {
    UIntRoundTrip(ty, fieldTy, field, v, 4, rest);
  }

  lemma U64RoundTrip(ty: string, fieldTy: string, field: string, v: u64, rest: Bytes)
    ensures U64Field(ty, fieldTy, field, U64(v) + rest) == Ok(Step(v, rest))
  {
    UIntRoundTrip(ty, fieldTy, field, v, 8, rest);
  }

  lemma I16RoundTrip(ty: string, fieldTy: string, field: string, v: i16, rest: Bytes)
    ensures I16Field(ty, fieldTy, field, I16(v) + rest) == Ok(Step(v, rest))
  {
    Serialization.IntRoundTrip(v, 2, rest);
  }

  // ---------------------------------------------------------------- value enums

  /// A `#[repr(u8)]` enum without a fallback variant, read as one byte: the
  /// byte's own read error is passed on as it is, and a byte outside the
  /// enum's table is refused with the enum's decoding kind.
  function ListedByte<T>(enumTy: string, table: u8 -> Option<T>, b: Bytes): (r: Result<Step<T>>)
    ensures r.Ok? <==> |b| > 0 && table(b[0]).Some?
    ensures r.Ok? ==> r.value == Step(table(b[0]).value, b[1..])
    ensures |b| > 0 && table(b[0]).None? ==> r == Err(FromKind(Decoding(enumTy)))
    ensures |b| == 0 ==> r == Err(FromIo(Io.Eof))
  {
    var x :- Serialization.DecodeUInt(b, 1);
    Serialization.UIntEncodingOfDecoded(b, 1);
    assert [x.value] == U8(x.value) == b[..1];
    match table(x.value)
    case Some(v) => Ok(Step(v, x.rest))
    case None => Err(FromKind(Decoding(enumTy)))
  }

  /// A listed byte, in front of any bytes, reads back as its variant.
  lemma ListedByteRoundTrip<T>(enumTy: string, table: u8 -> Option<T>, x: u8, v: T, rest: Bytes)
    requires table(x) == Some(v)
    ensures ListedByte(enumTy, table, [x] + rest) == Ok(Step(v, rest))
  {
    assert ([x] + rest)[0] == x && ([x] + rest)[1..] == rest;
  }

  /// A `#[repr(u16)]` enum without a fallback variant, read as two bytes.
  function ListedWord<T>(enumTy: string, table: u16 -> Option<T>, b: Bytes): (r: Result<Step<T>>)
    ensures r.Ok? <==> 2 <= |b| && table(LeValue(b[..2])).Some?
    ensures r.Ok? ==> r.value == Step(table(LeValue(b[..2])).value, b[2..])
    ensures 2 <= |b| && table(LeValue(b[..2])).None? ==> r == Err(FromKind(Decoding(enumTy)))
    ensures |b| < 2 ==> r == Err(FromIo(Io.Eof))
  {
    var x :- Serialization.DecodeUInt(b, 2);
    Serialization.UIntEncodingOfDecoded(b, 2);
    Pow256Widths();
    LeValueOfLeBytes(x.value, 2);
    assert x.value == LeValue(b[..2]);
    match table(x.value)
    case Some(v) => Ok(Step(v, x.rest))
    case None => Err(FromKind(Decoding(enumTy)))
  }

  /// A listed word, in front of any bytes, reads back as its variant.
  lemma ListedWordRoundTrip<T>(enumTy: string, table: u16 -> Option<T>, x: u16, v: T, rest: Bytes)
    requires table(x) == Some(v)
    ensures ListedWord(enumTy, table, U16(x) + rest) == Ok(Step(v, rest))
  {
    assert (U16(x) + rest)[..2] == U16(x) && (U16(x) + rest)[2..] == rest;
  }

  // ---------------------------------------------------------------- meta enums

  /// The subtype a meta enum dispatches on, read as an integer of `width`
  /// bytes; the cursor is rewound over it, so the variant is decoded from
  /// the same unread bytes again.
  function Subtype(ty: string, width: nat, b: Bytes): (r: Result<nat>)
    ensures r.Ok? <==> width <= |b|
    ensures r.Ok? ==> r.value == LeValue(b[..width])
    ensures r.Err? ==> r.error == ProtoError(Decoding(ty), Some(Plain("couldn't decode subtype")), Some(FromIo(Io.Eof)))
  {
    var x :- OrDesc(Chain(Serialization.DecodeUInt(b, width), Decoding(ty)), Plain("couldn't decode subtype"));
    Ok(x.value)
  }

  /// The subtype of a meta enum whose subtype enum has no fallback
  /// variant, with the error the meta enum attaches to a failed read.
  function MetaSubtype<T>(ty: string, r: Result<Step<T>>): (o: Result<T>)
    ensures r.Ok? ==> o == Ok(r.value.value)
    ensures r.Err? ==> o == Err(ProtoError(Decoding(ty), Some(Plain("couldn't decode subtype")), Some(r.error)))
  {
    var x :- OrDesc(Chain(r, Decoding(ty)), Plain("couldn't decode subtype"));
    Ok(x.value)
  }

  /// The error a meta enum's decoder attaches to a failing variant.
  function InVariant<T>(ty: string, variant: string, r: Result<T>): (o: Result<T>)
    ensures r.Ok? ==> o == r
    ensures r.Err? ==> o == Err(ProtoError(Decoding(ty), Some(VariantDecode(ty, variant)),
                                           Some(r.error)))
  {
    OrDesc(Chain(r, Decoding(ty)), VariantDecode(ty, variant))
  }

  /// A subtype the meta enum lists no variant for, when the enum has no
  /// fallback variant: decoding it is refused.
  function Unlisted(ty: string): (e: ProtoError)
    ensures e.kind == Decoding(ty)
  {
    FromKind(Decoding(ty))
  }

  /// The error a meta enum's encoder attaches to a failing variant.
  function OutVariant(ty: string, variant: string, r: Result<Bytes>): (o: Result<Bytes>)
    ensures r.Ok? ==> o == r
    ensures r.Err? ==> o == Err(ProtoError(Encoding(ty), Some(VariantEncode(variant)), Some(r.error)))
  {
    OrDesc(Chain(r, Encoding(ty)), VariantEncode(variant))
  }

  /// The fallback variant: the rest of the buffer, with the cursor left
  /// where it was.
  function Rest(b: Bytes): (s: Step<Bytes>)
    ensures s.value == b && s.rest == b
  {
    Step(b, b)
  }
}
