/// A derived struct whose fields are all fixed-width integers, flags words
/// or value enums, described by its field list: most message layouts are
/// one of these, or begin with one.
///
/// The decoder reads the fields in declaration order with the struct's
/// error on a failing field; the encoder writes them in the same order.
module Layout {
  import opened Wire
  import opened Errors
  import opened Derived
  import opened Text
  import Serialization
  import NowStrings
  import Containers

  /// One field: its name, the type its error names, its width in bytes,
  /// and whether that type is a flags word (a struct of its own around the
  /// integer, whose failure is wrapped once more).
  datatype Field = Field(name: string, fieldTy: string, width: nat, isFlags: bool)

  /// A plain integer or value-enum field, and a flags-word field.
  function UInt(name: string, fieldTy: string, width: nat): Field { Field(name, fieldTy, width, false) }
  function FlagsOf(name: string, flagsTy: string, width: nat): Field { Field(name, flagsTy, width, true) }

  /// The encoded size of the fields: the sum of their widths.
  function Size(fs: seq<Field>): nat
  {
    if fs == [] then 0 else fs[0].width + Size(fs[1..])
  }

  /// `vs` holds one value per field, each fitting its field's width.
  predicate Fits(fs: seq<Field>, vs: seq<nat>)
  {
    |vs| == |fs| && forall i :: 0 <= i < |fs| ==> vs[i] < Pow256(fs[i].width)
  }

  /// The encoder: each value little-endian at its field's width, in order.
  function Encode(fs: seq<Field>, vs: seq<nat>): (e: Bytes)
    requires Fits(fs, vs)
    ensures |e| == Size(fs)
  {
    if fs == [] then []
    else
      assert vs[0] < Pow256(fs[0].width);
      Serialization.EncodeUInt(vs[0], fs[0].width) + Encode(fs[1..], vs[1..])
  }

  /// One field, read as its kind reads it.
  function ReadField(ty: string, f: Field, b: Bytes): (r: Result<Step<nat>>)
    ensures r.Ok? <==> f.width <= |b|
    ensures r.Ok? ==> r.value.rest == b[f.width..] && r.value.value < Pow256(f.width)
    ensures r.Err? ==> r.error.kind == Decoding(ty)
  {
    if f.isFlags then FlagsField(ty, f.fieldTy, f.name, b, f.width)
    else UIntField(ty, f.fieldTy, f.name, b, f.width)
  }

  /// The decoder: it succeeds exactly when the fields' bytes are there,
  /// and what it reads is the encoding of what it returns.
  function Decode(ty: string, fs: seq<Field>, b: Bytes): (r: Result<Step<seq<nat>>>)
    ensures r.Ok? <==> Size(fs) <= |b|
    ensures r.Ok? ==> r.value.rest == b[Size(fs)..] && Fits(fs, r.value.value)
                      && Encode(fs, r.value.value) == b[..Size(fs)]
    ensures r.Err? ==> r.error.kind == Decoding(ty)
    decreases |fs|
  {
    if fs == [] then Ok(Step([], b))
    else
      var x :- ReadField(ty, fs[0], b);
      var xs :- Decode(ty, fs[1..], x.rest);
      ReadEncoding(ty, fs[0], b);
      assert b[..Size(fs)] == b[..fs[0].width] + x.rest[..Size(fs[1..])];
      Ok(Step([x.value] + xs.value, xs.rest))
  }

  /// The first field's bytes, then the others'.
  lemma EncodeCons(fs: seq<Field>, vs: seq<nat>)
    requires Fits(fs, vs) && |fs| > 0
    ensures vs[0] < Pow256(fs[0].width) && Fits(fs[1..], vs[1..])
    ensures Encode(fs, vs) == Serialization.EncodeUInt(vs[0], fs[0].width) + Encode(fs[1..], vs[1..])
  {
    assert vs[0] < Pow256(fs[0].width);
  }

  /// A one-byte first field is the first byte written.
  lemma FirstByte(fs: seq<Field>, vs: seq<nat>)
    requires Fits(fs, vs) && |fs| > 0 && fs[0].width == 1
    ensures |Encode(fs, vs)| > 0 && Encode(fs, vs)[0] == vs[0]
  {
    assert vs[0] < Pow256(1);
    assert Serialization.EncodeUInt(vs[0], 1) == [vs[0]];
  }

  /// A field reads the encoding of the value it returns.
  lemma ReadEncoding(ty: string, f: Field, b: Bytes)
    requires f.width <= |b|
    ensures Serialization.EncodeUInt(ReadField(ty, f, b).value.value, f.width) == b[..f.width]
  {
    FieldsReadEncodings(ty, f.fieldTy, f.name, b, f.width);
  }

  /// Decoding the encoding of fitting values, in front of any bytes, gives
  /// them back and leaves exactly those bytes unread.
  lemma {:induction false} RoundTrip(ty: string, fs: seq<Field>, vs: seq<nat>, rest: Bytes)
    requires Fits(fs, vs)
    ensures Decode(ty, fs, Encode(fs, vs) + rest) == Ok(Step(vs, rest))
    decreases |fs|
  {
    if fs != [] {
      var tail := Encode(fs[1..], vs[1..]);
      assert Encode(fs, vs) + rest == Serialization.EncodeUInt(vs[0], fs[0].width) + (tail + rest);
      UIntRoundTrip(ty, fs[0].fieldTy, fs[0].name, vs[0], fs[0].width, tail + rest);
      RoundTrip(ty, fs[1..], vs[1..], rest);
      assert [vs[0]] + vs[1..] == vs;
    }
  }

  // ---------------------------------------------------------------- string fields

  /// A `NowString<size>` value as a field holds it: within the limit its
  /// length field can carry, and UTF-8, as `try_from` and `from_utf8` leave
  /// it.
  predicate StrValid(size: nat, width: nat, s: Bytes)
  {
    NowStrings.Kind(size, width) && |s| <= NowStrings.Limit(size, width) && Utf8(s)
  }

  /// A string field's bytes: length, bytes, terminator.
  function Str(size: nat, width: nat, s: Bytes): (e: Bytes)
    requires StrValid(size, width, s)
    ensures |e| == |s| + 1 + width
  {
    NowStrings.Encode(width, s)
  }

  /// A struct field of type `NowString<size>`, with the error the struct
  /// attaches; what it returns is a valid string.
  function StrField(ty: string, field: string, size: nat, width: nat, b: Bytes): (r: Result<Step<Bytes>>)
    requires NowStrings.Kind(size, width)
    ensures r.Ok? ==> StrValid(size, width, r.value.value) && |r.value.rest| < |b|
    ensures r.Err? ==> r.error.kind == Decoding(ty)
  {
    NowStrings.DecodeMeaning(size, width, b);
    InField(ty, NowStrings.Name(size), field, NowStrings.Decode(size, width, b))
  }

  /// A string field reads back a valid string and leaves what follows it.
  lemma StrRoundTrip(ty: string, field: string, size: nat, width: nat, s: Bytes, rest: Bytes)
    requires StrValid(size, width, s)
    ensures StrField(ty, field, size, width, Str(size, width, s) + rest) == Ok(Step(s, rest))
  {
    NowStrings.RoundTrip(size, width, s, rest);
  }

  // ---------------------------------------------------------------- a list last

  /// A struct of fixed fields whose last field is a `VecN` list.
  function EncodeWithVec<T>(ty: string, fs: seq<Field>, vs: seq<nat>, listField: string,
                            enc: Containers.Encoder<T>, width: nat, xs: seq<T>): (r: Result<Bytes>)
    requires Fits(fs, vs)
    ensures r.Ok? <==> Containers.EncodeVec(enc, width, xs).Ok?
    ensures r.Ok? ==> r.value == Encode(fs, vs) + Containers.EncodeVec(enc, width, xs).value
  {
    var list :- OutField(ty, listField, Containers.EncodeVec(enc, width, xs));
    Ok(Encode(fs, vs) + list)
  }

  function DecodeWithVec<T>(ty: string, fs: seq<Field>, listTy: string, listField: string,
                            dec: Containers.Decoder<T>, width: nat, b: Bytes): (r: Result<Step<(seq<nat>, seq<T>)>>)
    ensures r.Ok? ==> Size(fs) + width <= |b| && Fits(fs, r.value.value.0)
                      && Encode(fs, r.value.value.0) == b[..Size(fs)]
                      && |r.value.value.1| == LeValue(b[Size(fs)..Size(fs) + width])
  {
    var head :- Decode(ty, fs, b);
    var list :- InField(ty, listTy, listField, Containers.DecodeVec(dec, width, head.rest));
    assert head.rest[..width] == b[Size(fs)..Size(fs) + width];
    Ok(Step((head.value, list.value), list.rest))
  }

  /// Fixed fields and a list whose items read back read back together.
  lemma WithVecRoundTrip<T>(ty: string, fs: seq<Field>, vs: seq<nat>, listTy: string, listField: string,
                            enc: Containers.Encoder<T>, dec: Containers.Decoder<T>, width: nat, xs: seq<T>, rest: Bytes)
    requires Fits(fs, vs) && Containers.InverseOn(enc, dec, xs) && Containers.EncodeVec(enc, width, xs).Ok?
    ensures DecodeWithVec(ty, fs, listTy, listField, dec, width,
                          EncodeWithVec(ty, fs, vs, listField, enc, width, xs).value + rest)
            == Ok(Step((vs, xs), rest))
  {
    var l := Containers.EncodeVec(enc, width, xs).value;
    assert Encode(fs, vs) + l + rest == Encode(fs, vs) + (l + rest);
    RoundTrip(ty, fs, vs, l + rest);
    Containers.VecRoundTrip(enc, dec, width, xs, rest);
  }

  /// A list read by an item decoder whose every value satisfies `p` holds
  /// only such items.
  lemma WithVecYields<T>(ty: string, fs: seq<Field>, listTy: string, listField: string,
                         dec: Containers.Decoder<T>, p: T -> bool, width: nat, b: Bytes)
    requires Containers.Yields(dec, p)
    ensures var r := DecodeWithVec(ty, fs, listTy, listField, dec, width, b);
            r.Ok? ==> forall x | x in r.value.value.1 :: p(x)
  {
    if Size(fs) <= |b| {
      Containers.VecYields(dec, p, width, b[Size(fs)..]);
    }
  }
}
