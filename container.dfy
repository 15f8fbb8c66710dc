/// The count-prefixed containers: `Vec8`…`Vec64`, a list of items preceded
/// by their count, and `Bytes8`…`Bytes64`, a run of raw bytes preceded by
/// its length.
///
/// Decoders take the bytes still unread at the cursor and return the value
/// with the bytes left unread after it.
module Containers {
  import opened Wire
  import opened Text
  import opened Errors
  import Io
  import Serialization

  /// A decoder of one item: the value and the bytes left after it.
  type Decoder<T> = Bytes -> Result<Step<T>>

  /// An encoder of one item.
  type Encoder<!T> = T -> Result<Bytes>

  /// The widths of the count: `u8`, `u16`, `u32`, `u64`.
  predicate CountWidth(width: nat) { width in {1, 2, 4, 8} }

  /// The name `stringify!` gives each list container.
  function VecName(width: nat): string
  {
    match width
    case 1 => "Vec8"
    case 2 => "Vec16"
    case 4 => "Vec32"
    case _ => "Vec64"
  }

  /// The name of each byte-run container.
  function BytesName(width: nat): string
  {
    match width
    case 1 => "Bytes8"
    case 2 => "Bytes16"
    case 4 => "Bytes32"
    case _ => "Bytes64"
  }

  /// The name of the count's integer type.
  function CountTypeName(width: nat): string
  {
    match width
    case 1 => "u8"
    case 2 => "u16"
    case 4 => "u32"
    case _ => "u64"
  }

  /// Reading the count, with the error the containers attach to a short read.
  function DecodeCount(ty: string, width: nat, b: Bytes): (r: Result<Step<nat>>)
    ensures r.Ok? <==> width <= |b|
    ensures r.Ok? ==> r.value == Step(LeValue(b[..width]), b[width..])
    ensures r.Err? ==> r.error == ProtoError(Decoding(ty), Some(Plain("couldn't decode list count")), Some(FromIo(Io.Eof)))
  {
    OrDesc(Chain(Serialization.DecodeUInt(b, width), Decoding(ty)), Plain("couldn't decode list count"))
  }

  // ---------------------------------------------------------------- VecN

  /// `encoded_len`: the count's width plus every item's length.
  function ItemsLen(encs: seq<Bytes>): nat
  {
    if encs == [] then 0 else |encs[0]| + ItemsLen(encs[1..])
  }

  /// The items from number `i` on, each decoded from what the previous one
  /// left; the first failure is the result, tagged with the item's number.
  function DecodeItems<T>(dec: Decoder<T>, ty: string, i: nat, count: nat, b: Bytes): (r: Result<Step<seq<T>>>)
    requires i <= count
    ensures r.Ok? ==> |r.value.value| == count - i
    decreases count - i
  {
    if i == count then Ok(Step([], b))
    else
      var x :- OrDesc(Chain(dec(b), Decoding(ty)), ItemDecode(i));
      var tail :- DecodeItems(dec, ty, i + 1, count, x.rest);
      Ok(Step([x.value] + tail.value, tail.rest))
  }

  /// `VecN::decode_from`: the count, then exactly that many items in order.
  function DecodeVec<T>(dec: Decoder<T>, width: nat, b: Bytes): (r: Result<Step<seq<T>>>)
    ensures r.Ok? ==> width <= |b| && |r.value.value| == LeValue(b[..width])
  {
    var count :- DecodeCount(VecName(width), width, b);
    DecodeItems(dec, VecName(width), 0, count.value, count.rest)
  }

  /// The items' encodings one after the other; the first failure is the result.
  function EncodeItems<T>(enc: Encoder<T>, ty: string, xs: seq<T>): (r: Result<Bytes>)
    ensures r.Ok? <==> forall x | x in xs :: enc(x).Ok?
  {
    if xs == [] then Ok([])
    else
      var head :- OrDesc(Chain(enc(xs[0]), Encoding(ty)), Plain("couldn't encode item"));
      var rest :- EncodeItems(enc, ty, xs[1..]);
      assert forall x | x in xs :: x == xs[0] || x in xs[1..];
      Ok(head + rest)
  }

  /// A list with one more item in front is written with that item's
  /// encoding in front.
  lemma EncodeItemsCons<T>(enc: Encoder<T>, ty: string, x: T, xs: seq<T>)
    requires enc(x).Ok? && EncodeItems(enc, ty, xs).Ok?
    ensures EncodeItems(enc, ty, [x] + xs) == Ok(enc(x).value + EncodeItems(enc, ty, xs).value)
  {
    assert ([x] + xs)[0] == x && ([x] + xs)[1..] == xs;
  }

  /// Four items are written one after the other.
  lemma FourItems<T>(enc: Encoder<T>, ty: string, x0: T, x1: T, x2: T, x3: T)
    requires enc(x0).Ok? && enc(x1).Ok? && enc(x2).Ok? && enc(x3).Ok?
    ensures EncodeItems(enc, ty, [x0, x1, x2, x3])
            == Ok(enc(x0).value + (enc(x1).value + (enc(x2).value + enc(x3).value)))
  {
    assert EncodeItems(enc, ty, []) == Ok([]);
    EncodeItemsCons(enc, ty, x3, []);
    EncodeItemsCons(enc, ty, x2, [x3]);
    EncodeItemsCons(enc, ty, x1, [x2] + [x3]);
    EncodeItemsCons(enc, ty, x0, [x1] + ([x2] + [x3]));
    assert [x0] + ([x1] + ([x2] + [x3])) == [x0, x1, x2, x3];
    assert enc(x3).value + [] == enc(x3).value;
  }

  /// The error of a list too long for its count.
  function CountTooLarge(ty: string): ProtoError
  {
    ProtoError(Encoding(ty), Some(Plain("couldn't convert losslessly vec size into u8 (count)")), Some(FromIntError()))
  }

  /// `VecN::encode_into`: fails when the length does not fit the count,
  /// else the count followed by the items in order.
  function EncodeVec<T>(enc: Encoder<T>, width: nat, xs: seq<T>): (r: Result<Bytes>)
    ensures |xs| >= Pow256(width) ==> r == Err(CountTooLarge(VecName(width)))
    ensures r.Ok? ==> |xs| < Pow256(width) && |r.value| >= width && r.value[..width] == LeBytes(|xs|, width)
    ensures r.Ok? <==> |xs| < Pow256(width) && forall x | x in xs :: enc(x).Ok?
  {
    if |xs| >= Pow256(width) then Err(CountTooLarge(VecName(width)))
    else
      var body :- EncodeItems(enc, VecName(width), xs);
      var e := Serialization.EncodeUInt(|xs|, width) + body;
      assert e[..width] == LeBytes(|xs|, width);
      Ok(e)
  }

  /// A list of one item is its count, 1, then the item.
  lemma OneItemVec<T>(enc: Encoder<T>, width: nat, x: T)
    requires enc(x).Ok? && 0 < width
    ensures EncodeVec(enc, width, [x]) == Ok(LeBytes(1, width) + enc(x).value)
  {
    assert EncodeItems(enc, VecName(width), []) == Ok([]);
    EncodeItemsCons(enc, VecName(width), x, []);
    assert [x] + [] == [x] && enc(x).value + [] == enc(x).value;
  }

  /// An encoder and a decoder that undo each other, whatever follows the
  /// encoding, for the items of `xs`.
  ghost predicate InverseOn<T>(enc: Encoder<T>, dec: Decoder<T>, xs: seq<T>)
  {
    forall x, rest: Bytes {:trigger x in xs, enc(x).value + rest} ::
      x in xs && enc(x).Ok? ==> dec(enc(x).value + rest) == Ok(Step(x, rest))
  }

  /// `dec` reads `x` back from the bytes `e`, whatever follows them.
  ghost predicate DecodesBefore<T>(dec: Decoder<T>, x: T, e: Bytes)
  {
    forall rest: Bytes {:trigger e + rest} :: dec(e + rest) == Ok(Step(x, rest))
  }

  /// `dec` reads `x` back from its encoding, whatever follows it.
  ghost predicate ReadsBack<T>(enc: Encoder<T>, dec: Decoder<T>, x: T)
  {
    enc(x).Ok? ==> DecodesBefore(dec, x, enc(x).value)
  }

  /// Items read back one by one make the codec an inverse on all of them.
  lemma InverseOnEach<T>(enc: Encoder<T>, dec: Decoder<T>, xs: seq<T>)
    requires forall x | x in xs :: ReadsBack(enc, dec, x)
    ensures InverseOn(enc, dec, xs)
  {
    forall x, rest: Bytes | x in xs && enc(x).Ok?
      ensures dec(enc(x).value + rest) == Ok(Step(x, rest))
    {
      assert ReadsBack(enc, dec, x);
    }
  }

  lemma {:induction false} ItemsRoundTrip<T>(enc: Encoder<T>, dec: Decoder<T>, ty: string, xs: seq<T>, i: nat, rest: Bytes)
    requires InverseOn(enc, dec, xs) && EncodeItems(enc, ty, xs).Ok?
    ensures DecodeItems(dec, ty, i, i + |xs|, EncodeItems(enc, ty, xs).value + rest) == Ok(Step(xs, rest))
    decreases |xs|
  {
    if xs != [] {
      var h := enc(xs[0]).value;
      var t := EncodeItems(enc, ty, xs[1..]).value;
      assert EncodeItems(enc, ty, xs).value + rest == h + (t + rest);
      assert xs[0] in xs;
      assert dec(h + (t + rest)) == Ok(Step(xs[0], t + rest));
      assert InverseOn(enc, dec, xs[1..]) by {
        forall x | x in xs[1..] ensures x in xs { }
      }
      ItemsRoundTrip(enc, dec, ty, xs[1..], i + 1, rest);
      assert [xs[0]] + xs[1..] == xs;
    } else {
      assert EncodeItems(enc, ty, xs).value + rest == rest;
    }
  }

  /// Decoding a list's encoding gives back the same items and leaves
  /// whatever follows it unread.
  lemma VecRoundTrip<T>(enc: Encoder<T>, dec: Decoder<T>, width: nat, xs: seq<T>, rest: Bytes)
    requires InverseOn(enc, dec, xs) && EncodeVec(enc, width, xs).Ok?
    ensures DecodeVec(dec, width, EncodeVec(enc, width, xs).value + rest) == Ok(Step(xs, rest))
  {
    var body := EncodeItems(enc, VecName(width), xs).value;
    assert EncodeVec(enc, width, xs).value + rest == Serialization.EncodeUInt(|xs|, width) + (body + rest);
    Serialization.UIntRoundTrip(|xs|, width, body + rest);
    ItemsRoundTrip(enc, dec, VecName(width), xs, 0, rest);
  }

  /// Every value `dec` returns satisfies `p`.
  ghost predicate Yields<T>(dec: Decoder<T>, p: T -> bool)
  {
    forall b: Bytes :: dec(b).Ok? ==> p(dec(b).value.value)
  }

  lemma {:induction false} ItemsYield<T>(dec: Decoder<T>, p: T -> bool, ty: string, i: nat, count: nat, b: Bytes)
    requires i <= count && Yields(dec, p)
    ensures var r := DecodeItems(dec, ty, i, count, b);
            r.Ok? ==> forall x | x in r.value.value :: p(x)
    decreases count - i
  {
    if i < count {
      var x := dec(b);
      if x.Ok? {
        ItemsYield(dec, p, ty, i + 1, count, x.value.rest);
      }
    }
  }

  /// A list decoded with an item decoder whose every value satisfies `p`
  /// holds only such items.
  lemma VecYields<T>(dec: Decoder<T>, p: T -> bool, width: nat, b: Bytes)
    requires Yields(dec, p)
    ensures var r := DecodeVec(dec, width, b);
            r.Ok? ==> forall x | x in r.value.value :: p(x)
  {
    if width <= |b| {
      ItemsYield(dec, p, VecName(width), 0, LeValue(b[..width]), b[width..]);
    }
  }

  /// `r` with `acc` put before the items it holds.
  function Prepend<T>(acc: seq<T>, r: Result<Step<seq<T>>>): Result<Step<seq<T>>>
  {
    match r
    case Ok(s) => Ok(Step(acc + s.value, s.rest))
    case Err(e) => Err(e)
  }

  lemma PrependNothing<T>(r: Result<Step<seq<T>>>)
    ensures Prepend([], r) == r
  {
    if r.Ok? { assert [] + r.value.value == r.value.value; }
  }

  lemma PrependTwice<T>(acc: seq<T>, x: T, r: Result<Step<seq<T>>>)
    ensures Prepend(acc, Prepend([x], r)) == Prepend(acc + [x], r)
  {
    if r.Ok? { assert acc + ([x] + r.value.value) == (acc + [x]) + r.value.value; }
  }

  /// `VecN::decode_from` as the source runs it: a loop pushing one decoded
  /// item at a time while the cursor advances, `unread` standing for the
  /// bytes the cursor has not yet passed.
  method DecodeVecFrom<T>(dec: Decoder<T>, width: nat, b: Bytes) returns (r: Result<Step<seq<T>>>)
    ensures r == DecodeVec(dec, width, b)
  {
    var ty := VecName(width);
    var c := Serialization.DecodeUInt(b, width);
    if c.Err? {
      return Err(ProtoError(Decoding(ty), Some(Plain("couldn't decode list count")), Some(c.error)));
    }
    var count := c.value.value;
    var unread := c.value.rest;
    assert DecodeCount(ty, width, b) == Ok(Step(count, unread));
    var acc: seq<T> := [];
    var i := 0;
    PrependNothing(DecodeItems(dec, ty, 0, count, unread));
    while i < count
      invariant 0 <= i <= count && |acc| == i
      invariant DecodeVec(dec, width, b) == Prepend(acc, DecodeItems(dec, ty, i, count, unread))
      decreases count - i
    {
      var x := OrDesc(Chain(dec(unread), Decoding(ty)), ItemDecode(i));
      if x.Err? {
        return Err(x.error);
      }
      PrependTwice(acc, x.value.value, DecodeItems(dec, ty, i + 1, count, x.value.rest));
      unread := x.value.rest;
      acc := acc + [x.value.value];
      i := i + 1;
    }
    assert acc + [] == acc;
    r := Ok(Step(acc, unread));
  }

  // ---------------------------------------------------------------- BytesN

  /// `BytesN::encoded_len`
  function BytesLen(width: nat, data: Bytes): (n: nat)
    ensures n == width + |data|
  {
    width + |data|
  }

  /// `BytesN::encode_into`: fails when the length does not fit the count,
  /// else the count followed by the bytes.
  function EncodeBytes(width: nat, data: Bytes): (r: Result<Bytes>)
    ensures r.Ok? <==> |data| < Pow256(width)
    ensures r.Ok? ==> |r.value| == BytesLen(width, data) && r.value[width..] == data
    ensures r.Ok? ==> r.value[..width] == LeBytes(|data|, width)
    ensures r.Err? ==> r.error.kind == Encoding(BytesName(width)) && r.error.source == Some(FromIntError())
  {
    if |data| >= Pow256(width) then
      Err(ProtoError(Encoding(BytesName(width)),
                     Some(SliceSize(CountTypeName(width))),
                     Some(FromIntError())))
    else
      Ok(Serialization.EncodeUInt(|data|, width) + data)
  }

  /// The error of a count larger than the bytes that follow it.
  function BytesShort(width: nat, count: nat, available: nat): ProtoError
  {
    ProtoError(Decoding(BytesName(width)),
               Some(CountOverAvailable(count, available)),
               None)
  }

  /// `BytesN::decode_from` as written: the payload is returned but the
  /// cursor stays just after the count.
  function DecodeBytesAsWritten(width: nat, b: Bytes): (r: Result<Step<Bytes>>)
    ensures r.Ok? ==> width <= |b| && r.value.rest == b[width..]
  {
    var count :- DecodeCount(BytesName(width), width, b);
    if |count.rest| < count.value then Err(BytesShort(width, count.value, |count.rest|))
    else Ok(Step(count.rest[..count.value], count.rest))
  }

  /// `BytesN::decode_from` as intended: the same payload, with the cursor
  /// moved past it.
  function DecodeBytes(width: nat, b: Bytes): (r: Result<Step<Bytes>>)
    ensures r.Ok? <==> width <= |b| && width + LeValue(b[..width]) <= |b|
    ensures r.Ok? ==> (width + |r.value.value| <= |b| && |r.value.value| == LeValue(b[..width])
                       && r.value.value == b[width..width + |r.value.value|]
                       && r.value.rest == b[width + |r.value.value|..])
  {
    var count :- DecodeCount(BytesName(width), width, b);
    if |count.rest| < count.value then Err(BytesShort(width, count.value, |count.rest|))
    else Ok(Step(count.rest[..count.value], count.rest[count.value..]))
  }

  /// The two decoders agree on everything but the bytes they leave unread.
  lemma BytesDecodersAgree(width: nat, b: Bytes)
    ensures DecodeBytesAsWritten(width, b).Ok? <==> DecodeBytes(width, b).Ok?
    ensures DecodeBytes(width, b).Err? ==> DecodeBytesAsWritten(width, b) == DecodeBytes(width, b)
    ensures DecodeBytes(width, b).Ok? ==>
              DecodeBytesAsWritten(width, b).value.value == DecodeBytes(width, b).value.value
  {
  }

  lemma BytesRoundTrip(width: nat, data: Bytes, rest: Bytes)
    requires EncodeBytes(width, data).Ok?
    ensures DecodeBytes(width, EncodeBytes(width, data).value + rest) == Ok(Step(data, rest))
  {
    var count := Serialization.EncodeUInt(|data|, width);
    assert EncodeBytes(width, data).value + rest == count + (data + rest);
    Serialization.UIntRoundTrip(|data|, width, data + rest);
    assert (data + rest)[..|data|] == data && (data + rest)[|data|..] == rest;
  }

  /// As written, a run of bytes reads back its payload but leaves the
  /// payload itself unread in front of what follows.
  lemma BytesAsWrittenRereadsPayload(width: nat, data: Bytes, rest: Bytes)
    requires EncodeBytes(width, data).Ok?
    ensures DecodeBytesAsWritten(width, EncodeBytes(width, data).value + rest) == Ok(Step(data, data + rest))
  {
    var count := Serialization.EncodeUInt(|data|, width);
    assert EncodeBytes(width, data).value + rest == count + (data + rest);
    Serialization.UIntRoundTrip(|data|, width, data + rest);
    assert (data + rest)[..|data|] == data;
  }

  /// The item encoder of a `u8`: the byte itself.
  function EncodeByteItem(x: u8): (r: Result<Bytes>)
  {
    Ok([x])
  }

  lemma {:induction false} ByteItemsAreRaw(ty: string, xs: Bytes)
    ensures EncodeItems(EncodeByteItem, ty, xs) == Ok(xs)
  {
    if xs != [] {
      ByteItemsAreRaw(ty, xs[1..]);
      assert [xs[0]] + xs[1..] == xs;
    }
  }

  /// A `VecN<u8>` and a `BytesN` holding the same bytes have the same wire
  /// form, and one fails to encode exactly when the other does.
  lemma ByteVecIsBytes(width: nat, xs: Bytes)
    ensures EncodeVec(EncodeByteItem, width, xs).Ok? <==> EncodeBytes(width, xs).Ok?
    ensures EncodeVec(EncodeByteItem, width, xs).Ok? ==> EncodeVec(EncodeByteItem, width, xs) == EncodeBytes(width, xs)
  {
    ByteItemsAreRaw(VecName(width), xs);
  }

  /// A `Bytes8` followed by a `u8`: the as-written decoder leaves the cursor
  /// on the payload, so the next field reads the payload's first byte
  /// (0xAA) instead of the byte after it (7).
  lemma BytesAsWrittenMisplacesNextField()
    ensures DecodeBytesAsWritten(1, [2, 0xAA, 0xBB, 7]) == Ok(Step([0xAA, 0xBB], [0xAA, 0xBB, 7]))
    ensures Serialization.DecodeUInt([0xAA, 0xBB, 7], 1).value.value == 0xAA
    ensures DecodeBytes(1, [2, 0xAA, 0xBB, 7]) == Ok(Step([0xAA, 0xBB], [7]))
    ensures Serialization.DecodeUInt([7], 1).value.value == 7
  {
    var b: Bytes := [2, 0xAA, 0xBB, 7];
    assert b[..1] == [2] && LeValue([2]) == 2;
    assert DecodeCount(BytesName(1), 1, b) == Ok(Step(2, [0xAA, 0xBB, 7]));
    assert [0xAA, 0xBB, 7][..2] == [0xAA, 0xBB] && [0xAA, 0xBB, 7][2..] == [7];
    assert [0xAA, 0xBB, 7][..1] == [0xAA] && LeValue([0xAA]) == 0xAA;
    assert [7][..1] == [7] && LeValue([7]) == 7;
  }
}
