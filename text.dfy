/// Text helpers: UTF-8 well-formedness of byte strings, ASCII literals as
/// bytes, and decimal rendering of numbers for error descriptions.
module Text {
  import opened Wire

  predicate Cont(b: u8) { 0x80 <= b <= 0xBF }

  /// Length of the well-formed UTF-8 sequence that starts at `s[i]` (table
  /// 3-7 of the Unicode standard), or 0 when none starts there.
  function Utf8SeqLen(s: Bytes, i: nat): (n: nat)
    requires i < |s|
    ensures n <= 4 && i + n <= |s|
  {
    var b0 := s[i];
    var left := |s| - i;
    if b0 < 0x80 then 1
    else if 0xC2 <= b0 <= 0xDF then
      (if left >= 2 && Cont(s[i + 1]) then 2 else 0)
    else if b0 == 0xE0 then
      (if left >= 3 && 0xA0 <= s[i + 1] <= 0xBF && Cont(s[i + 2]) then 3 else 0)
    else if (0xE1 <= b0 <= 0xEC) || b0 == 0xEE || b0 == 0xEF then
      (if left >= 3 && Cont(s[i + 1]) && Cont(s[i + 2]) then 3 else 0)
    else if b0 == 0xED then
      (if left >= 3 && 0x80 <= s[i + 1] <= 0x9F && Cont(s[i + 2]) then 3 else 0)
    else if b0 == 0xF0 then
      (if left >= 4 && 0x90 <= s[i + 1] <= 0xBF && Cont(s[i + 2]) && Cont(s[i + 3]) then 4 else 0)
    else if 0xF1 <= b0 <= 0xF3 then
      (if left >= 4 && Cont(s[i + 1]) && Cont(s[i + 2]) && Cont(s[i + 3]) then 4 else 0)
    else if b0 == 0xF4 then
      (if left >= 4 && 0x80 <= s[i + 1] <= 0x8F && Cont(s[i + 2]) && Cont(s[i + 3]) then 4 else 0)
    else 0
  }

  /// `s` from position `i` on is a sequence of well-formed UTF-8 sequences.
  predicate Utf8From(s: Bytes, i: nat)
    requires i <= |s|
    decreases |s| - i, 1
  {
    i == |s| || Utf8Next(s, i)
  }

  /// A well-formed sequence starts at `s[i]`, and well-formed UTF-8 follows it.
  predicate Utf8Next(s: Bytes, i: nat)
    requires i < |s|
    decreases |s| - i, 0
  {
    var n := Utf8SeqLen(s, i);
    n > 0 && Utf8From(s, i + n)
  }

  /// `s` is well-formed UTF-8: what `String::from_utf8` accepts and what
  /// every Rust `str` holds.
  predicate Utf8(s: Bytes)
  {
    Utf8From(s, 0)
  }

  predicate IsAscii(s: Bytes) { forall i :: 0 <= i < |s| ==> s[i] < 0x80 }

  lemma AsciiIsUtf8(s: Bytes)
    requires IsAscii(s)
    ensures Utf8(s)
  {
    AsciiIsUtf8From(s, 0);
  }

  lemma {:induction false} AsciiIsUtf8From(s: Bytes, i: nat)
    requires IsAscii(s) && i <= |s|
    ensures Utf8From(s, i)
    decreases |s| - i
  {
    if i < |s| {
      assert Utf8SeqLen(s, i) == 1;
      AsciiIsUtf8From(s, i + 1);
      assert Utf8Next(s, i);
    }
  }

  /// A complete sequence at `s[i]` reads the same with bytes appended.
  lemma Utf8SeqLenPrefix(s: Bytes, t: Bytes, i: nat)
    requires i < |s| && Utf8SeqLen(s, i) > 0
    ensures Utf8SeqLen(s + t, i) == Utf8SeqLen(s, i)
  {
    forall k | i <= k < |s| ensures (s + t)[k] == s[k] {}
  }

  /// Bytes put in front of `t` do not change how `t` reads.
  lemma Utf8SeqLenShift(p: Bytes, t: Bytes, j: nat)
    requires j < |t|
    ensures Utf8SeqLen(p + t, |p| + j) == Utf8SeqLen(t, j)
  {
    forall k | j <= k < |t| ensures (p + t)[|p| + k] == t[k] {}
  }

  lemma {:induction false} Utf8FromShift(p: Bytes, t: Bytes, j: nat)
    requires j <= |t|
    ensures Utf8From(p + t, |p| + j) <==> Utf8From(t, j)
    decreases |t| - j
  {
    if j < |t| {
      Utf8SeqLenShift(p, t, j);
      var n := Utf8SeqLen(t, j);
      if n > 0 {
        Utf8FromShift(p, t, j + n);
      }
    }
  }

  lemma {:induction false} Utf8FromConcat(s: Bytes, t: Bytes, i: nat)
    requires i <= |s| && Utf8From(s, i) && Utf8(t)
    ensures Utf8From(s + t, i)
    decreases |s| - i
  {
    if i == |s| {
      Utf8FromShift(s, t, 0);
    } else {
      Utf8SeqLenPrefix(s, t, i);
      Utf8FromConcat(s, t, i + Utf8SeqLen(s, i));
    }
  }

  /// Well-formed UTF-8 followed by well-formed UTF-8 is well-formed.
  lemma Utf8Concat(s: Bytes, t: Bytes)
    requires Utf8(s) && Utf8(t)
    ensures Utf8(s + t)
  {
    Utf8FromConcat(s, t, 0);
  }

  /// The bytes of an ASCII string literal.
  function Ascii(s: string): (r: Bytes)
    requires forall i :: 0 <= i < |s| ==> s[i] < 128 as char
    ensures |r| == |s| && IsAscii(r)
  {
    if s == [] then [] else [s[0] as int] + Ascii(s[1..])
  }

  function DigitChar(d: nat): char
    requires d < 10
  {
    ['0', '1', '2', '3', '4', '5', '6', '7', '8', '9'][d]
  }

  /// Decimal rendering of `n`, as `format!("{}", n)` prints it.
  function NatToString(n: nat): (s: string)
    ensures |s| >= 1
  {
    if n < 10 then [DigitChar(n)] else NatToString(n / 10) + [DigitChar(n % 10)]
  }
  /// The UTF-8 encoding of one character (`char::encode_utf8`).
  function EncodeChar(c: char): (r: Bytes)
    ensures 1 <= |r| <= 4
  {
    var v := c as int;
    if v < 0x80 then [v]
    else if v < 0x800 then [0xC0 + v / 64, 0x80 + v % 64]
    else if v < 0x10000 then [0xE0 + v / 4096, 0x80 + (v / 64) % 64, 0x80 + v % 64]
    else [0xF0 + v / 262144, 0x80 + (v / 4096) % 64, 0x80 + (v / 64) % 64, 0x80 + v % 64]
  }

  /// The bytes of a Rust `str`: `str::as_bytes`.
  function EncodeUtf8(s: string): (r: Bytes)
    ensures |r| >= |s|
  {
    if s == [] then [] else EncodeChar(s[0]) + EncodeUtf8(s[1..])
  }

  /// One encoded character is one well-formed sequence.
  lemma EncodeCharReads(c: char, rest: Bytes)
    ensures Utf8SeqLen(EncodeChar(c) + rest, 0) == |EncodeChar(c)|
  {
    var v := c as int;
    var e := EncodeChar(c);
    if 0x800 <= v < 0x10000 {
      assert v < 0xD800 || 0xE000 <= v;
      if v < 0x1000 {
        assert e[0] == 0xE0 && 0xA0 <= e[1];
      } else if 0xD000 <= v < 0xE000 {
        assert e[0] == 0xED && e[1] <= 0x9F;
      }
    } else if 0x10000 <= v {
      if v < 0x40000 {
        assert e[0] == 0xF0 && 0x90 <= e[1];
      } else if 0x100000 <= v {
        assert e[0] == 0xF4 && e[1] <= 0x8F;
      }
    }
  }

  /// Encoding a string gives well-formed UTF-8, which is what lets a Rust
  /// `&str` be handed to the string types unchecked.
  lemma {:induction false} EncodeUtf8WellFormed(s: string)
    ensures Utf8(EncodeUtf8(s))
  {
    if s != [] {
      var e := EncodeChar(s[0]);
      var t := EncodeUtf8(s[1..]);
      EncodeUtf8WellFormed(s[1..]);
      EncodeCharReads(s[0], t);
      Utf8FromShift(e, t, 0);
      assert Utf8Next(e + t, 0);
    }
  }
}
