/// Bytes, fixed-width integers and their little-endian layout, the vocabulary
/// every codec of the protocol is written in.
module Wire {

  type u8 = x: int | 0 <= x < 0x100
  type u16 = x: int | 0 <= x < 0x1_0000
  type u32 = x: int | 0 <= x < 0x1_0000_0000
  type u64 = x: int | 0 <= x < 0x1_0000_0000_0000_0000
  type u128 = x: int | 0 <= x < 0x1_0000_0000_0000_0000_0000_0000_0000_0000
  type i16 = x: int | -0x8000 <= x < 0x8000

  type Bytes = seq<u8>

  datatype Option<T> = None | Some(value: T)

  /// A decoded value together with the bytes left unread after it.
  datatype Step<T> = Step(value: T, rest: Bytes)

  /// 256 to the power `n`: the number of values an `n`-byte word can hold.
  function Pow256(n: nat): (r: nat)
    ensures r >= 1
  {
    if n == 0 then 1 else 256 * Pow256(n - 1)
  }

  lemma Pow256Widths()
    ensures Pow256(1) == 0x100 && Pow256(2) == 0x1_0000 && Pow256(4) == 0x1_0000_0000
    ensures Pow256(8) == 0x1_0000_0000_0000_0000
    ensures Pow256(16) == 0x1_0000_0000_0000_0000_0000_0000_0000_0000
  {
  }

  /// The unsigned value of `s` read least-significant byte first.
  function LeValue(s: Bytes): (v: nat)
    ensures v < Pow256(|s|)
  {
    if s == [] then 0 else s[0] + 256 * LeValue(s[1..])
  }

  /// The `n` little-endian bytes of `v` (the `to_le_bytes` of an `n`-byte word,
  /// keeping only the low `n` bytes when `v` does not fit).
  function LeBytes(v: nat, n: nat): (s: Bytes)
    ensures |s| == n
  {
    if n == 0 then [] else [v % 256] + LeBytes(v / 256, n - 1)
  }

  /// Zero is all zero bytes.
  lemma {:induction false} LeBytesZero(n: nat)
    ensures LeBytes(0, n) == seq(n, _ => 0)
  {
    if n > 0 {
      LeBytesZero(n - 1);
      assert [0] + seq(n - 1, _ => 0) == seq(n, _ => 0);
    }
  }

  lemma {:induction false} LeValueOfLeBytes(v: nat, n: nat)
    requires v < Pow256(n)
    ensures LeValue(LeBytes(v, n)) == v
  {
    if n > 0 {
      assert v / 256 < Pow256(n - 1);
      LeValueOfLeBytes(v / 256, n - 1);
      assert LeBytes(v, n)[1..] == LeBytes(v / 256, n - 1);
    }
  }

  lemma {:induction false} LeBytesOfLeValue(s: Bytes)
    ensures LeBytes(LeValue(s), |s|) == s
  {
    if s != [] {
      var v := LeValue(s);
      assert v % 256 == s[0] && v / 256 == LeValue(s[1..]);
      LeBytesOfLeValue(s[1..]);
    }
  }

  /// Two's complement: the unsigned word that stands for the signed `v`.
  function ToTwos(v: int, n: nat): (u: nat)
    requires n > 0 && -(Pow256(n) / 2 as int) <= v < Pow256(n) / 2
    ensures u < Pow256(n)
  {
    Pow256Even(n);
    if v < 0 then v + Pow256(n) else v
  }

  /// Two's complement: the signed value an unsigned `n`-byte word stands for.
  function FromTwos(u: nat, n: nat): (v: int)
    requires n > 0 && u < Pow256(n)
    ensures -(Pow256(n) / 2 as int) <= v < Pow256(n) / 2
  {
    Pow256Even(n);
    if u >= Pow256(n) / 2 then u - Pow256(n) else u
  }

  /// A word of at least one byte has an even number of values.
  lemma Pow256Even(n: nat)
    requires n > 0
    ensures Pow256(n) == 2 * (Pow256(n) / 2)
  {
    var k := Pow256(n - 1);
    assert Pow256(n) == 2 * (128 * k);
  }

  lemma TwosRoundTrip(v: int, n: nat)
    requires n > 0 && -(Pow256(n) / 2 as int) <= v < Pow256(n) / 2
    ensures FromTwos(ToTwos(v, n), n) == v
  {
  }

  function Min(a: int, b: int): int { if a <= b then a else b }
}
