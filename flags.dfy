/// The bit-flag words every message uses: a single unsigned integer of 8,
/// 16 or 32 bits, queried, set and cleared one named mask at a time.
///
/// The bitwise operators are defined bit by bit on integers, least
/// significant bit first, over the low `n` bits of their operands.
module Flags {
  import opened Wire

  /// Every flag word of the protocol fits in 32 bits.
  type Word = u32

  const WordBits: nat := 32

  function Pow2(n: nat): (r: nat)
    ensures r >= 1
  {
    if n == 0 then 1 else 2 * Pow2(n - 1)
  }

  lemma Pow2Widths()
    ensures Pow2(8) == 0x100 && Pow2(16) == 0x1_0000 && Pow2(32) == 0x1_0000_0000
  {
    assert Pow2(2) == 4 && Pow2(4) == 16 && Pow2(6) == 64 && Pow2(8) == 0x100;
    assert Pow2(10) == 0x400 && Pow2(12) == 0x1000 && Pow2(14) == 0x4000 && Pow2(16) == 0x1_0000;
    assert Pow2(18) == 0x4_0000 && Pow2(20) == 0x10_0000 && Pow2(22) == 0x40_0000 && Pow2(24) == 0x100_0000;
    assert Pow2(26) == 0x400_0000 && Pow2(28) == 0x1000_0000 && Pow2(30) == 0x4000_0000;
  }

  function BitAnd(x: nat, y: nat): nat { if x % 2 == 1 && y % 2 == 1 then 1 else 0 }
  function BitOr(x: nat, y: nat): nat { if x % 2 == 1 || y % 2 == 1 then 1 else 0 }
  function BitAndNot(x: nat, y: nat): nat { if x % 2 == 1 && y % 2 == 0 then 1 else 0 }

  /// `a & b` on the low `n` bits.
  function And(a: nat, b: nat, n: nat): (r: nat)
    ensures r < Pow2(n)
  {
    if n == 0 then 0 else BitAnd(a, b) + 2 * And(a / 2, b / 2, n - 1)
  }

  /// `a | b` on the low `n` bits.
  function Or(a: nat, b: nat, n: nat): (r: nat)
    ensures r < Pow2(n)
  {
    if n == 0 then 0 else BitOr(a, b) + 2 * Or(a / 2, b / 2, n - 1)
  }

  /// `a & !b` on the low `n` bits.
  function AndNot(a: nat, b: nat, n: nat): (r: nat)
    ensures r < Pow2(n)
  {
    if n == 0 then 0 else BitAndNot(a, b) + 2 * AndNot(a / 2, b / 2, n - 1)
  }

  /// A number written as its lowest bit and the rest.
  lemma Halves(bit: nat, rest: nat)
    requires bit < 2
    ensures (bit + 2 * rest) / 2 == rest && (bit + 2 * rest) % 2 == bit
  {
  }

  /// `x()`: is any bit of `mask` set in `value`?
  predicate Test(value: Word, mask: Word)
  {
    And(value, mask, WordBits) != 0
  }

  /// The value `set_x` leaves: `value | mask`.
  function Set(value: Word, mask: Word): Word
  {
    Pow2Widths();
    Or(value, mask, WordBits)
  }

  /// The value `unset_x` leaves: `value & !mask`.
  function Unset(value: Word, mask: Word): Word
  {
    Pow2Widths();
    AndNot(value, mask, WordBits)
  }

  /// A flags field held as the integer it is on the wire: is any bit of
  /// `mask` set in it?
  predicate Has(v: Word, mask: Word)
  {
    Test(v, mask)
  }

  /// The integer a flags field holds after `set_x`.
  function With(v: Word, mask: Word): (r: Word)
    ensures mask != 0 ==> Has(r, mask)
  {
    if mask != 0 then SetThenTest(v, mask); Set(v, mask) else Set(v, mask)
  }

  /// `v` fits the underlying integer of `width` bytes (`u8`, `u16`, `u32`).
  predicate Fits(v: Word, width: nat)
  {
    width == 4 || (width == 2 && v < 0x1_0000) || (width == 1 && v < 0x100)
  }

  // ---------------------------------------------------------------- bit lemmas

  lemma {:induction false} OrBelow(a: nat, b: nat, n: nat, k: nat)
    requires a < Pow2(k) && b < Pow2(k)
    ensures Or(a, b, n) < Pow2(k)
  {
    if n > 0 {
      if k == 0 {
        OrZero(n);
      } else {
        OrBelow(a / 2, b / 2, n - 1, k - 1);
      }
    }
  }

  lemma {:induction false} OrZero(n: nat)
    ensures Or(0, 0, n) == 0
  {
    if n > 0 { OrZero(n - 1); }
  }

  /// After `a | m`, every bit of a nonzero `m` below bit `n` tests set.
  lemma {:induction false} OrThenAnd(a: nat, m: nat, n: nat)
    requires 0 < m < Pow2(n)
    ensures And(Or(a, m, n), m, n) != 0
  {
    var o := Or(a, m, n);
    Halves(BitOr(a, m), Or(a / 2, m / 2, n - 1));
    if m % 2 == 0 {
      OrThenAnd(a / 2, m / 2, n - 1);
    }
  }

  /// After `a & !m`, no bit of `m` tests set.
  lemma {:induction false} AndNotThenAnd(a: nat, m: nat, n: nat)
    ensures And(AndNot(a, m, n), m, n) == 0
  {
    if n > 0 {
      Halves(BitAndNot(a, m), AndNot(a / 2, m / 2, n - 1));
      AndNotThenAnd(a / 2, m / 2, n - 1);
    }
  }

  /// A bit pattern that shares no bit with `m` reads the same after `a | m`.
  lemma {:induction false} OrDisjoint(a: nat, m: nat, o: nat, n: nat)
    requires And(o, m, n) == 0
    ensures And(Or(a, m, n), o, n) == And(a, o, n)
  {
    if n > 0 {
      Halves(BitOr(a, m), Or(a / 2, m / 2, n - 1));
      OrDisjoint(a / 2, m / 2, o / 2, n - 1);
    }
  }

  /// A bit pattern that shares no bit with `m` reads the same after `a & !m`.
  lemma {:induction false} AndNotDisjoint(a: nat, m: nat, o: nat, n: nat)
    requires And(o, m, n) == 0
    ensures And(AndNot(a, m, n), o, n) == And(a, o, n)
  {
    if n > 0 {
      Halves(BitAndNot(a, m), AndNot(a / 2, m / 2, n - 1));
      AndNotDisjoint(a / 2, m / 2, o / 2, n - 1);
    }
  }

  /// Clearing then setting a mask wholly set in `a` gives `a` back.
  lemma {:induction false} AndNotThenOr(a: nat, m: nat, n: nat)
    requires a < Pow2(n) && And(a, m, n) == m
    ensures Or(AndNot(a, m, n), m, n) == a
  {
    if n > 0 {
      Halves(BitAndNot(a, m), AndNot(a / 2, m / 2, n - 1));
      Halves(BitAnd(a, m), And(a / 2, m / 2, n - 1));
      Halves(m % 2, m / 2);
      AndNotThenOr(a / 2, m / 2, n - 1);
    }
  }

  /// A pattern with some bit inside a larger mask tests set against it too.
  lemma {:induction false} AndSubmask(a: nat, m: nat, big: nat, n: nat)
    requires And(m, big, n) == m && And(a, m, n) != 0
    ensures And(a, big, n) != 0
  {
    if n > 0 {
      Halves(BitAnd(m, big), And(m / 2, big / 2, n - 1));
      Halves(m % 2, m / 2);
      if BitAnd(a, m) == 0 {
        AndSubmask(a / 2, m / 2, big / 2, n - 1);
      }
    }
  }

  // ---------------------------------------------------------------- word lemmas

  /// Setting a mask that fits the word's width keeps the word within it.
  lemma SetKeepsWidth(value: Word, mask: Word, width: nat)
    requires Fits(value, width) && Fits(mask, width)
    ensures Fits(Set(value, mask), width)
  {
    Pow2Widths();
    if width == 1 {
      OrBelow(value, mask, WordBits, 8);
    } else if width == 2 {
      OrBelow(value, mask, WordBits, 16);
    }
  }

  /// Clearing a mask keeps any word within its width.
  lemma UnsetKeepsWidth(value: Word, mask: Word, width: nat)
    requires Fits(value, width)
    ensures Fits(Unset(value, mask), width)
  {
    Pow2Widths();
    AndNotBelow(value, mask, WordBits);
  }

  lemma {:induction false} AndNotBelow(a: nat, m: nat, n: nat)
    ensures AndNot(a, m, n) <= a
  {
    if n > 0 {
      AndNotBelow(a / 2, m / 2, n - 1);
    }
  }

  /// A set flag reads back as set and a cleared one as clear.
  lemma SetThenTest(value: Word, mask: Word)
    requires mask != 0
    ensures Test(Set(value, mask), mask)
    ensures !Test(Unset(value, mask), mask)
  {
    Pow2Widths();
    OrThenAnd(value, mask, WordBits);
    AndNotThenAnd(value, mask, WordBits);
  }

  /// Setting or clearing one mask leaves the answer for every disjoint
  /// mask as it was.
  lemma DisjointFlagsUnaffected(value: Word, mask: Word, other: Word)
    requires And(other, mask, WordBits) == 0
    ensures Test(Set(value, mask), other) <==> Test(value, other)
    ensures Test(Unset(value, mask), other) <==> Test(value, other)
  {
    OrDisjoint(value, mask, other, WordBits);
    AndNotDisjoint(value, mask, other, WordBits);
  }

  /// Clearing then setting a mask gives back the original word when the
  /// mask was wholly set.
  lemma UnsetThenSet(value: Word, mask: Word)
    requires And(value, mask, WordBits) == mask
    ensures Set(Unset(value, mask), mask) == value
  {
    Pow2Widths();
    AndNotThenOr(value, mask, WordBits);
  }

  /// When every bit of `small` belongs to `big`, a word that has `small`
  /// has `big`: `x()` asks for any bit, not all of them.
  lemma HasSubmask(value: Word, small: Word, big: Word)
    requires And(small, big, WordBits) == small && Has(value, small)
    ensures Has(value, big)
  {
    AndSubmask(value, small, big, WordBits);
  }

  lemma {:induction false} SelfAnd(a: nat, n: nat)
    requires a < Pow2(n)
    ensures And(a, a, n) == a
  {
    if n > 0 { SelfAnd(a / 2, n - 1); }
  }

  /// An even number shares all its bits with its successor.
  lemma EvenAndSucc(a: nat, n: nat)
    requires a % 2 == 0 && a < Pow2(n)
    ensures And(a, a + 1, n) == a
  {
    if n > 0 {
      assert (a + 1) / 2 == a / 2;
      SelfAnd(a / 2, n - 1);
    }
  }

  /// A mask `a` with its lowest bit clear lies within `a + 1`, so any word
  /// that has `a` has `a + 1`.
  lemma HasEvenThenSucc(v: Word, a: Word)
    requires a % 2 == 0 && a + 1 < 0x1_0000_0000 && Has(v, a)
    ensures Has(v, a + 1)
  {
    Pow2Widths();
    EvenAndSucc(a, WordBits);
    HasSubmask(v, a, a + 1);
  }

  lemma {:induction false} AndOfZero(m: nat, n: nat)
    ensures And(0, m, n) == 0
  {
    if n > 0 { AndOfZero(m / 2, n - 1); }
  }

  lemma {:induction false} AndWithZero(a: nat, n: nat)
    ensures And(a, 0, n) == 0
  {
    if n > 0 { AndWithZero(a / 2, n - 1); }
  }

  /// The lowest flag is set exactly in the odd words.
  lemma HasLowBit(v: Word)
    ensures Has(v, 1) <==> v % 2 == 1
  {
    AndWithZero(v / 2, WordBits - 1);
  }

  /// The second flag is set exactly in the words whose second bit is.
  lemma HasSecondBit(v: Word)
    ensures Has(v, 2) <==> (v / 2) % 2 == 1
  {
    assert v / 2 / 2 == v / 4;
    AndWithZero(v / 4, WordBits - 2);
    assert And(v / 2, 1, WordBits - 1) == BitAnd(v / 2, 1);
  }

  /// A mask of the two lowest bits is set exactly when either of them is.
  lemma HasLowTwoBits(v: Word)
    ensures Has(v, 3) <==> Has(v, 1) || Has(v, 2)
  {
    HasLowBit(v);
    HasSecondBit(v);
    assert v / 2 / 2 == v / 4;
    AndWithZero(v / 4, WordBits - 2);
    assert And(v / 2, 1, WordBits - 1) == BitAnd(v / 2, 1);
  }

  /// The two lowest flags share no bit.
  lemma LowFlagsDisjoint()
    ensures And(1, 2, WordBits) == 0 && And(2, 1, WordBits) == 0
  {
    OneAndTwo(1, 2, WordBits);
  }

  lemma OneAndTwo(one: nat, two: nat, n: nat)
    requires one == 1 && two == 2 && n > 0
    ensures And(one, two, n) == 0 && And(two, one, n) == 0
  {
    assert one / 2 == 0 && two / 2 == 1;
    AndOfZero(1, n - 1);
    AndWithZero(1, n - 1);
  }

  lemma {:induction false} OrFromZero(m: nat, n: nat)
    requires m < Pow2(n)
    ensures Or(0, m, n) == m
  {
    if n > 0 {
      Halves(m % 2, m / 2);
      OrFromZero(m / 2, n - 1);
    }
  }

  lemma {:induction false} OrWithZero(a: nat, n: nat)
    requires a < Pow2(n)
    ensures Or(a, 0, n) == a
  {
    if n > 0 {
      Halves(a % 2, a / 2);
      OrWithZero(a / 2, n - 1);
    }
  }

  /// `new_empty().set_x()` holds exactly the mask.
  lemma EmptyWith(mask: Word)
    ensures With(0, mask) == mask
  {
    Pow2Widths();
    OrFromZero(mask, WordBits);
  }

  /// The empty word has no flag.
  lemma EmptyHasNothing(mask: Word)
    ensures !Has(0, mask)
  {
    AndOfZero(mask, WordBits);
  }

  /// A word and a mask that share their lowest bit: the flag is set.
  lemma LowBitHas(v: Word, mask: Word)
    requires v % 2 == 1 && mask % 2 == 1
    ensures Has(v, mask)
  {
  }

  /// Setting a mask on a field of one or two bytes keeps it within them
  /// when the mask is.
  lemma WithKeepsWidth(v: Word, mask: Word)
    ensures v < 0x100 && mask < 0x100 ==> With(v, mask) < 0x100
    ensures v < 0x1_0000 && mask < 0x1_0000 ==> With(v, mask) < 0x1_0000
  {
    if v < 0x100 && mask < 0x100 { SetKeepsWidth(v, mask, 1); }
    if v < 0x1_0000 && mask < 0x1_0000 { SetKeepsWidth(v, mask, 2); }
  }

  /// The flag word of `width` bytes with the given mutable value.
  class FlagsWord {
    var value: Word
    const width: nat

    ghost predicate Valid()
      reads this
    {
      Fits(value, width)
    }

    /// `new_empty`
    constructor NewEmpty(width: nat)
      requires width in {1, 2, 4}
      ensures Valid() && this.width == width && value == 0
    {
      this.width := width;
      value := 0;
    }

    /// `From<underlying>`: the flags word holding `v`.
    constructor FromValue(width: nat, v: Word)
      requires Fits(v, width)
      ensures Valid() && this.width == width && value == v
    {
      this.width := width;
      value := v;
    }

    /// The query `x()` on the current value.
    predicate Has(mask: Word)
      reads this
    {
      Test(value, mask)
    }

    /// `set_x`: set the bits of `mask` and return a copy of the new word.
    method SetFlag(mask: Word) returns (copy: Word)
      requires Valid() && Fits(mask, width)
      modifies this
      ensures Valid() && value == Set(old(value), mask) && copy == value
      ensures mask != 0 ==> Has(mask)
    {
      SetKeepsWidth(value, mask, width);
      if mask != 0 { SetThenTest(value, mask); }
      value := Set(value, mask);
      copy := value;
    }

    /// `unset_x`: clear exactly the bits of `mask` and return a copy.
    method UnsetFlag(mask: Word) returns (copy: Word)
      requires Valid()
      modifies this
      ensures Valid() && value == Unset(old(value), mask) && copy == value
      ensures !Has(mask)
    {
      UnsetKeepsWidth(value, mask, width);
      if mask != 0 { SetThenTest(value, mask); } else { AndNotThenAnd(value, mask, WordBits); }
      value := Unset(value, mask);
      copy := value;
    }
  }

  /// `a >> k`
  function Shift(a: nat, k: nat): nat
  {
    if k == 0 then a else Shift(a / 2, k - 1)
  }

  /// A single-bit mask `1 << k` is set in `a` exactly when bit `k` of `a` is.
  lemma {:induction false} AndSingleBit(a: nat, k: nat, n: nat)
    requires k < n
    ensures And(a, Pow2(k), n) != 0 <==> Shift(a, k) % 2 == 1
  {
    if k == 0 {
      AndWithZero(a / 2, n - 1);
    } else {
      AndSingleBit(a / 2, k - 1, n - 1);
    }
  }

  lemma ShiftSeven(a: nat)
    ensures Shift(a, 7) == a / 128
  {
    assert Shift(a, 7) == Shift(a / 2, 6) == Shift(a / 4, 5) == Shift(a / 8, 4);
    assert Shift(a / 8, 4) == Shift(a / 16, 3) == Shift(a / 32, 2) == Shift(a / 64, 1) == a / 128;
  }

  /// The top bit of a byte, `0x80`, is set exactly in the bytes from 0x80 on.
  lemma HasByteTopBit(v: Word)
    requires v < 0x100
    ensures Has(v, 0x80) <==> v >= 0x80
  {
    assert Pow2(7) == 0x80;
    AndSingleBit(v, 7, WordBits);
    ShiftSeven(v);
  }
}
