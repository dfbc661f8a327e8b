/** Addresses as 64-bit words: the shifts and masks of the index macros compute on the words what
    PageOf and VirtOf compute on the numbers the words stand for.
 */
module AddressBits {
  import opened PageTables

  function Pow2(n: nat): (p: nat)
    ensures p > 0
  {
    if n == 0 then 1 else 2 * Pow2(n - 1)
  }

  /** The number the lowest `n` bits of a word stand for. */
  function Value(x: bv64, n: nat): nat {
    if n == 0 then 0 else 2 * Value(x >> 1, n - 1) + if x & 1 == 1 then 1 else 0
  }

  function Shift(x: bv64, n: nat): bv64 {
    if n == 0 then x else Shift(x >> 1, n - 1)
  }

  lemma {:induction false} ValueBound(x: bv64, n: nat)
    ensures Value(x, n) < Pow2(n)
  {
    if n > 0 { ValueBound(x >> 1, n - 1); }
  }

  lemma {:induction false} ValueZero(n: nat)
    ensures Value(0, n) == 0
  {
    if n > 0 {
      assert (0 as bv64) >> 1 == 0;
      ValueZero(n - 1);
    }
  }

  /** The low bits and the bits above them. */
  lemma {:induction false} ValueSplit(x: bv64, a: nat, b: nat)
    ensures Value(x, a + b) == Value(x, a) + Pow2(a) * Value(Shift(x, a), b)
  {
    if a > 0 {
      ValueSplit(x >> 1, a - 1, b);
      Doubled(Pow2(a - 1), Value(Shift(x, a), b));
    }
  }

  lemma Doubled(p: nat, v: nat)
    ensures 2 * (p * v) == (2 * p) * v
  {}

  lemma {:induction false} ShiftSum(x: bv64, a: nat, b: nat)
    ensures Shift(x, a + b) == Shift(Shift(x, a), b)
  {
    if a > 0 { ShiftSum(x >> 1, a - 1, b); }
  }

  // The numbers of bits are arguments, so that the definitions are not unrolled bit by bit.

  lemma Shift1(x: bv64, n: nat)
    requires n == 1
    ensures Shift(x, n) == x >> 1
  {}

  lemma ThreeOnes(x: bv64)
    ensures ((x >> 1) >> 1) >> 1 == x >> 3
  {}

  lemma Shift3(x: bv64, n: nat)
    requires n == 3
    ensures Shift(x, n) == x >> 3
  {
    var a: nat := n - 2;
    var y := x >> 1;
    var z := y >> 1;
    ShiftSum(x, a, a + a);
    ShiftSum(y, a, a);
    Shift1(x, a);
    Shift1(y, a);
    Shift1(z, a);
    ThreeOnes(x);
  }

  lemma ThreeThrees(x: bv64)
    ensures ((x >> 3) >> 3) >> 3 == x >> 9
  {}

  lemma Shift9(x: bv64, n: nat)
    requires n == 9
    ensures Shift(x, n) == x >> 9
  {
    var a: nat := n - 6;
    var y := x >> 3;
    var z := y >> 3;
    ShiftSum(x, a, a + a);
    ShiftSum(y, a, a);
    Shift3(x, a);
    Shift3(y, a);
    Shift3(z, a);
    ThreeThrees(x);
  }

  /** Nine bits more. */
  lemma ShiftOn(x: bv64, a: nat, y: bv64, n: nat)
    requires Shift(x, a) == y && n == a + 9
    ensures Shift(x, n) == y >> 9
  {
    ShiftSum(x, a, n - a);
    Shift9(y, n - a);
  }

  lemma NineMore(x: bv64)
    ensures (x >> 3) >> 9 == x >> 12 && (x >> 12) >> 9 == x >> 21
    ensures (x >> 21) >> 9 == x >> 30 && (x >> 30) >> 9 == x >> 39
  {}

  lemma Shift12(x: bv64, n: nat)
    requires n == 12
    ensures Shift(x, n) == x >> 12
  {
    Shift3(x, n - 9);
    ShiftOn(x, n - 9, x >> 3, n);
    NineMore(x);
  }

  lemma Shift21(x: bv64, n: nat)
    requires n == 21
    ensures Shift(x, n) == x >> 21
  {
    Shift12(x, n - 9);
    ShiftOn(x, n - 9, x >> 12, n);
    NineMore(x);
  }

  lemma Shift30(x: bv64, n: nat)
    requires n == 30
    ensures Shift(x, n) == x >> 30
  {
    Shift21(x, n - 9);
    ShiftOn(x, n - 9, x >> 21, n);
    NineMore(x);
  }

  lemma Shift39(x: bv64, n: nat)
    requires n == 39
    ensures Shift(x, n) == x >> 39
  {
    Shift30(x, n - 9);
    ShiftOn(x, n - 9, x >> 30, n);
    NineMore(x);
  }

  /** The `n` lowest bits of `m` are set and no other. */
  predicate IsMask(m: bv64, n: nat) {
    if n == 0 then m == 0 else m & 1 == 1 && IsMask(m >> 1, n - 1)
  }

  lemma Mask9()
    ensures IsMask(0x1FF, 9)
  {
    assert IsMask(7, 3) by { assert IsMask(1, 1); assert IsMask(3, 2); }
    assert IsMask(0x3F, 6) by { assert IsMask(0xF, 4); assert IsMask(0x1F, 5); }
    assert IsMask(0x7F, 7);
    assert IsMask(0xFF, 8);
  }

  lemma Mask12()
    ensures IsMask(0xFFF, 12)
  {
    Mask9();
    assert IsMask(0x3FF, 10);
    assert IsMask(0x7FF, 11);
  }

  lemma AndShift(x: bv64, m: bv64)
    ensures (x & m) >> 1 == (x >> 1) & (m >> 1)
  {}

  lemma AndBit(x: bv64, m: bv64)
    requires m & 1 == 1
    ensures (x & m) & 1 == x & 1
  {}

  lemma AndZero(x: bv64, m: bv64)
    requires m == 0
    ensures x & m == 0
  {}

  lemma MaskNone(x: bv64, m: bv64, all: nat)
    requires m == 0
    ensures Value(x & m, all) == 0
  {
    AndZero(x, m);
    ValueZero(all);
  }

  /** One bit of a number. */
  lemma ValueStep(x: bv64, n: nat, bit: bv64, rest: bv64)
    requires n > 0 && bit == x & 1 && rest == x >> 1
    ensures Value(x, n) == 2 * Value(rest, n - 1) + if bit == 1 then 1 else 0
  {}

  lemma MaskStep(x: bv64, m: bv64, n: nat, all: nat)
    requires 0 < n <= all && m & 1 == 1 && Value((x >> 1) & (m >> 1), all - 1) == Value(x >> 1, n - 1)
    ensures Value(x & m, all) == Value(x, n)
  {
    AndShift(x, m);
    AndBit(x, m);
    ValueStep(x & m, all, x & 1, (x >> 1) & (m >> 1));
    ValueStep(x, n, x & 1, x >> 1);
  }

  lemma MaskTail(m: bv64, n: nat, m': bv64)
    requires n > 0 && IsMask(m, n) && m' == m >> 1
    ensures m & 1 == 1 && IsMask(m', n - 1)
  {}

  /** Masking leaves the low bits. */
  lemma {:induction false} MaskValue(x: bv64, m: bv64, n: nat, all: nat)
    requires IsMask(m, n) && n <= all
    ensures Value(x & m, all) == Value(x, n)
    decreases n, 1
  {
    if n == 0 {
      MaskNone(x, m, all);
    } else {
      MaskMore(x, m, x >> 1, m >> 1, n, all);
    }
  }

  lemma {:induction false} MaskMore(x: bv64, m: bv64, x': bv64, m': bv64, n: nat, all: nat)
    requires 0 < n <= all && IsMask(m, n) && x' == x >> 1 && m' == m >> 1
    ensures Value(x & m, all) == Value(x, n)
    decreases n, 0
  {
    MaskTail(m, n, m');
    MaskValue(x', m', n - 1, all - 1);
    MaskStep(x, m, n, all);
  }

  lemma Powers()
    ensures Pow2(9) == 512 && Pow2(12) == 4096 && Pow2(21) == 0x20_0000 && Pow2(30) == 0x4000_0000 && Pow2(39) == 0x80_0000_0000
  {
    assert Pow2(3) == 8;
    PowSum(3, 6);
    PowSum(3, 3);
    PowSum(3, 9);
    PowSum(12, 9);
    PowSum(21, 9);
    PowSum(30, 9);
  }

  lemma NinePower()
    ensures Pow2(9) == 512
  {
    PowSum(3, 6);
    PowSum(3, 3);
  }

  lemma {:induction false} PowSum(a: nat, b: nat)
    ensures Pow2(a + b) == Pow2(a) * Pow2(b)
  {
    if a > 0 {
      PowSum(a - 1, b);
      Doubled(Pow2(a - 1), Pow2(b));
    }
  }

  lemma DivMod(v: nat, low: nat, p: nat, mid: nat, high: nat)
    requires p > 0 && low < p && mid < 512 && v == low + p * (mid + 512 * high)
    ensures v / p % 512 == mid
  {
    var q := mid + 512 * high;
    assert v == p * q + low;
    DivIs(v, p, q, low);
  }

  lemma DivIs(v: nat, p: nat, q: nat, r: nat)
    requires p > 0 && v == p * q + r && r < p
    ensures v / p == q
  {
    var d := v / p - q;
    assert v == p * (v / p) + v % p;
    assert p * d == p * (v / p) - p * q;
    SmallMultiple(p, d);
  }

  lemma AtLeastOnce(p: nat, d: nat)
    requires d > 0
    ensures p * d >= p
  {
    var e: nat := d - 1;
    assert p * d == p * e + p;
  }

  lemma Negated(p: nat, d: int)
    ensures p * d == -(p * -d)
  {}

  lemma SmallMultiple(p: nat, d: int)
    requires 0 < p * d + p && p * d < p
    ensures d == 0
  {
    Negated(p, d);
    if d > 0 {
      AtLeastOnce(p, d);
    } else if d < 0 {
      AtLeastOnce(p, -d);
    }
  }

  /** One index: nine bits from bit `a` on. */
  lemma IndexBits(x: bv64, y: bv64, a: nat)
    requires a + 9 <= 64 && y == Shift(x, a)
    ensures Value(x, 64) / Pow2(a) % 512 == Value(y & 0x1FF, 64) < 512
  {
    LowNine(y, 9, 64);
    ValueBound(x, a);
    NineThenRest(x, y, a, 9, 64);
    DivMod(Value(x, 64), Value(x, a), Pow2(a), Value(y & 0x1FF, 64), Value(Shift(y, 9), 55 - a));
  }

  lemma LowNine(y: bv64, n: nat, all: nat)
    requires n == 9 && all == 64
    ensures Value(y & 0x1FF, all) == Value(y, n) < 512
  {
    Mask9();
    MaskValue(y, 0x1FF, n, all);
    NinePower();
    ValueBound(y, n);
  }

  lemma NineThenRest(x: bv64, y: bv64, a: nat, n: nat, all: nat)
    requires a + n <= all && n == 9 && y == Shift(x, a)
    ensures Value(x, all) == Value(x, a) + Pow2(a) * (Value(y, n) + 512 * Value(Shift(y, n), all - n - a))
  {
    NinePower();
    ValueSplit(x, a, all - a);
    ValueSplit(y, n, all - n - a);
  }

  function IndexOf(x: bv64): (i: Index)
    ensures i == Value(x & 0x1FF, 64)
  {
    LowNine(x, 9, 64);
    Value(x & 0x1FF, 64)
  }

  lemma Index30(x: bv64, a: nat)
    requires a == 30
    ensures Value(x, 64) / 0x4000_0000 % 512 == Value((x >> 30) & 0x1FF, 64)
  {
    Shift30(x, a);
    Powers();
    IndexBits(x, x >> 30, a);
  }

  lemma Index21(x: bv64, a: nat)
    requires a == 21
    ensures Value(x, 64) / 0x20_0000 % 512 == Value((x >> 21) & 0x1FF, 64)
  {
    Shift21(x, a);
    Powers();
    IndexBits(x, x >> 21, a);
  }

  lemma Index12(x: bv64, a: nat)
    requires a == 12
    ensures Value(x, 64) / 4096 % 512 == Value((x >> 12) & 0x1FF, 64)
  {
    Shift12(x, a);
    Powers();
    IndexBits(x, x >> 12, a);
  }

  /** GET_PML3_INDEX, GET_PML2_INDEX and GET_PML1_INDEX, on the word and on its number. */
  lemma PageOfBits(virt: bv64)
    ensures PageOf(Value(virt, 64)) == VPage(IndexOf(virt >> 30), IndexOf(virt >> 21), IndexOf(virt >> 12))
  {
    Index30(virt, 30);
    Index21(virt, 21);
    Index12(virt, 12);
  }

  lemma IndexMasked(i: bv64)
    requires i < 512
    ensures i & 0x1FF == i
  {}

  lemma BuiltWord(i: bv64, j: bv64, k: bv64)
    requires i < 512 && j < 512 && k < 512
    ensures var virt := (k << 12) | (j << 21) | (i << 30); virt & 0xFFF == 0 && virt >> 39 == 0
  {}

  /** (k << 12) | (j << 21) | (i << 30), on the words and on their numbers. */
  lemma VirtOfBits(i: bv64, j: bv64, k: bv64)
    requires i < 512 && j < 512 && k < 512
    ensures Value((k << 12) | (j << 21) | (i << 30), 64) == VirtOf(VPage(IndexOf(i), IndexOf(j), IndexOf(k)))
  {
    var virt := (k << 12) | (j << 21) | (i << 30);
    ShiftsInvert(i, j, k);
    IndexMasked(i);
    IndexMasked(j);
    IndexMasked(k);
    BuiltWord(i, j, k);
    FromIndices(virt, i, j, k);
  }

  lemma FromIndices(virt: bv64, i: bv64, j: bv64, k: bv64)
    requires virt & 0xFFF == 0 && virt >> 39 == 0 && i & 0x1FF == i && j & 0x1FF == j && k & 0x1FF == k
    requires (virt >> 30) & 0x1FF == i && (virt >> 21) & 0x1FF == j && (virt >> 12) & 0x1FF == k
    ensures Value(virt, 64) == VirtOf(VPage(IndexOf(i), IndexOf(j), IndexOf(k)))
  {
    PageOfBits(virt);
    LowZero(virt);
    HighZero(virt, 39);
    AddressInvert(Value(virt, 64));
  }

  lemma LowZero(x: bv64)
    requires x & 0xFFF == 0
    ensures Value(x, 64) % 4096 == 0
  {
    Mask12();
    MaskValue(x, 0xFFF, 12, 64);
    ValueZero(64);
    ValueSplit(x, 12, 52);
    Powers();
  }

  lemma HighZero(x: bv64, a: nat)
    requires x >> 39 == 0 && a == 39
    ensures Value(x, 64) < 0x80_0000_0000
  {
    Shift39(x, a);
    ValueSplit(x, a, 25);
    ValueZero(25);
    ValueBound(x, a);
    Powers();
  }
}
