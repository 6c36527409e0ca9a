/** Unsigned words as naturals, with the bitwise operators the kernel uses on its
    priority bitmaps, and the table-driven "find first set" of kservice.c.
 */
module Bits {

  /** Bit `p` of `v`, counting from the least significant. */
  predicate Bit(v: nat, p: nat) {
    if p == 0 then v % 2 == 1 else Bit(v / 2, p - 1)
  }

  /** `1 << p` */
  function Mask(p: nat): (m: nat)
    ensures m > 0
  {
    if p == 0 then 1 else 2 * Mask(p - 1)
  }

  /** `a | b` */
  function Or(a: nat, b: nat): nat {
    if a == 0 then b else (if a % 2 == 1 || b % 2 == 1 then 1 else 0) + 2 * Or(a / 2, b / 2)
  }

  /** `a & ~b` */
  function AndNot(a: nat, b: nat): nat {
    if a == 0 then 0 else (if a % 2 == 1 && b % 2 == 0 then 1 else 0) + 2 * AndNot(a / 2, b / 2)
  }

  lemma {:induction false} ZeroHasNoBits(p: nat)
    ensures !Bit(0, p)
  {
    if p > 0 { ZeroHasNoBits(p - 1); }
  }

  lemma {:induction false} MaskBit(p: nat, q: nat)
    ensures Bit(Mask(p), q) <==> p == q
  {
    if p > 0 && q > 0 {
      MaskBit(p - 1, q - 1);
    } else if p == 0 && q > 0 {
      ZeroHasNoBits(q - 1);
    }
  }

  lemma {:induction false} OrBit(a: nat, b: nat, p: nat)
    ensures Bit(Or(a, b), p) <==> Bit(a, p) || Bit(b, p)
  {
    if a == 0 {
      ZeroHasNoBits(p);
    } else if p > 0 {
      OrBit(a / 2, b / 2, p - 1);
    }
  }

  lemma {:induction false} AndNotBit(a: nat, b: nat, p: nat)
    ensures Bit(AndNot(a, b), p) <==> Bit(a, p) && !Bit(b, p)
  {
    if a == 0 {
      ZeroHasNoBits(p);
    } else if p > 0 {
      AndNotBit(a / 2, b / 2, p - 1);
    }
  }

  /** Every set bit of an `n`-bit word is below `n`. */
  lemma {:induction false} BitBelow(v: nat, n: nat, p: nat)
    requires v < Mask(n) && Bit(v, p)
    ensures p < n
  {
    if n == 0 {
      ZeroHasNoBits(p);
    } else if p > 0 {
      BitBelow(v / 2, n - 1, p - 1);
    }
  }

  lemma {:induction false} OrBelow(a: nat, b: nat, n: nat)
    requires a < Mask(n) && b < Mask(n)
    ensures Or(a, b) < Mask(n)
  {
    if a != 0 && n > 0 { OrBelow(a / 2, b / 2, n - 1); }
  }

  lemma {:induction false} AndNotBelow(a: nat, b: nat)
    ensures AndNot(a, b) <= a
  {
    if a != 0 { AndNotBelow(a / 2, b / 2); }
  }

  lemma {:induction false} MaskBelow(p: nat, n: nat)
    requires p < n
    ensures Mask(p) < Mask(n)
  {
    if p > 0 { MaskBelow(p - 1, n - 1); }
  }

  lemma Mask32()
    ensures Mask(8) == 0x100 && Mask(32) == 0x1_0000_0000
  {
    assert Mask(8) == 0x100;
    assert Mask(16) == 0x1_0000 by { assert Mask(12) == 0x1000; }
    assert Mask(24) == 0x100_0000 by { assert Mask(20) == 0x10_0000; }
    assert Mask(32) == 0x1_0000_0000 by { assert Mask(28) == 0x1000_0000; }
  }

  /** The table `__lowest_bit_bitmap`: sixteen rows that differ in their first entry only. */
  const ROW_HEAD: seq<nat> := [0, 4, 5, 4, 6, 4, 5, 4, 7, 4, 5, 4, 6, 4, 5, 4]
  const ROW_TAIL: seq<nat> := [0, 1, 0, 2, 0, 1, 0, 3, 0, 1, 0, 2, 0, 1, 0]

  function LowestBitBitmap(b: nat): nat
    requires b < 256
  {
    if b % 16 == 0 then ROW_HEAD[b / 16] else ROW_TAIL[b % 16 - 1]
  }

  /** `__rt_ffs`: one plus the index of the lowest set bit of a 32-bit word, 0 for the word 0. */
  function Ffs(value: nat): (r: nat)
    requires value < 0x1_0000_0000
  {
    if value == 0 then 0
    else if value % 0x100 != 0 then LowestBitBitmap(value % 0x100) + 1
    else if value / 0x100 % 0x100 != 0 then LowestBitBitmap(value / 0x100 % 0x100) + 9
    else if value / 0x1_0000 % 0x100 != 0 then LowestBitBitmap(value / 0x1_0000 % 0x100) + 17
    else LowestBitBitmap(value / 0x100_0000) + 25
  }

  /** `p` is the lowest set bit of `v`. */
  ghost predicate Lowest(v: nat, p: nat) {
    Bit(v, p) && forall q :: 0 <= q < p ==> !Bit(v, q)
  }

  /** Bits of a word in terms of its last hexadecimal digit and the rest. */
  lemma NibbleBit(v: nat, p: nat)
    ensures Bit(v, p) == if p < 4 then Bit(v % 16, p) else Bit(v / 16, p - 4)
  {
    if p < 4 { LowNibbleBit(v, p); } else { HighNibbleBit(v, p - 4); }
  }

  lemma HighNibbleBit(v: nat, p: nat)
    ensures Bit(v, p + 4) == Bit(v / 16, p)
  {
    calc {
      Bit(v, p + 4);
      Bit(v / 2, p + 3);
      Bit(v / 4, p + 2);
      Bit(v / 8, p + 1);
      Bit(v / 16, p);
    }
  }

  lemma LowNibbleBit(v: nat, p: nat)
    requires p < 4
    ensures Bit(v, p) == Bit(v % 16, p)
  {
    FourBits(v, p);
    FourBits(v % 16, p);
    SameDigits(v / 16, v % 16);
  }

  lemma SameDigits(k: nat, r: nat)
    ensures (16 * k + r) % 2 == r % 2 && (16 * k + r) / 2 % 2 == r / 2 % 2
    ensures (16 * k + r) / 4 % 2 == r / 4 % 2 && (16 * k + r) / 8 % 2 == r / 8 % 2
  {
    Parity(8 * k, r);
    assert (16 * k + r) / 2 == 2 * (4 * k) + r / 2;
    Parity(4 * k, r / 2);
    assert (16 * k + r) / 4 == 2 * (2 * k) + r / 4;
    Parity(2 * k, r / 4);
    assert (16 * k + r) / 8 == 2 * k + r / 8;
    Parity(k, r / 8);
  }

  lemma Parity(k: nat, r: nat)
    ensures (2 * k + r) % 2 == r % 2
  {
  }

  lemma FourBits(v: nat, p: nat)
    requires p < 4
    ensures Bit(v, p) <==> (if p == 0 then v else if p == 1 then v / 2 else if p == 2 then v / 4 else v / 8) % 2 == 1
  {
    assert p > 1 ==> Bit(v / 2, p - 1) == Bit(v / 4, p - 2);
    assert p > 2 ==> Bit(v / 4, p - 2) == Bit(v / 8, p - 3);
  }

  lemma LowestDigit(n: nat)
    requires 0 < n < 16
    ensures Lowest(n, ROW_TAIL[n - 1]) && ROW_TAIL[n - 1] < 4
  {
    var p := ROW_TAIL[n - 1];
    assert n % 2 == 1 ==> p == 0;
    assert n % 4 == 2 ==> p == 1;
    assert n % 8 == 4 ==> p == 2;
    assert n % 16 == 8 ==> p == 3;
    assert Bit(n, 1) == Bit(n / 2, 0);
    assert Bit(n, 2) == Bit(n / 2 / 2, 0);
    assert Bit(n, 3) == Bit(n / 2 / 2, 1);
  }

  lemma LowestInDigit(v: nat, p: nat)
    requires p < 4 && Lowest(v % 16, p)
    ensures Lowest(v, p)
  {
    forall q | 0 <= q <= p ensures Bit(v, q) == Bit(v % 16, q) { NibbleBit(v, q); }
  }

  lemma LowestAboveDigit(v: nat, p: nat)
    requires v % 16 == 0 && Lowest(v / 16, p)
    ensures Lowest(v, p + 4)
  {
    NibbleBit(v, p + 4);
    forall q | 0 <= q < p + 4 ensures !Bit(v, q) {
      NibbleBit(v, q);
      if q < 4 { ZeroHasNoBits(q); } else { assert !Bit(v / 16, q - 4); }
    }
  }

  lemma ByteDigits(v: nat)
    ensures v % 256 % 16 == v % 16 && v % 256 / 16 == v / 16 % 16
  {
    var k, b := v / 256, v % 256;
    assert v == 16 * (16 * k) + b;
    assert v / 16 == 16 * k + b / 16;
  }

  lemma LowestInByte(v: nat)
    requires v % 256 != 0
    ensures Lowest(v, LowestBitBitmap(v % 256)) && LowestBitBitmap(v % 256) < 8
  {
    ByteDigits(v);
    var low, high := v % 16, v / 16 % 16;
    if low != 0 {
      LowestDigit(low);
      LowestInDigit(v, ROW_TAIL[low - 1]);
    } else {
      HighDigit(v, high);
    }
  }

  lemma HighDigit(v: nat, d: nat)
    requires v % 16 == 0 && d == v / 16 % 16 && d > 0
    ensures Lowest(v, ROW_HEAD[d]) && ROW_HEAD[d] < 8
  {
    LowestDigit(d);
    LowestInDigit(v / 16, ROW_TAIL[d - 1]);
    LowestAboveDigit(v, ROW_TAIL[d - 1]);
    assert ROW_HEAD[d] == ROW_TAIL[d - 1] + 4;
  }

  lemma LowestAboveByte(v: nat, p: nat)
    requires v % 256 == 0 && Lowest(v / 256, p)
    ensures Lowest(v, p + 8)
  {
    assert v / 16 / 16 == v / 256;
    LowestAboveDigit(v / 16, p);
    LowestAboveDigit(v, p + 4);
  }

  /** Looking at the `k` lowest bytes one after the other. */
  function LowestIn(v: nat, k: nat): nat
    decreases k
  {
    if k == 0 then 0 else if v % 256 != 0 then LowestBitBitmap(v % 256) else LowestIn(v / 256, k - 1) + 8
  }

  function Power256(k: nat): nat {
    if k == 0 then 1 else 256 * Power256(k - 1)
  }

  lemma {:induction false} LowestInIsLowest(v: nat, k: nat)
    requires 0 < v < Power256(k)
    ensures Lowest(v, LowestIn(v, k)) && LowestIn(v, k) < 8 * k
    decreases k
  {
    if v % 256 != 0 {
      LowestInByte(v);
    } else {
      assert v / 256 < Power256(k - 1);
      LowestInIsLowest(v / 256, k - 1);
      LowestAboveByte(v, LowestIn(v / 256, k - 1));
    }
  }

  /** The bytes that `__rt_ffs` masks out of the word, by repeated division. */
  lemma FourBytes(v: nat)
    requires v < 0x1_0000_0000
    ensures v / 0x1_0000 == v / 256 / 256 && v / 0x100_0000 == v / 256 / 256 / 256 < 256
  {
  }

  lemma FfsByBytes(v: nat)
    requires 0 < v < 0x1_0000_0000
    ensures Ffs(v) == LowestIn(v, 4) + 1
  {
    FourBytes(v);
    InFourBytes(v, v / 256, v / 256 / 256, v / 256 / 256 / 256);
  }

  lemma InFourBytes(v: nat, w: nat, x: nat, y: nat)
    requires w == v / 256 && x == w / 256 && y == x / 256 < 256 && v > 0
    ensures LowestIn(v, 4) ==
      if v % 256 != 0 then LowestBitBitmap(v % 256)
      else if w % 256 != 0 then LowestBitBitmap(w % 256) + 8
      else if x % 256 != 0 then LowestBitBitmap(x % 256) + 16
      else LowestBitBitmap(y) + 24
  {
    assert LowestIn(w, 3) == if w % 256 != 0 then LowestBitBitmap(w % 256) else LowestIn(x, 2) + 8;
    assert LowestIn(x, 2) == if x % 256 != 0 then LowestBitBitmap(x % 256) else LowestIn(y, 1) + 8;
    assert v % 256 == 0 && w % 256 == 0 && x % 256 == 0 ==> y % 256 == y != 0;
  }

  /** The table lookups of `__rt_ffs` find the lowest set bit, and 0 is returned for 0 only. */
  lemma FfsIsLowest(v: nat)
    requires v < 0x1_0000_0000
    ensures v == 0 <==> Ffs(v) == 0
    ensures v != 0 ==> Lowest(v, Ffs(v) - 1) && Ffs(v) <= 32
  {
    if v != 0 {
      assert Power256(4) == 0x1_0000_0000 by { assert Power256(2) == 0x1_0000; }
      LowestInIsLowest(v, 4);
      FfsByBytes(v);
    }
  }
}
