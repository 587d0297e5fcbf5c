/** Python's integer bit operations on non-negative integers, and the
    read-modify-write transform of a register field that every block of the
    F-engine builds its field writes on.

    Everything here is stated through Bit(x, i), bit i of x; two words are
    equal when their 32 bits are (WordsEqual). */
module Bits {

  /** A 32-bit register value as Python sees it: a non-negative integer. */
  type Word = w: int | 0 <= w < 0x1_0000_0000

  /** 2^n. */
  function Pow2(n: nat): (p: nat)
    ensures p >= 1
  {
    if n == 0 then 1 else 2 * Pow2(n - 1)
  }

  /** Python `(x >> i) & 1`. */
  function Bit(x: nat, i: nat): (b: nat)
    ensures b <= 1
  {
    if i == 0 then x % 2 else Bit(x / 2, i - 1)
  }

  /** Python `x & y`. */
  function And(x: nat, y: nat): (r: nat)
    ensures r <= x && r <= y
  {
    if x == 0 || y == 0 then 0
    else 2 * And(x / 2, y / 2) + (if x % 2 == 1 && y % 2 == 1 then 1 else 0)
  }

  /** Python `x | y`. */
  function Or(x: nat, y: nat): (r: nat)
    ensures r <= x + y
  {
    if x == 0 then y
    else if y == 0 then x
    else 2 * Or(x / 2, y / 2) + (if x % 2 == 1 || y % 2 == 1 then 1 else 0)
  }

  /** Python `x << s`. */
  function Shl(x: nat, s: nat): nat
  {
    x * Pow2(s)
  }

  /** Python `x >> s`. */
  function Shr(x: nat, s: nat): nat
  {
    var p := Pow2(s);
    DivNat(x, p);
    x / p
  }

  lemma DivNat(x: nat, p: nat)
    requires p > 0
    ensures x / p >= 0
  {
  }

  /** The bits [start, start + width): Python `(2**width - 1) << start`. */
  function FieldMask(start: nat, width: nat): nat
  {
    Shl(Pow2(width) - 1, start)
  }

  /** The value of bits [start, start + width) of w: Python `(w >> start) & (2**width - 1)`. */
  function Field(w: nat, start: nat, width: nat): nat
  {
    And(Shr(w, start), Pow2(width) - 1)
  }

  // ---------------------------------------------------------------------
  // Powers of two

  lemma {:induction false} Pow2Add(a: nat, b: nat)
    ensures Pow2(a + b) == Pow2(a) * Pow2(b)
  {
    if a > 0 {
      Pow2Add(a - 1, b);
      assert Pow2(a + b) == 2 * Pow2(a - 1 + b);
    }
  }

  lemma {:induction false} Pow2Monotone(a: nat, b: nat)
    requires a <= b
    ensures Pow2(a) <= Pow2(b)
  {
    if a < b {
      Pow2Monotone(a, b - 1);
    }
  }

  lemma Pow2Of32()
    ensures Pow2(32) == 0x1_0000_0000
  {
    assert Pow2(8) == 256;
    assert Pow2(16) == 256 * 256 by { Pow2Add(8, 8); }
    assert Pow2(32) == Pow2(16) * Pow2(16) by { Pow2Add(16, 16); }
  }

  /** The powers of two the register layouts use. */
  lemma Pow2Table()
    ensures Pow2(1) == 2 && Pow2(4) == 16 && Pow2(7) == 128 && Pow2(8) == 256
    ensures Pow2(12) == 0x1000 && Pow2(16) == 0x1_0000 && Pow2(18) == 0x4_0000
    ensures Pow2(25) == 0x200_0000 && Pow2(31) == 0x8000_0000 && Pow2(32) == 0x1_0000_0000
  {
    assert Pow2(8) == 256;
    Pow2Add(8, 4);
    Pow2Add(8, 8);
    Pow2Add(16, 2);
    Pow2Add(16, 8);
    Pow2Add(24, 1);
    Pow2Add(24, 7);
    Pow2Of32();
  }

  /** (x / 2) / 2^s is x / 2^(s + 1): shifting right by one and then by s. */
  lemma HalveShr(x: nat, s: nat)
    ensures (x / 2) / Pow2(s) == x / Pow2(s + 1)
  {
    var p := Pow2(s);
    var q, a, b := x / 2, (x / 2) / p, (x / 2) % p;
    assert q == p * a + b && 0 <= b < p;
    assert x == (2 * p) * a + (2 * b + x % 2);
    DivUnique(x, 2 * p, a, 2 * b + x % 2);
  }

  lemma DivUnique(x: nat, d: nat, a: nat, m: nat)
    requires d > 0 && x == d * a + m && m < d
    ensures x / d == a && x % d == m
  {
    var a', m' := x / d, x % d;
    assert d * a + m == d * a' + m';
    if a' < a {
      assert d * a >= d * (a' + 1) by { MulMonotone(a' + 1, a, d); }
      assert false;
    } else if a < a' {
      assert d * a' >= d * (a + 1) by { MulMonotone(a + 1, a', d); }
      assert false;
    }
  }

  lemma MulMonotone(a: nat, b: nat, c: nat)
    requires a <= b
    ensures c * a <= c * b && a * c <= b * c
  {
  }

  // ---------------------------------------------------------------------
  // Bits of the basic operations

  lemma {:induction false} BitOfZero(i: nat)
    ensures Bit(0, i) == 0
  {
    if i > 0 {
      BitOfZero(i - 1);
    }
  }

  lemma {:induction false} BitAnd(x: nat, y: nat, i: nat)
    ensures Bit(And(x, y), i) == if Bit(x, i) == 1 && Bit(y, i) == 1 then 1 else 0
  {
    if x == 0 || y == 0 {
      BitOfZero(i);
    } else if i > 0 {
      BitAnd(x / 2, y / 2, i - 1);
      var b := if x % 2 == 1 && y % 2 == 1 then 1 else 0;
      assert (2 * And(x / 2, y / 2) + b) / 2 == And(x / 2, y / 2);
    }
  }

  lemma {:induction false} BitOr(x: nat, y: nat, i: nat)
    ensures Bit(Or(x, y), i) == if Bit(x, i) == 1 || Bit(y, i) == 1 then 1 else 0
  {
    if x == 0 {
      BitOfZero(i);
    } else if y == 0 {
      BitOfZero(i);
    } else if i > 0 {
      BitOr(x / 2, y / 2, i - 1);
      var b := if x % 2 == 1 || y % 2 == 1 then 1 else 0;
      assert (2 * Or(x / 2, y / 2) + b) / 2 == Or(x / 2, y / 2);
    }
  }

  lemma {:induction false} BitShl(x: nat, s: nat, i: nat)
    ensures Bit(Shl(x, s), i) == if i < s then 0 else Bit(x, i - s)
  {
    if s > 0 {
      var y := Shl(x, s - 1);
      assert Shl(x, s) == 2 * y;
      if i > 0 {
        assert (2 * y) / 2 == y;
        BitShl(x, s - 1, i - 1);
      }
    }
  }

  lemma {:induction false} BitShr(x: nat, s: nat, i: nat)
    ensures Bit(Shr(x, s), i) == Bit(x, s + i)
  {
    if s > 0 {
      HalveShr(x, s - 1);
      BitShr(x / 2, s - 1, i);
    }
  }

  /** 2^n - 1 has exactly the bits below n. */
  lemma {:induction false} BitLowMask(n: nat, i: nat)
    ensures Bit(Pow2(n) - 1, i) == if i < n then 1 else 0
  {
    if n == 0 {
      BitOfZero(i);
    } else if i > 0 {
      assert (Pow2(n) - 1) / 2 == Pow2(n - 1) - 1;
      BitLowMask(n - 1, i - 1);
    }
  }

  /** No bit at or above n is set in a number below 2^n. */
  lemma {:induction false} BitAbove(x: nat, n: nat, i: nat)
    requires x < Pow2(n) && n <= i
    ensures Bit(x, i) == 0
  {
    if n == 0 {
      BitOfZero(i);
    } else {
      BitAbove(x / 2, n - 1, i - 1);
    }
  }

  /** Subtracting from 2^n - 1 flips each of the low n bits. */
  lemma {:induction false} BitComplement(m: nat, n: nat, i: nat)
    requires m < Pow2(n) && i < n
    ensures Bit(Pow2(n) - 1 - m, i) == 1 - Bit(m, i)
  {
    var p, x := Pow2(n - 1), Pow2(n) - 1 - m;
    assert x == 2 * (p - 1 - m / 2) + (1 - m % 2);
    DivUnique(x, 2, p - 1 - m / 2, 1 - m % 2);
    if i > 0 {
      BitComplement(m / 2, n - 1, i - 1);
    }
  }

  /** Adding two numbers with no common bit adds them bit by bit (no carries). */
  lemma {:induction false} BitDisjointAdd(x: nat, y: nat, i: nat)
    requires And(x, y) == 0
    ensures Bit(x + y, i) == Bit(x, i) + Bit(y, i)
  {
    if x == 0 || y == 0 {
      BitOfZero(i);
    } else if i > 0 {
      assert (x + y) / 2 == x / 2 + y / 2;
      BitDisjointAdd(x / 2, y / 2, i - 1);
    }
  }

  /** Numbers below 2^n with the same low n bits are equal. */
  lemma {:induction false} BitsEqual(x: nat, y: nat, n: nat)
    requires x < Pow2(n) && y < Pow2(n)
    requires forall i :: 0 <= i < n ==> Bit(x, i) == Bit(y, i)
    ensures x == y
  {
    if n > 0 {
      forall i | 0 <= i < n - 1
        ensures Bit(x / 2, i) == Bit(y / 2, i)
      {
        assert Bit(x, i + 1) == Bit(y, i + 1);
      }
      BitsEqual(x / 2, y / 2, n - 1);
      assert Bit(x, 0) == Bit(y, 0);
    }
  }

  /** Two words are equal when their 32 bits are. */
  lemma WordsEqual(x: Word, y: Word)
    requires forall i :: 0 <= i < 32 ==> Bit(x, i) == Bit(y, i)
    ensures x == y
  {
    Pow2Of32();
    BitsEqual(x, y, 32);
  }

  /** Numbers below 2^n with no common bit among the low n have an empty And. */
  lemma NoCommonBits(x: nat, y: nat, n: nat)
    requires x < Pow2(n)
    requires forall i :: 0 <= i < n ==> Bit(x, i) == 0 || Bit(y, i) == 0
    ensures And(x, y) == 0
  {
    forall i | 0 <= i < n
      ensures Bit(And(x, y), i) == Bit(0, i)
    {
      BitAnd(x, y, i);
      BitOfZero(i);
    }
    BitsEqual(And(x, y), 0, n);
  }

  /** The field mask has exactly the bits [start, start + width), and lies below 2^(start + width). */
  lemma BitFieldMask(start: nat, width: nat, i: nat)
    ensures Bit(FieldMask(start, width), i) == if start <= i < start + width then 1 else 0
  {
    BitShl(Pow2(width) - 1, start, i);
    if start <= i {
      BitLowMask(width, i - start);
    }
  }

  lemma FieldMaskBound(start: nat, width: nat)
    ensures FieldMask(start, width) <= Pow2(start + width) - Pow2(start)
  {
    Pow2Add(width, start);
    assert FieldMask(start, width) == Pow2(width) * Pow2(start) - Pow2(start);
  }

  // ---------------------------------------------------------------------
  // The read-modify-write transform

  /** The mask change_reg_bits keeps: every bit of the 32 except the field. */
  function KeepMask(start: nat, width: nat): (m: nat)
    requires start + width <= 32
    ensures m + FieldMask(start, width) == 0xFFFF_FFFF
  {
    FieldMaskBound(start, width);
    Pow2Monotone(start + width, 32);
    Pow2Of32();
    0xFFFF_FFFF - FieldMask(start, width)
  }

  lemma BitKeepMask(start: nat, width: nat, i: nat)
    requires start + width <= 32 && i < 32
    ensures Bit(KeepMask(start, width), i) == if start <= i < start + width then 0 else 1
  {
    FieldMaskBound(start, width);
    Pow2Monotone(start + width, 32);
    Pow2Of32();
    BitComplement(FieldMask(start, width), 32, i);
    BitFieldMask(start, width, i);
  }

  /** Bit i of a register after writing val into its field [start, start + width). */
  function WrittenBit(orig: nat, val: nat, start: nat, width: nat, i: nat): nat
  {
    if start <= i < start + width then Bit(val, i - start) else Bit(orig, i)
  }

  /** The new register value of change_reg_bits:
      `(orig & mask) + (val << start)` with mask = KeepMask(start, width).
      It is the field write: bits inside [start, start + width) come from
      val, every other bit from orig. */
  function ChangeBits(orig: Word, val: nat, start: nat, width: nat): (r: Word)
    requires start + width <= 32
    requires val < Pow2(width)
    ensures forall i :: 0 <= i < 32 ==> Bit(r, i) == WrittenBit(orig, val, start, width, i)
  {
    ChangeBitsFacts(orig, val, start, width);
    And(orig, KeepMask(start, width)) + Shl(val, start)
  }

  /** Bit i of the two summands of ChangeBits: at most one is set, and the
      set one is the bit the field write promises. */
  lemma ChangeBitsPiece(orig: Word, val: nat, start: nat, width: nat, i: nat)
    requires start + width <= 32
    requires val < Pow2(width)
    requires i < 32
    ensures var a, b := And(orig, KeepMask(start, width)), Shl(val, start);
      && (Bit(a, i) == 0 || Bit(b, i) == 0)
      && Bit(a, i) + Bit(b, i) == WrittenBit(orig, val, start, width, i)
  {
    BitAnd(orig, KeepMask(start, width), i);
    BitKeepMask(start, width, i);
    BitShl(val, start, i);
    if start + width <= i {
      BitAbove(val, width, i - start);
    }
  }

  /** Two summands without a common bit: the bits of the sum are the sums of the bits. */
  lemma DisjointSumBits(a: nat, b: nat, orig: nat, val: nat, start: nat, width: nat)
    requires a < Pow2(32)
    requires forall i :: 0 <= i < 32 ==> Bit(a, i) == 0 || Bit(b, i) == 0
    requires forall i :: 0 <= i < 32 ==> Bit(a, i) + Bit(b, i) == WrittenBit(orig, val, start, width, i)
    ensures forall i :: 0 <= i < 32 ==> Bit(a + b, i) == WrittenBit(orig, val, start, width, i)
  {
    NoCommonBits(a, b, 32);
    forall i | 0 <= i < 32
      ensures Bit(a + b, i) == WrittenBit(orig, val, start, width, i)
    {
      BitDisjointAdd(a, b, i);
    }
  }

  lemma ChangeBitsFacts(orig: Word, val: nat, start: nat, width: nat)
    requires start + width <= 32
    requires val < Pow2(width)
    ensures And(orig, KeepMask(start, width)) + Shl(val, start) < 0x1_0000_0000
    ensures forall i :: 0 <= i < 32 ==>
      Bit(And(orig, KeepMask(start, width)) + Shl(val, start), i) == WrittenBit(orig, val, start, width, i)
  {
    var a, b := And(orig, KeepMask(start, width)), Shl(val, start);
    Pow2Of32();
    // b lies inside the field mask, a inside the kept bits
    assert b <= FieldMask(start, width) by {
      MulMonotone(val, Pow2(width) - 1, Pow2(start));
    }
    forall i | 0 <= i < 32
      ensures Bit(a, i) == 0 || Bit(b, i) == 0
      ensures Bit(a, i) + Bit(b, i) == WrittenBit(orig, val, start, width, i)
    {
      ChangeBitsPiece(orig, val, start, width, i);
    }
    DisjointSumBits(a, b, orig, val, start, width);
  }

  /** Reading the field back gives the value written. */
  lemma FieldOfChangeBits(orig: Word, val: nat, start: nat, width: nat)
    requires start + width <= 32
    requires val < Pow2(width)
    ensures Field(ChangeBits(orig, val, start, width), start, width) == val
  {
    var f := Field(ChangeBits(orig, val, start, width), start, width);
    forall i | 0 <= i < width
      ensures Bit(f, i) == Bit(val, i)
    {
      FieldBitOfChangeBits(orig, val, start, width, i);
    }
    FieldBelowWidth(ChangeBits(orig, val, start, width), start, width);
    BitsEqual(f, val, width);
  }

  lemma FieldBelowWidth(r: Word, start: nat, width: nat)
    requires start + width <= 32
    ensures Field(r, start, width) < Pow2(width)
  {
    Pow2Monotone(width, 32);
    assert Field(r, start, width) <= Pow2(width) - 1;
  }

  /** Bit i of the field read back is bit i of the value written. */
  lemma FieldBitOfChangeBits(orig: Word, val: nat, start: nat, width: nat, i: nat)
    requires start + width <= 32
    requires val < Pow2(width)
    requires i < width
    ensures Bit(Field(ChangeBits(orig, val, start, width), start, width), i) == Bit(val, i)
  {
    var r := ChangeBits(orig, val, start, width);
    var f := Field(r, start, width);
    var m := Pow2(width) - 1;
    BitAnd(Shr(r, start), m, i);
    BitLowMask(width, i);
    assert Bit(m, i) == 1;
    BitShr(r, start, i);
    var b := Bit(r, start + i);
    assert b == WrittenBit(orig, val, start, width, start + i) == Bit(val, i);
    assert Bit(f, i) == if b == 1 then 1 else 0;
  }

  /** Writing the same field value twice is the same as writing it once. */
  lemma ChangeBitsIdempotent(orig: Word, val: nat, start: nat, width: nat)
    requires start + width <= 32
    requires val < Pow2(width)
    ensures ChangeBits(ChangeBits(orig, val, start, width), val, start, width)
         == ChangeBits(orig, val, start, width)
  {
    WordsEqual(ChangeBits(ChangeBits(orig, val, start, width), val, start, width),
               ChangeBits(orig, val, start, width));
  }

  /** A later write of the same field overrides an earlier one. */
  lemma ChangeBitsOverrides(orig: Word, v1: nat, v2: nat, start: nat, width: nat)
    requires start + width <= 32
    requires v1 < Pow2(width) && v2 < Pow2(width)
    ensures ChangeBits(ChangeBits(orig, v1, start, width), v2, start, width)
         == ChangeBits(orig, v2, start, width)
  {
    WordsEqual(ChangeBits(ChangeBits(orig, v1, start, width), v2, start, width),
               ChangeBits(orig, v2, start, width));
  }

  /** Writing back the value a field already holds changes nothing. */
  lemma ChangeBitsSameValue(orig: Word, start: nat, width: nat)
    requires start + width <= 32
    ensures Field(orig, start, width) < Pow2(width)
    ensures ChangeBits(orig, Field(orig, start, width), start, width) == orig
  {
    var f := Field(orig, start, width);
    assert f <= Pow2(width) - 1;
    forall i | 0 <= i < 32 && start <= i < start + width
      ensures Bit(f, i - start) == Bit(orig, i)
    {
      BitAnd(Shr(orig, start), Pow2(width) - 1, i - start);
      BitLowMask(width, i - start);
      BitShr(orig, start, i - start);
    }
    WordsEqual(ChangeBits(orig, f, start, width), orig);
  }

  /** Only the bits outside the field survive the keep-mask, and those are
      the original's: a field write leaves every other bit of the register. */
  lemma ChangeBitsKeepsOutside(orig: Word, val: nat, start: nat, width: nat)
    requires start + width <= 32
    requires val < Pow2(width)
    ensures And(ChangeBits(orig, val, start, width), KeepMask(start, width))
         == And(orig, KeepMask(start, width))
  {
    var r, m := ChangeBits(orig, val, start, width), KeepMask(start, width);
    forall i | 0 <= i < 32 ensures Bit(And(r, m), i) == Bit(And(orig, m), i) {
      BitAnd(r, m, i);
      BitAnd(orig, m, i);
      BitKeepMask(start, width, i);
    }
    Pow2Of32();
    WordsEqual(And(r, m), And(orig, m));
  }

  /** `1 << t` has exactly bit t set. */
  lemma BitOfPow2(t: nat, i: nat)
    ensures Bit(Shl(1, t), i) == if i == t then 1 else 0
  {
    BitShl(1, t, i);
    if i > t {
      BitOfZero(i - t - 1);
    }
  }

  /** Python `x | y` of two words with no common bit is their sum. */
  lemma {:induction false} OrDisjoint(x: nat, y: nat)
    requires And(x, y) == 0
    ensures Or(x, y) == x + y
  {
    if x != 0 && y != 0 {
      OrDisjoint(x / 2, y / 2);
    }
  }

  /** Python `x & 1`. */
  lemma AndOne(x: nat)
    ensures And(x, 1) == x % 2
  {
    if x != 0 {
      assert And(x / 2, 0) == 0;
    }
  }

  /** Masking with 2^n - 1 keeps a value below 2^n. */
  lemma AndLowMaskSmall(x: nat, n: nat)
    requires x < Pow2(n)
    ensures And(x, Pow2(n) - 1) == x
  {
    forall i | 0 <= i < n ensures Bit(And(x, Pow2(n) - 1), i) == Bit(x, i) {
      BitAnd(x, Pow2(n) - 1, i);
      BitLowMask(n, i);
    }
    BitsEqual(And(x, Pow2(n) - 1), x, n);
  }

  /** Python `x & (2^n - 1)` is x mod 2^n. */
  lemma {:induction false} AndLowMask(x: nat, n: nat)
    ensures And(x, Pow2(n) - 1) == x % Pow2(n)
  {
    if n == 0 {
      assert Pow2(n) == 1;
    } else if x == 0 {
      DivUnique(0, Pow2(n), 0, 0);
    } else {
      var p, m := Pow2(n - 1), Pow2(n) - 1;
      assert Pow2(n) == 2 * p;
      assert m / 2 == p - 1 && m % 2 == 1;
      AndLowMask(x / 2, n - 1);
      assert And(x, m) == 2 * And(x / 2, p - 1) + x % 2;
      ModDouble(x, p);
    }
  }

  lemma DivMod(y: nat, p: nat)
    requires p > 0
    ensures y == p * (y / p) + y % p
  {
  }

  /** x mod 2p from the lowest bit and (x / 2) mod p. */
  lemma ModDouble(x: nat, p: nat)
    requires p > 0
    ensures x % (2 * p) == 2 * ((x / 2) % p) + x % 2
  {
    var q, r := (x / 2) / p, (x / 2) % p;
    DivMod(x / 2, p);
    assert x == 2 * (p * q + r) + x % 2;
    assert 2 * (p * q) == (2 * p) * q;
    DivUnique(x, 2 * p, q, 2 * r + x % 2);
  }

  /** For a nibble, `x & 0x8` is set exactly when x is at least 8. */
  lemma SignBit(x: nat)
    ensures x < 16 ==> (And(x, 8) != 0 <==> x >= 8)
  {
    if x < 16 {
      assert x == 0 || x == 1 || x == 2 || x == 3 || x == 4 || x == 5 || x == 6 || x == 7
        || x == 8 || x == 9 || x == 10 || x == 11 || x == 12 || x == 13 || x == 14 || x == 15;
    }
  }

  // ---------------------------------------------------------------------
  // Signed reads

  /** The signed reading of a word (read_int), two's complement. */
  function Signed(w: Word): (i: int)
    ensures -0x8000_0000 <= i < 0x8000_0000
    ensures i % 0x1_0000_0000 == w
  {
    if w < 0x8000_0000 then w else w - 0x1_0000_0000
  }

  /** Python `i & m` for a possibly negative i and a mask m below 2^32:
      only the low 32 bits of i's two's complement matter. */
  function AndSigned(i: int, m: nat): (r: nat)
    requires m < 0x1_0000_0000
    ensures r <= m
  {
    And(i % 0x1_0000_0000, m)
  }
}
