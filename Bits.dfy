/**
 * Python's arbitrary-precision bitwise operators on non-negative integers.
 *
 * `Bit(x, i)` reads bit i of x. Each operator is defined by what it does to
 * every bit: `a & b` and `a | b` bit by bit, `x << n` moves bit i to i + n,
 * `x >> n` moves bit i + n to i, and the low-bits mask keeps bits below n.
 * Two numbers with the same bits are equal (`BitsEqual`), so each definition
 * picks exactly one number; the lemmas below show that number exists and
 * connect it to arithmetic (`x << n == x * 2^n`, `x >> n == x / 2^n`, OR of
 * values with no common bit is their sum), which is how the instruction
 * layouts are proved.
 */
module Bits {

  /** 2 to the power n. */
  function Pow2(n: nat): (r: nat)
    ensures r >= 1
  {
    if n == 0 then 1 else 2 * Pow2(n - 1)
  }

  /** Bit i of x (bit 0 is the least significant). */
  predicate Bit(x: nat, i: nat)
  {
    if i == 0 then x % 2 == 1 else Bit(x / 2, i - 1)
  }

  ghost predicate IsAnd(a: nat, b: nat, r: nat)
  {
    forall i: nat :: Bit(r, i) == (Bit(a, i) && Bit(b, i))
  }

  ghost predicate IsOr(a: nat, b: nat, r: nat)
  {
    forall i: nat :: Bit(r, i) == (Bit(a, i) || Bit(b, i))
  }

  ghost predicate IsShl(x: nat, n: nat, r: nat)
  {
    forall i: nat :: Bit(r, i) == (i >= n && Bit(x, i - n))
  }

  ghost predicate IsShr(x: nat, n: nat, r: nat)
  {
    forall i: nat :: Bit(r, i) == Bit(x, i + n)
  }

  ghost predicate IsLow(x: nat, n: nat, r: nat)
  {
    forall i: nat :: Bit(r, i) == (i < n && Bit(x, i))
  }

  /** Python's `a & b`. */
  ghost function And(a: nat, b: nat): nat
  {
    AndExists(a, b);
    var r :| IsAnd(a, b, r); r
  }

  /** Python's `a | b`. */
  ghost function Or(a: nat, b: nat): nat
  {
    OrExists(a, b);
    var r :| IsOr(a, b, r); r
  }

  /** Python's `x << n`. */
  ghost function Shl(x: nat, n: nat): nat
  {
    ShlExists(x, n);
    var r :| IsShl(x, n, r); r
  }

  /** Python's `x >> n`. */
  ghost function Shr(x: nat, n: nat): nat
  {
    ShrExists(x, n);
    var r :| IsShr(x, n, r); r
  }

  /** The low n bits of x: Python's `x & (2**n - 1)`. */
  ghost function LowBits(x: nat, n: nat): nat
  {
    LowExists(x, n);
    var r :| IsLow(x, n, r); r
  }

  /** The `width`-bit field of x that starts at bit `lo`: `(x >> lo) & (2**width - 1)`. */
  ghost function Field(x: nat, lo: nat, width: nat): nat
  {
    LowBits(Shr(x, lo), width)
  }

  // ---------------------------------------------------------------------------
  // Arithmetic facts

  lemma {:induction false} MulAtLeast(e: nat, d: nat)
    requires e >= 1
    ensures e * d >= d
  {
    if e > 1 { MulAtLeast(e - 1, d); assert e * d == (e - 1) * d + d; }
  }

  lemma DivModUnique(x: int, d: int, q: int, r: int)
    requires d > 0 && 0 <= r < d && x == q * d + r
    ensures x / d == q && x % d == r
  {
    var q', r' := x / d, x % d;
    assert x == q' * d + r';
    if q' > q {
      assert (q' - q) * d == q' * d - q * d;
      MulAtLeast(q' - q, d);
      assert false;
    } else if q' < q {
      assert (q - q') * d == q * d - q' * d;
      MulAtLeast(q - q', d);
      assert false;
    }
  }

  /** Dividing by 2p is halving and then dividing by p; the remainder splits the same way. */
  lemma DivModDouble(x: nat, p: nat)
    requires p >= 1
    ensures x / (2 * p) == (x / 2) / p
    ensures x % (2 * p) == 2 * ((x / 2) % p) + x % 2
  {
    var h, b := x / 2, x % 2;
    var q, r := h / p, h % p;
    assert h == q * p + r;
    assert x == q * (2 * p) + (2 * r + b);
    DivModUnique(x, 2 * p, q, 2 * r + b);
  }

  /** `2^(a+b) == 2^a * 2^b`. */
  lemma {:induction false} Pow2Add(a: nat, b: nat)
    ensures Pow2(a + b) == Pow2(a) * Pow2(b)
  {
    if a > 0 {
      Pow2Add(a - 1, b);
      assert Pow2(a + b) == 2 * Pow2(a - 1 + b);
    }
  }

  /** The powers of two the instruction layouts use. */
  lemma Pow2Table()
    ensures Pow2(0) == 1 && Pow2(1) == 2 && Pow2(2) == 4 && Pow2(4) == 0x10 && Pow2(7) == 0x80 && Pow2(8) == 0x100
    ensures Pow2(10) == 0x400 && Pow2(16) == 0x1_0000 && Pow2(20) == 0x10_0000 && Pow2(24) == 0x100_0000
    ensures Pow2(30) == 0x4000_0000 && Pow2(31) == 0x8000_0000 && Pow2(32) == 0x1_0000_0000 && Pow2(48) == 0x1_0000_0000_0000
  {
    assert Pow2(1) == 2;
    assert Pow2(2) == 4;
    Pow2Add(2, 2);
    Pow2Add(4, 4);
    Pow2Add(8, 8);
    Pow2Add(16, 8);
    Pow2Add(16, 16);
    Pow2Add(32, 16);
    Pow2Add(4, 2);
    Pow2Add(6, 1);
    Pow2Add(8, 2);
    Pow2Add(16, 4);
    Pow2Add(24, 6);
    Pow2Add(30, 1);
  }

  // ---------------------------------------------------------------------------
  // Bits of numbers

  lemma {:induction false} BitZero(i: nat)
    ensures !Bit(0, i)
  {
    if i > 0 { BitZero(i - 1); }
  }

  lemma BitDouble(y: nat, c: nat, i: nat)
    requires c < 2
    ensures Bit(2 * y + c, i) == (if i == 0 then c == 1 else Bit(y, i - 1))
  {
    assert (2 * y + c) / 2 == y;
  }

  /** Two numbers with the same bits are equal. */
  lemma {:induction false} BitsEqual(x: nat, y: nat)
    requires forall i: nat :: Bit(x, i) == Bit(y, i)
    ensures x == y
    decreases x + y
  {
    if x + y > 0 {
      assert Bit(x, 0) == Bit(y, 0);
      forall i: nat ensures Bit(x / 2, i) == Bit(y / 2, i) {
        assert Bit(x, i + 1) == Bit(y, i + 1);
      }
      BitsEqual(x / 2, y / 2);
    }
  }

  /** A number below 2^n has no bit at or above n. */
  lemma {:induction false} BitsBelow(x: nat, n: nat)
    requires x < Pow2(n)
    ensures forall i: nat :: i >= n ==> !Bit(x, i)
  {
    if n == 0 {
      forall i: nat { BitZero(i); }
    } else {
      BitsBelow(x / 2, n - 1);
      forall i: nat | i >= n ensures !Bit(x, i) { assert Bit(x, i) == Bit(x / 2, i - 1); }
    }
  }

  /** A number with no bit at or above n is below 2^n. */
  lemma {:induction false} BitsAbove(x: nat, n: nat)
    requires forall i: nat :: i >= n ==> !Bit(x, i)
    ensures x < Pow2(n)
  {
    if n == 0 {
      forall i: nat ensures Bit(x, i) == Bit(0, i) { BitZero(i); }
      BitsEqual(x, 0);
    } else {
      forall i: nat | i >= n - 1 ensures !Bit(x / 2, i) { assert Bit(x, i + 1) == Bit(x / 2, i); }
      BitsAbove(x / 2, n - 1);
    }
  }

  /** The bits of `2^n - 1` are exactly bits 0 .. n-1. */
  lemma {:induction false} BitLowMask(n: nat, i: nat)
    ensures Bit(Pow2(n) - 1, i) == (i < n)
  {
    if n == 0 {
      BitZero(i);
    } else {
      assert Pow2(n) - 1 == 2 * (Pow2(n - 1) - 1) + 1;
      BitDouble(Pow2(n - 1) - 1, 1, i);
      if i > 0 { BitLowMask(n - 1, i - 1); }
    }
  }

  /** Bit n is the only bit of 2^n. */
  lemma {:induction false} BitPow2(n: nat, j: nat)
    ensures Bit(Pow2(n), j) == (j == n)
  {
    if n == 0 {
      if j > 0 { BitZero(j - 1); }
    } else {
      BitDouble(Pow2(n - 1), 0, j);
      if j > 0 { BitPow2(n - 1, j - 1); }
    }
  }

  // ---------------------------------------------------------------------------
  // The operators exist: a digit-by-digit construction for & and |, and
  // multiplication, division and remainder by 2^n for the shifts and masks

  /** `a & b` built one binary digit at a time. */
  function AndDigits(a: nat, b: nat): nat
  {
    if a == 0 || b == 0 then 0
    else 2 * AndDigits(a / 2, b / 2) + (if a % 2 == 1 && b % 2 == 1 then 1 else 0)
  }

  /** `a | b` built one binary digit at a time. */
  function OrDigits(a: nat, b: nat): nat
    decreases a + b
  {
    if a == 0 then b
    else if b == 0 then a
    else 2 * OrDigits(a / 2, b / 2) + (if a % 2 == 1 || b % 2 == 1 then 1 else 0)
  }

  lemma {:induction false} BitAndDigits(a: nat, b: nat, i: nat)
    ensures Bit(AndDigits(a, b), i) == (Bit(a, i) && Bit(b, i))
    decreases a
  {
    if a == 0 || b == 0 {
      BitZero(i);
    } else {
      var c := if a % 2 == 1 && b % 2 == 1 then 1 else 0;
      BitDouble(AndDigits(a / 2, b / 2), c, i);
      if i > 0 { BitAndDigits(a / 2, b / 2, i - 1); }
    }
  }

  lemma {:induction false} BitOrDigits(a: nat, b: nat, i: nat)
    ensures Bit(OrDigits(a, b), i) == (Bit(a, i) || Bit(b, i))
    decreases a + b
  {
    if a == 0 || b == 0 {
      BitZero(i);
    } else {
      var c := if a % 2 == 1 || b % 2 == 1 then 1 else 0;
      BitDouble(OrDigits(a / 2, b / 2), c, i);
      if i > 0 { BitOrDigits(a / 2, b / 2, i - 1); }
    }
  }

  lemma {:induction false} BitMulPow2(x: nat, n: nat, i: nat)
    ensures Bit(x * Pow2(n), i) == (i >= n && Bit(x, i - n))
  {
    if n > 0 {
      assert x * Pow2(n) == 2 * (x * Pow2(n - 1)) + 0;
      BitDouble(x * Pow2(n - 1), 0, i);
      if i > 0 { BitMulPow2(x, n - 1, i - 1); }
    }
  }

  /** x halved n times. */
  function Quot(x: nat, n: nat): nat
  {
    if n == 0 then x else Quot(x / 2, n - 1)
  }

  /** Halving n times is dividing by `2^n`. */
  lemma {:induction false} QuotIsDiv(x: nat, n: nat)
    ensures Quot(x, n) == x / Pow2(n)
  {
    if n > 0 {
      QuotIsDiv(x / 2, n - 1);
      DivModDouble(x, Pow2(n - 1));
    }
  }

  lemma {:induction false} BitDivPow2(x: nat, n: nat, i: nat)
    ensures Bit(Quot(x, n), i) == Bit(x, i + n)
  {
    if n > 0 {
      BitDivPow2(x / 2, n - 1, i);
    }
  }

  lemma {:induction false} BitModPow2(x: nat, n: nat, i: nat)
    ensures Bit(x % Pow2(n), i) == (i < n && Bit(x, i))
  {
    if n == 0 {
      BitZero(i);
    } else {
      DivModDouble(x, Pow2(n - 1));
      BitDouble((x / 2) % Pow2(n - 1), x % 2, i);
      if i > 0 { BitModPow2(x / 2, n - 1, i - 1); }
    }
  }

  lemma AndExists(a: nat, b: nat)
    ensures exists r: nat :: IsAnd(a, b, r)
  {
    forall i: nat ensures Bit(AndDigits(a, b), i) == (Bit(a, i) && Bit(b, i)) { BitAndDigits(a, b, i); }
    assert IsAnd(a, b, AndDigits(a, b));
  }

  lemma OrExists(a: nat, b: nat)
    ensures exists r: nat :: IsOr(a, b, r)
  {
    forall i: nat ensures Bit(OrDigits(a, b), i) == (Bit(a, i) || Bit(b, i)) { BitOrDigits(a, b, i); }
    assert IsOr(a, b, OrDigits(a, b));
  }

  lemma ShlExists(x: nat, n: nat)
    ensures exists r: nat :: IsShl(x, n, r)
  {
    forall i: nat ensures Bit(x * Pow2(n), i) == (i >= n && Bit(x, i - n)) { BitMulPow2(x, n, i); }
    assert IsShl(x, n, x * Pow2(n));
  }

  lemma ShrExists(x: nat, n: nat)
    ensures exists r: nat :: IsShr(x, n, r)
  {
    forall i: nat ensures Bit(Quot(x, n), i) == Bit(x, i + n) { BitDivPow2(x, n, i); }
    assert IsShr(x, n, Quot(x, n));
  }

  lemma LowExists(x: nat, n: nat)
    ensures exists r: nat :: IsLow(x, n, r)
  {
    forall i: nat ensures Bit(x % Pow2(n), i) == (i < n && Bit(x, i)) { BitModPow2(x, n, i); }
    assert IsLow(x, n, x % Pow2(n));
  }

  // ---------------------------------------------------------------------------
  // One bit at a time

  lemma BitAnd(a: nat, b: nat, i: nat)
    ensures Bit(And(a, b), i) == (Bit(a, i) && Bit(b, i))
  {
    assert IsAnd(a, b, And(a, b));
  }

  lemma BitOr(a: nat, b: nat, i: nat)
    ensures Bit(Or(a, b), i) == (Bit(a, i) || Bit(b, i))
  {
    assert IsOr(a, b, Or(a, b));
  }

  lemma BitShl(x: nat, n: nat, i: nat)
    ensures Bit(Shl(x, n), i) == (i >= n && Bit(x, i - n))
  {
    assert IsShl(x, n, Shl(x, n));
  }

  lemma BitShr(x: nat, n: nat, i: nat)
    ensures Bit(Shr(x, n), i) == Bit(x, i + n)
  {
    assert IsShr(x, n, Shr(x, n));
  }

  lemma BitLow(x: nat, n: nat, i: nat)
    ensures Bit(LowBits(x, n), i) == (i < n && Bit(x, i))
  {
    assert IsLow(x, n, LowBits(x, n));
  }

  lemma BitField(x: nat, lo: nat, w: nat, i: nat)
    ensures Bit(Field(x, lo, w), i) == (i < w && Bit(x, lo + i))
  {
    BitLow(Shr(x, lo), w, i);
    BitShr(x, lo, i);
  }

  // ---------------------------------------------------------------------------
  // The operators in arithmetic terms

  /** `x << n` is `x * 2^n`. */
  lemma ShlIsMul(x: nat, n: nat)
    ensures Shl(x, n) == x * Pow2(n)
  {
    forall i: nat ensures Bit(Shl(x, n), i) == Bit(x * Pow2(n), i) { BitMulPow2(x, n, i); }
    BitsEqual(Shl(x, n), x * Pow2(n));
  }

  /** Any number with the bits of `x >> n` is `x >> n`. */
  lemma ShrUnique(x: nat, n: nat, r: nat)
    requires IsShr(x, n, r)
    ensures Shr(x, n) == r
  {
    assert IsShr(x, n, Shr(x, n));
    forall i: nat ensures Bit(Shr(x, n), i) == Bit(r, i) {
      assert Bit(Shr(x, n), i) == Bit(x, i + n);
    }
    BitsEqual(Shr(x, n), r);
  }

  /** `x >> n` is `x / 2^n`. */
  lemma ShrIsDiv(x: nat, n: nat)
    ensures Shr(x, n) == x / Pow2(n)
  {
    forall i: nat ensures Bit(Quot(x, n), i) == Bit(x, i + n) { BitDivPow2(x, n, i); }
    ShrUnique(x, n, Quot(x, n));
    QuotIsDiv(x, n);
  }

  /** The low n bits of x are `x % 2^n`. */
  lemma LowIsMod(x: nat, n: nat)
    ensures LowBits(x, n) == x % Pow2(n)
  {
    forall i: nat ensures Bit(LowBits(x, n), i) == Bit(x % Pow2(n), i) { BitModPow2(x, n, i); }
    BitsEqual(LowBits(x, n), x % Pow2(n));
  }

  /** `x & (2^n - 1)` keeps the low n bits. */
  lemma AndLowMask(x: nat, n: nat)
    ensures And(x, Pow2(n) - 1) == LowBits(x, n)
  {
    forall i: nat ensures Bit(And(x, Pow2(n) - 1), i) == Bit(LowBits(x, n), i) {
      BitLowMask(n, i);
    }
    BitsEqual(And(x, Pow2(n) - 1), LowBits(x, n));
  }

  /** `x & mask` for a literal mask `2^n - 1` is `x % 2^n`. */
  lemma MaskLit(x: nat, mask: nat, n: nat)
    requires mask == Pow2(n) - 1
    ensures And(x, mask) == x % (mask + 1) && x % (mask + 1) < Pow2(n)
  {
    AndLowMask(x, n);
    LowIsMod(x, n);
  }

  /** `x << n` with 2^n given as a number. */
  lemma ShlLit(x: nat, n: nat, p: nat)
    requires p == Pow2(n)
    ensures Shl(x, n) == x * p
  {
    ShlIsMul(x, n);
  }

  lemma {:induction false} OrDigitsDisjoint(a: nat, b: nat)
    requires forall i: nat :: !(Bit(a, i) && Bit(b, i))
    ensures OrDigits(a, b) == a + b
    decreases a + b
  {
    if a != 0 && b != 0 {
      assert !(Bit(a, 0) && Bit(b, 0));
      forall i: nat ensures !(Bit(a / 2, i) && Bit(b / 2, i)) {
        assert !(Bit(a, i + 1) && Bit(b, i + 1));
      }
      OrDigitsDisjoint(a / 2, b / 2);
    }
  }

  /** OR of two numbers with no bit in common is their sum. */
  lemma OrDisjoint(a: nat, b: nat)
    requires forall i: nat :: !(Bit(a, i) && Bit(b, i))
    ensures Or(a, b) == a + b
  {
    forall i: nat ensures Bit(Or(a, b), i) == Bit(OrDigits(a, b), i) { BitOrDigits(a, b, i); }
    BitsEqual(Or(a, b), OrDigits(a, b));
    OrDigitsDisjoint(a, b);
  }

  // ---------------------------------------------------------------------------
  // Packing fields into a word

  lemma LowZero(n: nat)
    ensures LowBits(0, n) == 0
  {
    forall i: nat ensures Bit(LowBits(0, n), i) == Bit(0, i) { BitZero(i); }
    BitsEqual(LowBits(0, n), 0);
  }

  /** A value shifted left by n has its low n bits clear. */
  lemma ShlClear(x: nat, n: nat)
    ensures LowBits(Shl(x, n), n) == 0
  {
    forall i: nat ensures Bit(LowBits(Shl(x, n), n), i) == Bit(0, i) { BitZero(i); }
    BitsEqual(LowBits(Shl(x, n), n), 0);
  }

  /** A value of w bits shifted left by n fits in n + w bits. */
  lemma ShlBound(v: nat, n: nat, w: nat)
    requires v < Pow2(w)
    ensures Shl(v, n) < Pow2(n + w)
  {
    BitsBelow(v, w);
    BitsAbove(Shl(v, n), n + w);
  }

  /** OR of two numbers below 2^k is below 2^k. */
  lemma OrBound(a: nat, b: nat, k: nat)
    requires a < Pow2(k) && b < Pow2(k)
    ensures Or(a, b) < Pow2(k)
  {
    BitsBelow(a, k);
    BitsBelow(b, k);
    BitsAbove(Or(a, b), k);
  }

  /** OR-ing a number below 2^n into a word whose low n bits are clear adds it. */
  lemma OrLow(acc: nat, v: nat, n: nat)
    requires LowBits(acc, n) == 0 && v < Pow2(n)
    ensures Or(acc, v) == acc + v && Or(v, acc) == acc + v
  {
    BitsBelow(v, n);
    forall i: nat ensures !(Bit(acc, i) && Bit(v, i)) {
      assert Bit(LowBits(acc, n), i) == (i < n && Bit(acc, i));
      BitZero(i);
    }
    OrDisjoint(acc, v);
    OrDisjoint(v, acc);
  }

  /**
   * OR-ing a field v, shifted to bit n, into a word whose low n + w bits are
   * clear adds it, provided v fits in w bits; the low n bits of the result
   * are still clear, so the next field down can be added the same way.
   */
  lemma OrField(acc: nat, v: nat, n: nat, w: nat)
    requires LowBits(acc, n + w) == 0 && v < Pow2(w)
    ensures Or(acc, Shl(v, n)) == acc + Shl(v, n)
    ensures LowBits(acc + Shl(v, n), n) == 0
  {
    BitsBelow(v, w);
    forall i: nat ensures !(Bit(acc, i) && Bit(Shl(v, n), i)) {
      assert Bit(LowBits(acc, n + w), i) == (i < n + w && Bit(acc, i));
      BitZero(i);
    }
    OrDisjoint(acc, Shl(v, n));
    forall i: nat ensures Bit(LowBits(acc + Shl(v, n), n), i) == Bit(0, i) {
      assert Bit(LowBits(acc, n + w), i) == (i < n + w && Bit(acc, i));
      BitZero(i);
    }
    BitsEqual(LowBits(acc + Shl(v, n), n), 0);
  }

  /**
   * The w-bit field at bit n of `hi + (mid << n) + lo` is mid, when hi has
   * its low n + w bits clear, mid fits in w bits and lo in n bits.
   */
  lemma FieldOf(x: nat, hi: nat, mid: nat, lo: nat, n: nat, w: nat)
    requires x == hi + Shl(mid, n) + lo
    requires LowBits(hi, n + w) == 0 && mid < Pow2(w) && lo < Pow2(n)
    ensures Field(x, n, w) == mid
  {
    OrField(hi, mid, n, w);
    OrLow(hi + Shl(mid, n), lo, n);
    BitsBelow(mid, w);
    BitsBelow(lo, n);
    forall i: nat ensures Bit(Field(x, n, w), i) == Bit(mid, i) {
      assert Bit(LowBits(hi, n + w), n + i) == (n + i < n + w && Bit(hi, n + i));
      BitZero(n + i);
    }
    BitsEqual(Field(x, n, w), mid);
  }

  /** Clear low n bits mean clear low m bits for any m <= n. */
  lemma LowClearMono(x: nat, n: nat, m: nat)
    requires LowBits(x, n) == 0 && m <= n
    ensures LowBits(x, m) == 0
  {
    forall i: nat ensures Bit(LowBits(x, m), i) == Bit(0, i) {
      BitLow(x, m, i);
      BitLow(x, n, i);
      BitZero(i);
    }
    BitsEqual(LowBits(x, m), 0);
  }

  /** Shifting left and back right gives the value back. */
  lemma ShrShl(x: nat, n: nat)
    ensures Shr(Shl(x, n), n) == x
  {
    forall i: nat ensures Bit(Shr(Shl(x, n), n), i) == Bit(x, i) {
      BitShr(Shl(x, n), n, i);
      BitShl(x, n, i + n);
    }
    BitsEqual(Shr(Shl(x, n), n), x);
  }

  /** Masking with w one-bits placed at bit n keeps the field of width w at n, in place. */
  lemma AndShiftedMask(x: nat, n: nat, w: nat, mask: nat)
    requires mask == Shl(Pow2(w) - 1, n)
    ensures And(x, mask) == Shl(Field(x, n, w), n)
  {
    forall i: nat ensures Bit(And(x, mask), i) == Bit(Shl(Field(x, n, w), n), i) {
      BitAnd(x, mask, i);
      BitShl(Pow2(w) - 1, n, i);
      BitShl(Field(x, n, w), n, i);
      if i >= n {
        BitLowMask(w, i - n);
        BitField(x, n, w, i - n);
      }
    }
    BitsEqual(And(x, mask), Shl(Field(x, n, w), n));
  }

  /** A field is a quotient and a remainder by powers of two. */
  lemma FieldIsDivMod(x: nat, lo: nat, w: nat)
    ensures Field(x, lo, w) == (x / Pow2(lo)) % Pow2(w)
  {
    ShrIsDiv(x, lo);
    LowIsMod(Shr(x, lo), w);
  }

  /** OR with zero changes nothing. */
  lemma OrZero(x: nat)
    ensures Or(0, x) == x
  {
    forall i: nat ensures Bit(Or(0, x), i) == Bit(x, i) {
      BitOr(0, x, i);
      BitZero(i);
    }
    BitsEqual(Or(0, x), x);
  }

  /** AND with zero is zero. */
  lemma AndZero(x: nat)
    ensures And(0, x) == 0
  {
    forall i: nat ensures Bit(And(0, x), i) == Bit(0, i) {
      BitAnd(0, x, i);
      BitZero(i);
    }
    BitsEqual(And(0, x), 0);
  }

  /** A field of width w is below 2^w. */
  lemma FieldBound(x: nat, lo: nat, w: nat)
    ensures Field(x, lo, w) < Pow2(w)
  {
    FieldIsDivMod(x, lo, w);
  }
}
