/** The 32-bit integer operators of the source language: ToInt32, ToUint32, shifts, `|` and `&`. */
module JsInt {

  const TWO31: int := 0x8000_0000
  const TWO32: int := 0x1_0000_0000

  function Pow2(n: nat): (p: nat)
    ensures p > 0
  {
    if n == 0 then 1 else 2 * Pow2(n - 1)
  }

  function ToUint32(x: int): (u: nat)
    ensures u < TWO32
  {
    x % TWO32
  }

  function ToInt32(x: int): (s: int)
    ensures -TWO31 <= s < TWO31
  {
    if x % TWO32 < TWO31 then x % TWO32 else x % TWO32 - TWO32
  }

  /** `u` without its `n` lowest bits. */
  function Halved(u: nat, n: nat): nat {
    if n == 0 then u else Halved(u / 2, n - 1)
  }

  /** `x << n`: the shift count is taken modulo 32. */
  function ShiftLeft(x: int, n: int): int {
    ToInt32(ToInt32(x) * Pow2(n % 32))
  }

  /** `x >>> n`. */
  function ShiftRight(x: int, n: int): nat {
    Halved(ToUint32(x), n % 32)
  }

  /** Bitwise or of two unsigned numbers. */
  function OrBits(x: nat, y: nat): nat
    decreases x
  {
    if x == 0 then y
    else if y == 0 then x
    else 2 * OrBits(x / 2, y / 2) + (if x % 2 == 1 || y % 2 == 1 then 1 else 0)
  }

  /** Bitwise and of two unsigned numbers. */
  function AndBits(x: nat, y: nat): nat
    decreases x
  {
    if x == 0 || y == 0 then 0
    else 2 * AndBits(x / 2, y / 2) + (if x % 2 == 1 && y % 2 == 1 then 1 else 0)
  }

  /** `x | y`. */
  function BitOr(x: int, y: int): int {
    ToInt32(OrBits(ToUint32(x), ToUint32(y)))
  }

  /** `x & y`. */
  function BitAnd(x: int, y: int): int {
    ToInt32(AndBits(ToUint32(x), ToUint32(y)))
  }

  lemma SmallUint32(x: nat)
    requires x < TWO32
    ensures ToUint32(x) == x
    ensures x < TWO31 ==> ToInt32(x) == x
  {
  }

  lemma BitAndInRange(x: nat, y: nat)
    requires x < TWO32 && y < TWO32
    ensures BitAnd(x, y) == ToInt32(AndBits(x, y))
  {
    hide AndBits, ToUint32, ToInt32;
    SmallUint32(x);
    SmallUint32(y);
  }

  lemma BitOrInRange(x: nat, y: nat)
    requires x < TWO32 && y < TWO32
    ensures BitOr(x, y) == ToInt32(OrBits(x, y))
  {
    hide OrBits, ToUint32, ToInt32;
    SmallUint32(x);
    SmallUint32(y);
  }

  // ----- division and remainder -----

  lemma MulExceeds(d: int, k: int)
    requires d > 0
    ensures k >= 1 ==> d * k >= d
    ensures k <= -1 ==> d * k <= -d
  {
  }

  /** A quotient and remainder are determined by their defining equation. */
  lemma DivModUnique(x: int, d: int, q: int, r: int)
    requires d > 0 && 0 <= r < d
    requires x == d * q + r
    ensures x / d == q && x % d == r
  {
    assert d * (x / d - q) == r - x % d;
    MulExceeds(d, x / d - q);
  }

  lemma HalveDivision(x: nat, h: nat)
    requires h > 0
    ensures x / (2 * h) == x / 2 / h
    ensures x % (2 * h) == 2 * (x / 2 % h) + x % 2
  {
    var q, r := x / 2 / h, x / 2 % h;
    assert x / 2 == h * q + r;
    assert (2 * h) * q == 2 * (h * q);
    DivModUnique(x, 2 * h, q, 2 * r + x % 2);
  }

  // ----- powers of two -----

  lemma Pow2Add(m: nat, n: nat)
    ensures Pow2(m + n) == Pow2(m) * Pow2(n)
  {
    if m != 0 {
      Pow2Add(m - 1, n);
      assert 2 * Pow2(m - 1) * Pow2(n) == 2 * (Pow2(m - 1) * Pow2(n));
    }
  }

  lemma Pow2Values()
    ensures Pow2(5) == 32 && Pow2(8) == 256 && Pow2(16) == 0x1_0000
    ensures Pow2(24) == 0x100_0000 && Pow2(31) == TWO31 && Pow2(32) == TWO32
  {
    assert Pow2(4) == 16;
    Pow2Add(4, 4);
    Pow2Add(8, 8);
    Pow2Add(8, 16);
    Pow2Add(16, 16);
  }

  lemma {:induction false} HalvedIsQuotient(u: nat, n: nat)
    ensures Halved(u, n) == u / Pow2(n)
  {
    if n != 0 {
      HalvedIsQuotient(u / 2, n - 1);
      HalveDivision(u, Pow2(n - 1));
    }
  }

  // ----- bitwise operators as arithmetic -----

  /** Or-ing a number into `k` clear low bits adds it. */
  lemma {:induction false} OrIntoClearBits(x: nat, y: nat, k: nat)
    requires y < Pow2(k)
    ensures OrBits(x * Pow2(k), y) == x * Pow2(k) + y
    decreases k
  {
    if k != 0 {
      var h := Pow2(k - 1);
      assert x * Pow2(k) == 2 * (x * h);
      OrIntoClearBits(x, y / 2, k - 1);
      OrHalves(x * h, y);
    }
  }

  lemma OrHalves(z: nat, y: nat)
    ensures OrBits(2 * z, y) == 2 * OrBits(z, y / 2) + y % 2
  {
    assert 2 * z / 2 == z && 2 * z % 2 == 0;
  }

  lemma {:induction false} AndBitsLowMask(x: nat, k: nat)
    ensures AndBits(x, Pow2(k) - 1) == x % Pow2(k)
    decreases k
  {
    if k != 0 {
      hide AndBits;
      AndBitsLowMask(x / 2, k - 1);
      HalveDivision(x, Pow2(k - 1));
      AndHalves(x, Pow2(k - 1) - 1, 1);
    }
  }

  lemma AndHalves(x: nat, z: nat, b: nat)
    requires b < 2
    ensures AndBits(x, 2 * z + b) == 2 * AndBits(x / 2, z) + b * (x % 2)
  {
    var y := 2 * z + b;
    assert y / 2 == z && y % 2 == b;
  }

  /** A mask that clears the `k` lowest of `n` bits. */
  lemma {:induction false} AndBitsHighMask(x: nat, k: nat, n: nat)
    requires k <= n && x < Pow2(n)
    ensures Pow2(k) <= Pow2(n)
    ensures AndBits(x, Pow2(n) - Pow2(k)) == Halved(x, k) * Pow2(k)
    decreases n
  {
    hide AndBits;
    if k == 0 {
      AndBitsLowMask(x, n);
      DivModUnique(x, Pow2(n), 0, x);
      assert Pow2(k) == 1;
    } else {
      var h, g := Pow2(k - 1), Halved(x / 2, k - 1);
      AndBitsHighMask(x / 2, k - 1, n - 1);
      AndHalves(x, Pow2(n - 1) - h, 0);
      assert g * (2 * h) == 2 * (g * h);
    }
  }

  lemma {:induction false} AndBitsSelf(x: nat)
    ensures AndBits(x, x) == x
  {
    if x != 0 { AndBitsSelf(x / 2); }
  }
}
