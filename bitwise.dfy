/** JavaScript's bitwise OR on numbers: both operands are converted to signed 32-bit integers
    (ToInt32) and combined bit by bit in two's complement. Bits are modelled arithmetically on
    naturals; a negative int32 `x` is the bit pattern that is the complement of `-1 - x`. */
module Bitwise {

  const TwoTo31: int := 0x8000_0000
  const TwoTo32: int := 0x1_0000_0000

  predicate IsInt32(x: int)
  {
    -TwoTo31 <= x < TwoTo31
  }

  /** ToInt32 on an integral number: reduction modulo 2^32 into [-2^31, 2^31). */
  function ToInt32(x: int): (r: int)
    ensures IsInt32(r)
    ensures (r - x) % TwoTo32 == 0
  {
    (x + TwoTo31) % TwoTo32 - TwoTo31
  }

  /** `a | b` on naturals. */
  function BitOr(a: nat, b: nat): (r: nat)
    decreases a + b
  {
    if a == 0 then b
    else if b == 0 then a
    else 2 * BitOr(a / 2, b / 2) + (if a % 2 == 1 || b % 2 == 1 then 1 else 0)
  }

  /** `a & b` on naturals. */
  function BitAnd(a: nat, b: nat): (r: nat)
    decreases a
  {
    if a == 0 || b == 0 then 0
    else 2 * BitAnd(a / 2, b / 2) + (if a % 2 == 1 && b % 2 == 1 then 1 else 0)
  }

  /** `a & ~b` on naturals: the bits of `a` that are not bits of `b`. */
  function AndNot(a: nat, b: nat): (r: nat)
    ensures r <= a
    decreases a
  {
    if a == 0 then 0
    else 2 * AndNot(a / 2, b / 2) + (if a % 2 == 1 && b % 2 == 0 then 1 else 0)
  }

  function Pow2(k: nat): (r: nat)
    ensures r >= 1
  {
    if k == 0 then 1 else 2 * Pow2(k - 1)
  }

  lemma Pow2Values()
    ensures Pow2(16) == 0x1_0000
    ensures Pow2(31) == TwoTo31
    ensures Pow2(32) == TwoTo32
  {
    assert Pow2(8) == 0x100;
    assert Pow2(16) == 0x1_0000;
    assert Pow2(24) == 0x100_0000;
  }

  /** `x | c` for a signed 32-bit `x` and a non-negative constant `c` below 2^31: again a signed
      32-bit integer, with the sign of `x`. */
  function Int32Or(x: int, c: nat): (r: int)
    requires IsInt32(x) && c < TwoTo31
    ensures IsInt32(r)
    ensures x >= 0 ==> r == BitOr(x, c)
    ensures x < 0 ==> x <= r < 0
  {
    if x >= 0 then
      Pow2Values();
      BitOrBelow(x, c, 31);
      BitOr(x, c)
    else
      -1 - AndNot(-1 - x, c)
  }

  /** OR never loses a bit: the result is at least each operand. */
  lemma {:induction false} BitOrAtLeastBoth(a: nat, b: nat)
    ensures BitOr(a, b) >= a && BitOr(a, b) >= b
    decreases a + b
  {
    if a != 0 && b != 0 {
      BitOrAtLeastBoth(a / 2, b / 2);
    }
  }

  /** OR of two numbers that fit in `k` bits fits in `k` bits. */
  lemma {:induction false} BitOrBelow(a: nat, b: nat, k: nat)
    requires a < Pow2(k) && b < Pow2(k)
    ensures BitOr(a, b) < Pow2(k)
    decreases a + b
  {
    if a != 0 && b != 0 {
      BitOrBelow(a / 2, b / 2, k - 1);
    }
  }

  /** `a | b == a` exactly when `a` already has every bit of `b`. */
  lemma {:induction false} BitOrFixedIff(a: nat, b: nat)
    ensures BitOr(a, b) == a <==> BitAnd(a, b) == b
    decreases a + b
  {
    if a != 0 && b != 0 {
      BitOrFixedIff(a / 2, b / 2);
    }
  }

  /** Splitting off the lowest bit: `a | b` is twice the OR of the upper bits plus the OR of the
      lowest bits, zero operands included. */
  lemma BitOrStep(a: nat, b: nat)
    ensures BitOr(a, b) == 2 * BitOr(a / 2, b / 2) + (if a % 2 == 1 || b % 2 == 1 then 1 else 0)
  {
    if a == 0 {
      assert BitOr(a / 2, b / 2) == b / 2;
    } else if b == 0 {
      assert BitOr(a / 2, b / 2) == a / 2;
    }
  }

  /** Within `k` bits, the complement of `a` is `Pow2(k) - 1 - a`, and the bits of `c` that `a`
      lacks make up what `a | c` adds to `a`: `(a | c) + (~a & ~c) == Pow2(k) - 1`. */
  lemma {:induction false} BitOrComplement(a: nat, c: nat, k: nat)
    requires a < Pow2(k) && c < Pow2(k)
    ensures BitOr(a, c) + AndNot(Pow2(k) - 1 - a, c) == Pow2(k) - 1
  {
    if k > 0 {
      var m := Pow2(k) - 1 - a;
      BitOrStep(a, c);
      BitOrComplement(a / 2, c / 2, k - 1);
      assert m / 2 == Pow2(k - 1) - 1 - a / 2 && m % 2 == 1 - a % 2;
    }
  }

  /** For a negative `x`, `Int32Or` is the OR of the 32-bit two's-complement pattern of `x` with
      `c`, read back as a signed number. */
  lemma Int32OrNegative(x: int, c: nat)
    requires IsInt32(x) && x < 0 && c < TwoTo31
    ensures Int32Or(x, c) == BitOr(x + TwoTo32, c) - TwoTo32
  {
    Pow2Values();
    BitOrComplement(x + TwoTo32, c, 32);
  }

  /** For an int32 nothing changes in the conversion. */
  lemma ToInt32OfInt32(x: int)
    requires IsInt32(x)
    ensures ToInt32(x) == x
  {
  }
}
