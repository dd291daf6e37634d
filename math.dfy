/**
 * Integer helpers shared by the containers: power-of-two tests and rounding,
 * and rounding up to a multiple (for alignment).
 *
 * The source works on unsigned machine integers; here they are `nat`, and the
 * bit trick `x & (x - 1)` is spelled out with `BitAnd`, a bit-by-bit AND on
 * naturals.
 */
module Math {

  /** 2 to the power k. */
  function Pow2(k: nat): (r: nat)
    ensures r >= 1
  {
    if k == 0 then 1 else 2 * Pow2(k - 1)
  }

  /** n is a power of two (1, 2, 4, ...); 0 is not. */
  predicate IsPow2(n: nat)
  {
    n == 1 || (n > 1 && n % 2 == 0 && IsPow2(n / 2))
  }

  lemma {:induction false} Pow2IsPow2(k: nat)
    ensures IsPow2(Pow2(k))
  {
    if k > 0 {
      Pow2IsPow2(k - 1);
      assert Pow2(k) / 2 == Pow2(k - 1);
    }
  }

  lemma {:induction false} Pow2Monotonic(j: nat, k: nat)
    requires j <= k
    ensures Pow2(j) <= Pow2(k)
  {
    if j < k {
      Pow2Monotonic(j, k - 1);
    }
  }

  /** Floor of the base-2 logarithm of a positive number. */
  function Log2Floor(n: nat): nat
    requires n >= 1
  {
    if n == 1 then 0 else 1 + Log2Floor(n / 2)
  }

  lemma {:induction false} Log2FloorBounds(n: nat)
    requires n >= 1
    ensures Pow2(Log2Floor(n)) <= n < Pow2(Log2Floor(n) + 1)
  {
    if n > 1 {
      Log2FloorBounds(n / 2);
    }
  }

  lemma {:induction false} IsPow2IsPow2OfLog(n: nat)
    requires IsPow2(n)
    ensures n == Pow2(Log2Floor(n))
  {
    if n > 1 {
      IsPow2IsPow2OfLog(n / 2);
    }
  }

  /** Bitwise AND of two unsigned integers, one bit at a time from the least significant. */
  function BitAnd(a: nat, b: nat): (r: nat)
    ensures r <= a && r <= b
  {
    if a == 0 || b == 0 then 0
    else 2 * BitAnd(a / 2, b / 2) + (if a % 2 == 1 && b % 2 == 1 then 1 else 0)
  }

  lemma {:induction false} BitAndSelf(a: nat)
    ensures BitAnd(a, a) == a
  {
    if a > 0 {
      BitAndSelf(a / 2);
    }
  }

  /** `isPowerOf2`: nonzero and clearing the lowest set bit leaves nothing. */
  predicate IsPowerOf2(x: nat)
  {
    x != 0 && BitAnd(x, x - 1) == 0
  }

  /** The bit trick of `isPowerOf2` holds exactly of the powers of two, and never of 0. */
  lemma {:induction false} IsPowerOf2Correct(x: nat)
    ensures IsPowerOf2(x) <==> IsPow2(x)
  {
    if x > 1 {
      var y := x / 2;
      if x % 2 == 0 {
        // x = 2y and x - 1 = 2(y - 1) + 1, so the AND is twice the AND of y and y - 1
        assert (x - 1) / 2 == y - 1 && (x - 1) % 2 == 1;
        assert BitAnd(x, x - 1) == 2 * BitAnd(y, y - 1);
        IsPowerOf2Correct(y);
      } else {
        // x = 2y + 1 and x - 1 = 2y, so the AND is 2y, nonzero
        assert (x - 1) / 2 == y && (x - 1) % 2 == 0;
        BitAndSelf(y);
        assert BitAnd(x, x - 1) == 2 * y;
      }
    }
  }

  /** `isMultipleOf`: 0 is never a multiple; otherwise the remainder is 0. */
  predicate IsMultipleOf(a: nat, b: nat)
    requires b != 0
  {
    a != 0 && a % b == 0
  }

  /** `roundUpToMultipleOf`: with b == 0 no alignment is applied. */
  function RoundUpToMultipleOf(a: nat, b: nat): (r: nat)
    ensures b == 0 ==> r == a
    ensures b > 0 ==> r % b == 0 && a <= r < a + b
  {
    if b == 0 then a
    else
      var q := (a + b - 1) / b;
      DivMulBounds(a + b - 1, b);
      MulMod(q, b);
      q * b
  }

  // Multiplication and division steps used by the rounding proofs; they have no counterpart in the source.

  lemma DivMulBounds(n: nat, b: nat)
    requires b > 0
    ensures n - b < (n / b) * b <= n
  {
  }

  lemma MulMod(q: nat, b: nat)
    requires b > 0
    ensures (q * b) % b == 0
  {
    var n := q * b;
    // (q - n / b) * b == n % b lies in [0, b), which forces the difference to 0
    ZeroMul(q - n / b, b);
  }

  /**
   * x is a multiple of a, stated by repeated subtraction so that the solver stays in linear
   * arithmetic; AlignedIsMod ties it to `x % a == 0`.
   */
  predicate Aligned(x: nat, a: nat)
    requires a > 0
    decreases x
  {
    if x < a then x == 0 else Aligned(x - a, a)
  }

  lemma {:induction false} AlignedIsMod(x: nat, a: nat)
    requires a > 0
    ensures Aligned(x, a) <==> x % a == 0
    decreases x
  {
    if x >= a {
      AlignedIsMod(x - a, a);
      // (x - a) and x leave the same remainder: the quotients differ by exactly one
      var q, q2 := x / a, (x - a) / a;
      assert (q - 1 - q2) * a == (x - a) % a - x % a;
      ZeroMul(q - 1 - q2, a);
    }
  }

  /** The sum of two aligned sizes is aligned. */
  lemma {:induction false} AlignedAdd(x: nat, y: nat, a: nat)
    requires a > 0 && Aligned(x, a) && Aligned(y, a)
    ensures Aligned(x + y, a)
    decreases x
  {
    if x >= a {
      AlignedAdd(x - a, y, a);
      assert x + y - a == (x - a) + y;
    }
  }

  // Arithmetic steps for the proofs nearby; no counterpart in the source.
  lemma ZeroMul(d: int, b: int)
    requires b > 0 && -b < d * b < b
    ensures d == 0
  {
    MulSign(d, b);
  }

  lemma MulSign(d: int, b: int)
    requires b > 0
    ensures d > 0 ==> d * b >= b
    ensures d < 0 ==> d * b <= -b
  {
  }

  /** The rounded value is the least multiple of b that is at least a. */
  lemma RoundUpIsLeast(a: nat, b: nat, m: nat)
    requires b > 0 && m % b == 0 && m >= a
    ensures m >= RoundUpToMultipleOf(a, b)
  {
    var qm := m / b;
    assert m == qm * b;
    // a + b - 1 < (qm + 1) * b, so the quotient used by the rounding is at most qm
    DivMulBounds(a + b - 1, b);
    MulCancelLess((a + b - 1) / b, qm + 1, b);
    MulMonotonic((a + b - 1) / b, qm, b);
  }

  // Arithmetic steps for the proofs nearby; no counterpart in the source.
  lemma MulMonotonic(x: nat, y: nat, b: nat)
    requires x <= y
    ensures x * b <= y * b
  {
  }

  lemma MulCancelLess(x: nat, y: nat, b: nat)
    requires x * b < y * b
    ensures x < y
  {
  }

  /** Rounding an existing multiple changes nothing. */
  lemma {:induction false} RoundUpOfMultiple(a: nat, b: nat)
    requires b > 0 && a % b == 0
    ensures RoundUpToMultipleOf(a, b) == a
  {
    RoundUpIsLeast(a, b, a);
  }

  /** Rounding up is idempotent. */
  lemma {:induction false} RoundUpIdempotent(a: nat, b: nat)
    ensures RoundUpToMultipleOf(RoundUpToMultipleOf(a, b), b) == RoundUpToMultipleOf(a, b)
  {
    if b > 0 {
      RoundUpOfMultiple(RoundUpToMultipleOf(a, b), b);
    }
  }

  /** For a, b > 0 the rounded value is a multiple in the sense of `isMultipleOf`. */
  lemma {:induction false} RoundUpIsMultiple(a: nat, b: nat)
    requires a > 0 && b > 0
    ensures IsMultipleOf(RoundUpToMultipleOf(a, b), b)
  {
  }

  /** The least power of two strictly greater than n. */
  function LeastPow2Above(n: nat): (r: nat)
  {
    if n == 0 then 1 else Pow2(Log2Floor(n) + 1)
  }

  /** `LeastPow2Above(n)` is a power of two above n, and no power of two above n is smaller. */
  lemma {:induction false} LeastPow2AboveIsLeast(n: nat, k: nat)
    ensures IsPow2(LeastPow2Above(n)) && LeastPow2Above(n) > n
    ensures Pow2(k) > n ==> Pow2(k) >= LeastPow2Above(n)
  {
    if n == 0 {
      Pow2IsPow2(0);
    } else {
      var l := Log2Floor(n);
      Pow2IsPow2(l + 1);
      Log2FloorBounds(n);
      if Pow2(k) > n && k < l + 1 {
        Pow2Monotonic(k, l);
        assert false;
      }
      if k >= l + 1 {
        Pow2Monotonic(l + 1, k);
      }
    }
  }

  /** A power of two at most n, doubled, is still at most the least power of two above n. */
  lemma {:induction false} DoublingStaysBelow(n: nat, k: nat)
    requires Pow2(k) <= n
    ensures Pow2(k + 1) <= LeastPow2Above(n)
  {
    Log2FloorBounds(n);
    if k >= Log2Floor(n) + 1 {
      Pow2Monotonic(Log2Floor(n) + 1, k);
    }
    Pow2Monotonic(k + 1, Log2Floor(n) + 1);
  }

  /** 2^63: doubling a 64-bit `size_t` from 1 passes every n below this without wrapping. */
  const SizeMaxHalf: nat := Pow2(63)

  /**
   * `next_pow2`: doubles `result` from 1 until it exceeds n. With a 64-bit `size_t`
   * and n >= 2^63 the doubling wraps to 0 and the loop never ends, hence the precondition.
   */
  method NextPow2(n: nat) returns (result: nat)
    requires n < SizeMaxHalf
    ensures result == LeastPow2Above(n)
    ensures result <= SizeMaxHalf
  {
    result := 1;
    ghost var k: nat := 0;
    LeastPow2AboveIsLeast(n, 0);
    while result <= n
      invariant result == Pow2(k)
      invariant result <= LeastPow2Above(n)
      decreases n + 1 - result
    {
      DoublingStaysBelow(n, k);
      result := result * 2;
      k := k + 1;
    }
    LeastPow2AboveIsLeast(n, k);
    LeastPow2AboveIsLeast(n, 63);
  }

  /**
   * `round_pow2`: n itself when n is a nonzero power of two (by the bit trick),
   * otherwise `next_pow2(n)`. The result is the least power of two that is >= n.
   * Above 2^63 (not itself a power of two) `next_pow2` never returns, hence the precondition.
   */
  function RoundPow2(n: nat): (r: nat)
    requires n <= SizeMaxHalf
    ensures IsPow2(r) && r >= n
    ensures forall k: nat :: Pow2(k) >= n ==> Pow2(k) >= r
    ensures n >= 1 ==> r < 2 * n
  {
    IsPowerOf2Correct(n);
    if n == 0 || BitAnd(n, n - 1) != 0 then
      LeastPow2AboveIsLeastAll(n);
      LeastPow2AboveBelowDouble(n);
      LeastPow2Above(n)
    else
      IsPow2IsPow2OfLog(n);
      assert forall k: nat :: Pow2(k) >= n ==> Pow2(k) >= n;
      n
  }

  lemma LeastPow2AboveIsLeastAll(n: nat)
    ensures IsPow2(LeastPow2Above(n)) && LeastPow2Above(n) > n
    ensures forall k: nat :: Pow2(k) >= n && !IsPow2(n) ==> Pow2(k) >= LeastPow2Above(n)
  {
    LeastPow2AboveIsLeast(n, 0);
    forall k: nat | Pow2(k) >= n && !IsPow2(n)
      ensures Pow2(k) >= LeastPow2Above(n)
    {
      Pow2IsPow2(k);
      LeastPow2AboveIsLeast(n, k);
    }
  }

  /** For n >= 1 the next power of two is at most 2n. */
  lemma {:induction false} LeastPow2AboveBelowDouble(n: nat)
    ensures n >= 1 ==> LeastPow2Above(n) <= 2 * n
  {
    if n >= 1 {
      Log2FloorBounds(n);
    }
  }

  lemma {:induction false} RoundPow2OfZero()
    ensures RoundPow2(0) == 1
  {
    assert Pow2(0) >= 0;
  }

  /** A nonzero power of two is its own rounding. */
  lemma {:induction false} RoundPow2OfPow2(n: nat)
    requires IsPow2(n) && n <= SizeMaxHalf
    ensures RoundPow2(n) == n
  {
    IsPow2IsPow2OfLog(n);
    var r := RoundPow2(n);
    assert Pow2(Log2Floor(n)) >= n;
  }
}
