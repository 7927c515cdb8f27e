/** The two .NET numeric helpers the protocol uses: `Math.Clamp` and `Math.Round`
    with its default midpoint mode (to even), over exact reals. */
module Numerics {

  /** `Math.Clamp(value, lo, hi)` on doubles. */
  function Clamp(x: real, lo: real, hi: real): (r: real)
    requires lo <= hi
    ensures lo <= r <= hi
    ensures lo <= x <= hi ==> r == x
    ensures x < lo ==> r == lo
    ensures hi < x ==> r == hi
  {
    if x < lo then lo else if x > hi then hi else x
  }

  /** Clamping keeps order and is idempotent: a larger input never clamps to a smaller
      value, and a clamped value clamps to itself. */
  lemma ClampOrder(x: real, y: real, lo: real, hi: real)
    requires lo <= hi && x <= y
    ensures Clamp(x, lo, hi) <= Clamp(y, lo, hi)
    ensures Clamp(Clamp(x, lo, hi), lo, hi) == Clamp(x, lo, hi)
  {
  }

  /** `Math.Clamp(value, lo, hi)` on ints: the same clamp as on reals, at integer points. */
  function ClampInt(x: int, lo: int, hi: int): (r: int)
    requires lo <= hi
    ensures r as real == Clamp(x as real, lo as real, hi as real)
  {
    if x < lo then lo else if x > hi then hi else x
  }

  /** `r` is a nearest integer to `x`, and the even one when `x` lies halfway. */
  ghost predicate NearestEven(x: real, r: int)
  {
    && x - 0.5 <= r as real <= x + 0.5
    && (r as real == x - 0.5 || r as real == x + 0.5 ==> r % 2 == 0)
  }

  /** `Math.Round(x)`: round to the nearest integer, halves to the even neighbour. */
  function RoundHalfEven(x: real): (r: int)
    ensures NearestEven(x, r)
  {
    var f := x.Floor;
    var frac := x - f as real;
    if frac < 0.5 then f
    else if frac > 0.5 then f + 1
    else if f % 2 == 0 then f
    else f + 1
  }

  /** At most one integer is nearest-and-even for a given real, so `RoundHalfEven`
      is the unique such integer. */
  lemma NearestEvenUnique(x: real, r: int, s: int)
    requires NearestEven(x, r) && NearestEven(x, s)
    ensures r == s
  {
  }

  /** Rounding never decreases as its argument grows. */
  lemma RoundMonotone(x: real, y: real)
    requires x <= y
    ensures RoundHalfEven(x) <= RoundHalfEven(y)
  {
  }

  /** Rounding an integer gives that integer. */
  lemma RoundOfInt(n: int)
    ensures RoundHalfEven(n as real) == n
  {
    NearestEvenUnique(n as real, RoundHalfEven(n as real), n);
  }

  lemma EvenReflect(m: int, r: int)
    ensures (2 * m - r) % 2 == 0 <==> r % 2 == 0
  {
    var q, b := r / 2, r % 2;
    Parity(r, q, b);
    if b == 0 {
      Parity(2 * m - r, m - q, 0);
    } else {
      Parity(2 * m - r, m - q - 1, 1);
    }
  }

  /** An integer 2k + b with b in {0, 1} has remainder b modulo 2. */
  lemma Parity(a: int, k: int, b: int)
    requires a == 2 * k + b && 0 <= b < 2
    ensures a % 2 == b
  {
  }

  /** Reflecting the argument about an even integer reflects the rounded value:
      ties go to even on both sides, so the rounding is symmetric about it. */
  lemma RoundReflect(x: real, m: int)
    ensures RoundHalfEven(2.0 * m as real - x) == 2 * m - RoundHalfEven(x)
  {
    var r := RoundHalfEven(x);
    var y := 2.0 * m as real - x;
    assert NearestEven(y, 2 * m - r) by {
      EvenReflect(m, r);
    }
    NearestEvenUnique(y, RoundHalfEven(y), 2 * m - r);
  }
}
