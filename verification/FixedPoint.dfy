/**
 FixedPoint/FixedPoint.hpp: numbers scaled by 10^8 and kept as integers.  A product drops its
 surplus digits, a quotient is truncated, and both cut towards zero.
 */
module FixedPoint {
  import opened NumberTheory

  /** shift: the integer that stands for one. */
  const S: int := 100000000
  /** The number 0.5. */
  const HALF: int := 50000000

  /** C++ division: truncation towards zero. */
  function TruncDiv(a: int, b: int): int
    requires 0 < b
  {
    if a >= 0 then a / b else -((-a) / b)
  }

  /** C++ remainder: it takes the sign of the dividend. */
  function TruncMod(a: int, b: int): int
    requires 0 < b
  {
    a - b * TruncDiv(a, b)
  }

  function Product(a: int, b: int): int {
    TruncDiv(a * b, S)
  }

  function Ratio(a: int, b: int): int
    requires b != 0
  {
    if b > 0 then TruncDiv(a * S, b) else -TruncDiv(a * S, -b)
  }

  function Magnitude(v: int): nat {
    if v >= 0 then v else -v
  }

  predicate Within(v: int, target: int, bound: int) {
    -bound <= v - target <= bound
  }

  /** A whole number. */
  predicate IsWhole(v: int) {
    v % S == 0
  }

  lemma TruncError(a: int, b: int)
    requires 0 < b
    ensures Within(b * TruncDiv(a, b), a, b - 1)
    ensures Within(a - TruncMod(a, b), a, b - 1)
  {
  }

  /** The digits above the cut, with what is cut off of the same sign as a. */
  predicate IsCut(a: int, b: int, q: int) {
    -b < a - b * q < b && (a >= 0 ==> a - b * q >= 0) && (a <= 0 ==> a - b * q <= 0)
  }

  /** Truncation cuts towards zero, and nothing else does. */
  lemma CutTowardsZero(a: int, b: int, q: int)
    requires 0 < b
    ensures IsCut(a, b, q) <==> q == TruncDiv(a, b)
  {
    if IsCut(a, b, q) {
      if a >= 0 {
        ModUnique(a, q, a - b * q, b);
      } else {
        NegatedMultiple(b * q, b, q);
        ModUnique(-a, -q, b * q - a, b);
      }
    }
  }

  lemma TruncExact(a: int, b: int, q: int)
    requires 0 < b && a == q * b
    ensures TruncDiv(a, b) == q && TruncMod(a, b) == 0
  {
    if a >= 0 { ModUnique(a, q, 0, b); } else { NegatedMultiple(a, b, q); ModUnique(-a, -q, 0, b); }
  }

  lemma NegatedMultiple(a: int, b: int, q: int)
    requires a == q * b
    ensures -a == (-q) * b
  {
  }

  /** Half of v, cut towards zero. */
  lemma HalfOf(v: int)
    ensures Within(2 * Product(v, HALF), v, 1)
  {
    TruncError(v * HALF, S);
    var q := Product(v, HALF);
    assert v * HALF == HALF * v;
    assert -2 * HALF < 2 * HALF * q - HALF * v < 2 * HALF;
  }

  // ---------- rounding ----------

  /** std::round: to the nearest whole number, halves away from zero. */
  function Round(v: int): int {
    if v >= 0 then (2 * v + S) / (2 * S) else -((-2 * v + S) / (2 * S))
  }

  lemma RoundIsNearest(v: int)
    ensures Within(2 * v, 2 * S * Round(v), S)
    ensures v >= 0 ==> 2 * v < 2 * S * Round(v) + S
    ensures v <= 0 ==> 2 * v > 2 * S * Round(v) - S
  {
  }

  /** mypow: square and multiply. */
  method MyPow(a_: int, n_: nat) returns (ret: int)
    ensures ret == Pow(a_, n_)
  {
    var a, n := a_, n_;
    ret := 1;
    while n > 0
      invariant ret * Pow(a, n) == Pow(a_, n_)
    {
      PowRound(a, n, ret);
      if n % 2 == 1 { ret := ret * a; }
      a := a * a;
      n := n / 2;
    }
  }

  lemma PowRound(a: int, n: nat, ret: int)
    requires n > 0
    ensures (if n % 2 == 1 then ret * a else ret) * Pow(a * a, n / 2) == ret * Pow(a, n)
  {
    assert Pow(a, 2) == a * (a * Pow(a, 0)) == a * a;
    PowMul(a, 2, n / 2);
    if n % 2 == 1 {
      assert Pow(a, n) == a * Pow(a, 2 * (n / 2));
      Regroup(ret, a, Pow(a * a, n / 2));
    }
  }

  lemma Regroup(x: int, y: int, z: int)
    ensures (x * y) * z == x * (y * z)
  {
  }
}
