/**
 The modulus 2^64 - 59 is prime.  The program relies on this without checking it; here it is
 proved by Pocklington's criterion, from the factorisation
   2^64 - 60 = 2^2 * 11 * 137 * 547 * 5594472617641.
 Powers of two are evaluated eight bits at a time over `real` literals, which the verifier
 folds at once.
 */
module PrimeModulus {
  import opened NumberTheory

  const P: int := 18446744073709551557

  // ---------- divisors ----------

  lemma DividesTrans(d: int, m: int, n: int)
    requires 0 < d && 0 < m && Divides(d, m) && Divides(m, n)
    ensures Divides(d, n)
  {
    var j, k := m / d, n / m;
    assert n == k * (j * d) == (k * j) * d;
    MultipleMod(k * j, d);
  }

  lemma Cofactor(n: int, m: int) returns (k: int)
    requires 2 <= m < n && Divides(m, n)
    ensures 2 <= k < n && k * m == n && Divides(k, n)
  {
    k := n / m;
    assert n == k * m == m * k;
    MultipleMod(m, k);
  }

  lemma LeastDivisorIsPrime(n: int, m: int)
    requires 2 <= m < n && Divides(m, n) && forall d :: 2 <= d < m ==> !Divides(d, n)
    ensures IsPrime(m)
  {
    forall d | 2 <= d < m ensures !Divides(d, m) {
      if Divides(d, m) { DividesTrans(d, m, n); }
    }
  }

  lemma SquareMonotone(x: int, y: int)
    requires 0 <= x <= y
    ensures x * x <= y * x && x * x <= y * y
  {
  }

  /** A composite number has a prime divisor no larger than its square root. */
  lemma {:induction false} PrimeDivisor(n: int, m: int) returns (r: int)
    requires 2 <= m < n && Divides(m, n)
    ensures IsPrime(r) && Divides(r, n) && r * r <= n && r <= m
    decreases m
  {
    if k :| 2 <= k < m && Divides(k, n) {
      r := PrimeDivisor(n, k);
    } else {
      r := m;
      LeastDivisorIsPrime(n, m);
      var k := Cofactor(n, m);
      SquareMonotone(m, k);
    }
  }

  lemma ReduceModulus(y: int, c: int, n: int, r: int)
    requires 0 < r <= n && Divides(r, n) && y % n == c % n
    ensures y % r == c % r
  {
    DifferenceMod(y, c, n);
    var k, j := (y - c) / n, n / r;
    assert y - c == k * (j * r) == (k * j) * r;
    MultipleMod(k * j, r);
    DifferenceMod(y, c, r);
  }

  // ---------- Pocklington's criterion ----------

  lemma ZeroPow(e: nat)
    requires 0 < e
    ensures Pow(0, e) == 0
  {
  }

  lemma RootOfOne(x: int, d: nat, k: nat, r: int)
    requires 2 <= r && Pow(x, d) % r == 1
    ensures Pow(x, d * k) % r == 1
  {
    PowMul(x, d, k);
    ModSmall(1, r);
    PowMod(Pow(x, d), 1, k, r);
    PowOne(k);
  }

  lemma PositiveInverse(d: nat, q: int) returns (u: nat, v: nat)
    requires IsPrime(q) && d % q != 0
    ensures d * u == q * v + 1
  {
    var u0 := InverseExists(d, q);
    u := u0 % q;
    ModMul(u0, d, q);
    assert u0 * d == d * u0 && u * d == d * u;
    v := (d * u) / q;
  }

  /** If r - 1 and q are coprime, x^q = 1 forces x = 1 modulo the prime r. */
  lemma CoprimeOrder(x: int, q: int, r: int)
    requires IsPrime(q) && IsPrime(r) && (r - 1) % q != 0 && Pow(x, q) % r == 1
    ensures x % r == 1
  {
    if x % r == 0 {
      ModSmall(0, r);
      ZeroPow(q);
      PowMod(x, 0, q, r);
    }
    Fermat(x, r);
    var u, v := PositiveInverse(r - 1, q);
    // x^((r-1)u) = 1, and x^(qv+1) = x
    RootOfOne(x, r - 1, u, r);
    PowerPlusOne(x, q, v, r);
  }

  lemma TimesOne(x: int, y: int, r: int)
    requires 2 <= r && y % r == 1
    ensures (x * y) % r == x % r
  {
    ModSmall(1, r);
    CongMul(x, x, y, 1, r);
  }

  lemma PowerPlusOne(x: int, q: nat, v: nat, r: int)
    requires 2 <= r && Pow(x, q) % r == 1
    ensures Pow(x, q * v + 1) % r == x % r
  {
    RootOfOne(x, q, v, r);
    TimesOne(x, Pow(x, q * v), r);
  }

  lemma NoUnitBelow(x: int, w: int, n: int, r: int)
    requires 2 <= r < n && Divides(r, n) && (w * (x % n - 1)) % n == 1
    ensures x % r != 1
  {
    ModSmall(1, n);
    ModSmall(1, r);
    ReduceModulus(w * (x % n - 1), 1, n, r);
    if x % r == 1 {
      ModSmall(x % n, n);
      ReduceModulus(x % n, x, n, r);
      DifferenceMod(x % n, 1, r);
      ModSmall(0, r);
      CongMul(w, w, x % n - 1, 0, r);
    }
  }

  predicate IsInverse(w: int, y: int, n: int) {
    0 < n && (w * y) % n == 1
  }

  /** 2^(n-1) = 1 modulo n, and 2^((n-1)/q) - 1 has the inverse w modulo n. */
  ghost predicate Witness(n: int, q: int, f: nat, x: int, w: int) {
    && 2 <= q < n && q * f == n - 1
    && PowerOfTwo(n, n - 1, 1)
    && PowerOfTwo(n, f, x)
    && IsInverse(w, x - 1, n)
  }

  /** Every prime divisor of n is one more than a multiple of q. */
  lemma Pocklington(n: int, q: int, f: nat, x: int, w: int, r: int)
    requires Witness(n, q, f, x, w) && IsPrime(q) && IsPrime(r) && r < n && Divides(r, n)
    ensures (r - 1) % q == 0
  {
    PowMul(2, f, q);
    assert f * q == q * f;
    ModSmall(1, n);
    ReduceModulus(Pow(Pow(2, f), q), 1, n, r);
    ModSmall(1, r);
    NoUnitBelow(Pow(2, f), w, n, r);
    if (r - 1) % q != 0 {
      CoprimeOrder(Pow(2, f), q, r);
    }
  }

  lemma MultipleIsLarge(x: int, q: int)
    requires 0 < x && 0 < q && x % q == 0
    ensures x >= q
  {
  }

  /** One certified prime above the square root of n is enough. */
  lemma PrimeByWitness(n: int, q: int, f: nat, x: int, w: int)
    requires Witness(n, q, f, x, w) && IsPrime(q) && q * q > n
    ensures IsPrime(n)
  {
    if m :| 2 <= m < n && Divides(m, n) {
      var r := PrimeDivisor(n, m);
      Pocklington(n, q, f, x, w, r);
      MultipleIsLarge(r - 1, q);
      SquareMonotone(q, r);
    }
  }

  // ---------- evaluating powers of two ----------

  ghost predicate PowerOfTwo(n: int, e: nat, x: int)
  {
    0 < n && Pow(2, e) % n == x
  }

  function Residue(y: real, n: real): real
    requires n > 0.0
  {
    y - n * (y / n).Floor as real
  }

  /** Squares four times, multiplying by m3, ..., m0 on the way. */
  function FourSquarings(x: real, m3: real, m2: real, m1: real, m0: real): real {
    var x3 := x * x * m3;
    var x2 := x3 * x3 * m2;
    var x1 := x2 * x2 * m1;
    x1 * x1 * m0
  }

  lemma RealProduct(a: int, b: int)
    ensures (a * b) as real == a as real * b as real
  {
  }

  lemma ResidueIsMod(y: int, n: int)
    requires 0 < n
    ensures Residue(y as real, n as real) == (y % n) as real
  {
    var q, z := y / n, y as real / n as real;
    assert y == n * q + y % n;
    RealProduct(n, q);
    assert z * n as real == y as real;
    assert q as real <= z < q as real + 1.0 by {
      if z < q as real { RealOrder(z, q as real, n as real); }
      if z >= q as real + 1.0 { RealOrder(q as real + 1.0, z, n as real); }
    }
    assert z.Floor == q;
  }

  lemma RealOrder(a: real, b: real, n: real)
    requires n > 0.0
    ensures a < b ==> a * n < b * n
    ensures a <= b ==> a * n <= b * n
  {
  }

  /** One squaring, and one doubling when m is 2. */
  lemma OneSquaring(n: int, e: nat, x: int, m: int) returns (y: int)
    requires 0 < n && Pow(2, e) % n == x % n && 1 <= m <= 2
    ensures y == x * x * m
    ensures Pow(2, 2 * e + m - 1) % n == y % n
  {
    y := x * x * m;
    PowAdd(2, e, e);
    CongMul(Pow(2, e), x, Pow(2, e), x, n);
    if m == 2 {
      CongMul(Pow(2, 2 * e), x * x, 2, 2, n);
      assert Pow(2, 2 * e + 1) == 2 * Pow(2, 2 * e);
    }
  }

  lemma RealSquaring(x: int, m: int, y: int)
    requires y == x * x * m
    ensures y as real == x as real * x as real * m as real
  {
    RealProduct(x, x);
    RealProduct(x * x, m);
  }

  lemma RealSquarings(x: int, m3: int, m2: int, m1: int, m0: int, x3: int, x2: int, x1: int, x0: int)
    requires x3 == x * x * m3 && x2 == x3 * x3 * m2 && x1 == x2 * x2 * m1 && x0 == x1 * x1 * m0
    ensures x3 as real == x as real * x as real * m3 as real
    ensures x2 as real == x3 as real * x3 as real * m2 as real
    ensures x1 as real == x2 as real * x2 as real * m1 as real
    ensures x0 as real == x1 as real * x1 as real * m0 as real
  {
    RealSquaring(x, m3, x3);
    RealSquaring(x3, m2, x2);
    RealSquaring(x2, m1, x1);
    RealSquaring(x1, m0, x0);
  }

  lemma FoldSquarings(x: real, m3: real, m2: real, m1: real, m0: real, x3: real, x2: real, x1: real, x0: real)
    requires x3 == x * x * m3 && x2 == x3 * x3 * m2 && x1 == x2 * x2 * m1 && x0 == x1 * x1 * m0
    ensures x0 == FourSquarings(x, m3, m2, m1, m0)
  {
  }

  lemma RealFourSquarings(x: int, m3: int, m2: int, m1: int, m0: int, x3: int, x2: int, x1: int, x0: int)
    requires x3 == x * x * m3 && x2 == x3 * x3 * m2 && x1 == x2 * x2 * m1 && x0 == x1 * x1 * m0
    ensures x0 as real == FourSquarings(x as real, m3 as real, m2 as real, m1 as real, m0 as real)
  {
    RealSquarings(x, m3, m2, m1, m0, x3, x2, x1, x0);
    FoldSquarings(x as real, m3 as real, m2 as real, m1 as real, m0 as real,
                  x3 as real, x2 as real, x1 as real, x0 as real);
  }

  lemma FourWholeSteps(n: int, e: nat, x: int, m3: int, m2: int, m1: int, m0: int)
    returns (x3: int, x2: int, x1: int, x0: int)
    requires 0 < n && Pow(2, e) % n == x % n
    requires 1 <= m3 <= 2 && 1 <= m2 <= 2 && 1 <= m1 <= 2 && 1 <= m0 <= 2
    ensures x3 == x * x * m3 && x2 == x3 * x3 * m2 && x1 == x2 * x2 * m1 && x0 == x1 * x1 * m0
    ensures Pow(2, 16 * e + 8 * m3 + 4 * m2 + 2 * m1 + m0 - 15) % n == x0 % n
  {
    x3 := OneSquaring(n, e, x, m3);
    x2 := OneSquaring(n, 2 * e + m3 - 1, x3, m2);
    x1 := OneSquaring(n, 4 * e + 2 * m3 + m2 - 3, x2, m1);
    x0 := OneSquaring(n, 8 * e + 4 * m3 + 2 * m2 + m1 - 7, x1, m0);
  }

  lemma FourSteps(n: int, e: nat, x: int, m3: int, m2: int, m1: int, m0: int) returns (x0: int)
    requires 0 < n && Pow(2, e) % n == x % n
    requires 1 <= m3 <= 2 && 1 <= m2 <= 2 && 1 <= m1 <= 2 && 1 <= m0 <= 2
    ensures x0 as real == FourSquarings(x as real, m3 as real, m2 as real, m1 as real, m0 as real)
    ensures Pow(2, 16 * e + 8 * m3 + 4 * m2 + 2 * m1 + m0 - 15) % n == x0 % n
  {
    var x3, x2, x1;
    x3, x2, x1, x0 := FourWholeSteps(n, e, x, m3, m2, m1, m0);
    RealFourSquarings(x, m3, m2, m1, m0, x3, x2, x1, x0);
  }

  /** Four more bits of the exponent, the residue y computed over the reals. */
  lemma FourBits(n: int, e: nat, x: int, m3: int, m2: int, m1: int, m0: int, y: int)
    requires PowerOfTwo(n, e, x)
    requires 1 <= m3 <= 2 && 1 <= m2 <= 2 && 1 <= m1 <= 2 && 1 <= m0 <= 2
    requires y as real == Residue(FourSquarings(x as real, m3 as real, m2 as real, m1 as real, m0 as real), n as real)
    ensures PowerOfTwo(n, 16 * e + 8 * m3 + 4 * m2 + 2 * m1 + m0 - 15, y)
  {
    ModSmall(x, n);
    var x0 := FourSteps(n, e, x, m3, m2, m1, m0);
    ResidueIsMod(x0, n);
  }

  lemma PowerZero(n: int)
    requires 1 < n
    ensures PowerOfTwo(n, 0, 1)
  {
    ModSmall(1, n);
  }

  // ---------- the certificate ----------

  predicate NoDivisorFrom(count: nat, d: int, n: int)
    requires 2 <= d
  {
    count == 0 || (n % d != 0 && NoDivisorFrom(count - 1, d + 1, n))
  }

  lemma ModulusFermat()
    ensures PowerOfTwo(18446744073709551557, 18446744073709551556, 1)
  {
    PowerZero(18446744073709551557);
    assert Residue(FourSquarings(1.0, 2.0, 2.0, 2.0, 2.0), 18446744073709551557.0) == 32768.0;
    FourBits(18446744073709551557, 0, 1, 2, 2, 2, 2, 32768);
    assert Residue(FourSquarings(32768.0, 2.0, 2.0, 2.0, 2.0), 18446744073709551557.0) == 9223372036860834459.0;
    FourBits(18446744073709551557, 15, 32768, 2, 2, 2, 2, 9223372036860834459);
    assert Residue(FourSquarings(9223372036860834459.0, 2.0, 2.0, 2.0, 2.0), 18446744073709551557.0) == 3343033315822585235.0;
    FourBits(18446744073709551557, 255, 9223372036860834459, 2, 2, 2, 2, 3343033315822585235);
    assert Residue(FourSquarings(3343033315822585235.0, 2.0, 2.0, 2.0, 2.0), 18446744073709551557.0) == 5551234557778193334.0;
    FourBits(18446744073709551557, 4095, 3343033315822585235, 2, 2, 2, 2, 5551234557778193334);
    assert Residue(FourSquarings(5551234557778193334.0, 2.0, 2.0, 2.0, 2.0), 18446744073709551557.0) == 12013744823476576347.0;
    FourBits(18446744073709551557, 65535, 5551234557778193334, 2, 2, 2, 2, 12013744823476576347);
    assert Residue(FourSquarings(12013744823476576347.0, 2.0, 2.0, 2.0, 2.0), 18446744073709551557.0) == 15851729483509411561.0;
    FourBits(18446744073709551557, 1048575, 12013744823476576347, 2, 2, 2, 2, 15851729483509411561);
    assert Residue(FourSquarings(15851729483509411561.0, 2.0, 2.0, 2.0, 2.0), 18446744073709551557.0) == 3341472985547990814.0;
    FourBits(18446744073709551557, 16777215, 15851729483509411561, 2, 2, 2, 2, 3341472985547990814);
    assert Residue(FourSquarings(3341472985547990814.0, 2.0, 2.0, 2.0, 2.0), 18446744073709551557.0) == 13628203148164281754.0;
    FourBits(18446744073709551557, 268435455, 3341472985547990814, 2, 2, 2, 2, 13628203148164281754);
    assert Residue(FourSquarings(13628203148164281754.0, 2.0, 2.0, 2.0, 2.0), 18446744073709551557.0) == 828920177477423828.0;
    FourBits(18446744073709551557, 4294967295, 13628203148164281754, 2, 2, 2, 2, 828920177477423828);
    assert Residue(FourSquarings(828920177477423828.0, 2.0, 2.0, 2.0, 2.0), 18446744073709551557.0) == 14677469391228079111.0;
    FourBits(18446744073709551557, 68719476735, 828920177477423828, 2, 2, 2, 2, 14677469391228079111);
    assert Residue(FourSquarings(14677469391228079111.0, 2.0, 2.0, 2.0, 2.0), 18446744073709551557.0) == 12840471350872743085.0;
    FourBits(18446744073709551557, 1099511627775, 14677469391228079111, 2, 2, 2, 2, 12840471350872743085);
    assert Residue(FourSquarings(12840471350872743085.0, 2.0, 2.0, 2.0, 2.0), 18446744073709551557.0) == 13750443415860450410.0;
    FourBits(18446744073709551557, 17592186044415, 12840471350872743085, 2, 2, 2, 2, 13750443415860450410);
    assert Residue(FourSquarings(13750443415860450410.0, 2.0, 2.0, 2.0, 2.0), 18446744073709551557.0) == 8232201345549008764.0;
    FourBits(18446744073709551557, 281474976710655, 13750443415860450410, 2, 2, 2, 2, 8232201345549008764);
    assert Residue(FourSquarings(8232201345549008764.0, 2.0, 2.0, 2.0, 2.0), 18446744073709551557.0) == 10094512913656268840.0;
    FourBits(18446744073709551557, 4503599627370495, 8232201345549008764, 2, 2, 2, 2, 10094512913656268840);
    assert Residue(FourSquarings(10094512913656268840.0, 2.0, 2.0, 1.0, 1.0), 18446744073709551557.0) == 4904465323524371326.0;
    FourBits(18446744073709551557, 72057594037927935, 10094512913656268840, 2, 2, 1, 1, 4904465323524371326);
    assert Residue(FourSquarings(4904465323524371326.0, 1.0, 2.0, 1.0, 1.0), 18446744073709551557.0) == 1.0;
    FourBits(18446744073709551557, 1152921504606846972, 4904465323524371326, 1, 2, 1, 1, 1);
  }

  lemma ModulusQuotient()
    ensures PowerOfTwo(18446744073709551557, 3297316, 11493017446059487016)
  {
    PowerZero(18446744073709551557);
    assert Residue(FourSquarings(1.0, 1.0, 1.0, 2.0, 2.0), 18446744073709551557.0) == 8.0;
    FourBits(18446744073709551557, 0, 1, 1, 1, 2, 2, 8);
    assert Residue(FourSquarings(8.0, 1.0, 1.0, 2.0, 1.0), 18446744073709551557.0) == 1125899906842624.0;
    FourBits(18446744073709551557, 3, 8, 1, 1, 2, 1, 1125899906842624);
    assert Residue(FourSquarings(1125899906842624.0, 1.0, 2.0, 1.0, 2.0), 18446744073709551557.0) == 7961574084174254208.0;
    FourBits(18446744073709551557, 50, 1125899906842624, 1, 2, 1, 2, 7961574084174254208);
    assert Residue(FourSquarings(7961574084174254208.0, 1.0, 1.0, 1.0, 1.0), 18446744073709551557.0) == 3199590993540181000.0;
    FourBits(18446744073709551557, 805, 7961574084174254208, 1, 1, 1, 1, 3199590993540181000);
    assert Residue(FourSquarings(3199590993540181000.0, 1.0, 1.0, 2.0, 1.0), 18446744073709551557.0) == 1929396281097936233.0;
    FourBits(18446744073709551557, 12880, 3199590993540181000, 1, 1, 2, 1, 1929396281097936233);
    assert Residue(FourSquarings(1929396281097936233.0, 1.0, 2.0, 1.0, 1.0), 18446744073709551557.0) == 11493017446059487016.0;
    FourBits(18446744073709551557, 206082, 1929396281097936233, 1, 2, 1, 1, 11493017446059487016);
  }

  lemma FactorFermat()
    ensures PowerOfTwo(5594472617641, 5594472617640, 1)
  {
    PowerZero(5594472617641);
    assert Residue(FourSquarings(1.0, 1.0, 2.0, 1.0, 2.0), 5594472617641.0) == 32.0;
    FourBits(5594472617641, 0, 1, 1, 2, 1, 2, 32);
    assert Residue(FourSquarings(32.0, 1.0, 1.0, 1.0, 2.0), 5594472617641.0) == 7864320.0;
    FourBits(5594472617641, 5, 32, 1, 1, 1, 2, 7864320);
    assert Residue(FourSquarings(7864320.0, 1.0, 2.0, 2.0, 1.0), 5594472617641.0) == 741665640076.0;
    FourBits(5594472617641, 81, 7864320, 1, 2, 2, 1, 741665640076);
    assert Residue(FourSquarings(741665640076.0, 2.0, 1.0, 1.0, 2.0), 5594472617641.0) == 1084524446032.0;
    FourBits(5594472617641, 1302, 741665640076, 2, 1, 1, 2, 1084524446032);
    assert Residue(FourSquarings(1084524446032.0, 1.0, 1.0, 1.0, 1.0), 5594472617641.0) == 3407945261164.0;
    FourBits(5594472617641, 20841, 1084524446032, 1, 1, 1, 1, 3407945261164);
    assert Residue(FourSquarings(3407945261164.0, 2.0, 1.0, 1.0, 1.0), 5594472617641.0) == 3080566161.0;
    FourBits(5594472617641, 333456, 3407945261164, 2, 1, 1, 1, 3080566161);
    assert Residue(FourSquarings(3080566161.0, 2.0, 2.0, 1.0, 2.0), 5594472617641.0) == 5519134069012.0;
    FourBits(5594472617641, 5335304, 3080566161, 2, 2, 1, 2, 5519134069012);
    assert Residue(FourSquarings(5519134069012.0, 2.0, 1.0, 1.0, 2.0), 5594472617641.0) == 3304571207763.0;
    FourBits(5594472617641, 85364877, 5519134069012, 2, 1, 1, 2, 3304571207763);
    assert Residue(FourSquarings(3304571207763.0, 1.0, 2.0, 2.0, 1.0), 5594472617641.0) == 4397932178249.0;
    FourBits(5594472617641, 1365838041, 3304571207763, 1, 2, 2, 1, 4397932178249);
    assert Residue(FourSquarings(4397932178249.0, 2.0, 1.0, 2.0, 1.0), 5594472617641.0) == 1483487361610.0;
    FourBits(5594472617641, 21853408662, 4397932178249, 2, 1, 2, 1, 1483487361610);
    assert Residue(FourSquarings(1483487361610.0, 2.0, 1.0, 1.0, 1.0), 5594472617641.0) == 1.0;
    FourBits(5594472617641, 349654538602, 1483487361610, 2, 1, 1, 1, 1);
  }

  lemma FactorQuotient1()
    ensures PowerOfTwo(5594472617641, 364912440, 1852426820963)
  {
    PowerZero(5594472617641);
    assert Residue(FourSquarings(1.0, 1.0, 1.0, 1.0, 2.0), 5594472617641.0) == 2.0;
    FourBits(5594472617641, 0, 1, 1, 1, 1, 2, 2);
    assert Residue(FourSquarings(2.0, 1.0, 2.0, 1.0, 2.0), 5594472617641.0) == 2097152.0;
    FourBits(5594472617641, 1, 2, 1, 2, 1, 2, 2097152);
    assert Residue(FourSquarings(2097152.0, 2.0, 2.0, 1.0, 1.0), 5594472617641.0) == 42748796649.0;
    FourBits(5594472617641, 21, 2097152, 2, 2, 1, 1, 42748796649);
    assert Residue(FourSquarings(42748796649.0, 1.0, 1.0, 1.0, 1.0), 5594472617641.0) == 2976073519676.0;
    FourBits(5594472617641, 348, 42748796649, 1, 1, 1, 1, 2976073519676);
    assert Residue(FourSquarings(2976073519676.0, 1.0, 1.0, 1.0, 2.0), 5594472617641.0) == 4934792812334.0;
    FourBits(5594472617641, 5568, 2976073519676, 1, 1, 1, 2, 4934792812334);
    assert Residue(FourSquarings(4934792812334.0, 2.0, 2.0, 2.0, 2.0), 5594472617641.0) == 772694486125.0;
    FourBits(5594472617641, 89089, 4934792812334, 2, 2, 2, 2, 772694486125);
    assert Residue(FourSquarings(772694486125.0, 1.0, 1.0, 2.0, 2.0), 5594472617641.0) == 3228549481757.0;
    FourBits(5594472617641, 1425439, 772694486125, 1, 1, 2, 2, 3228549481757);
    assert Residue(FourSquarings(3228549481757.0, 2.0, 1.0, 1.0, 1.0), 5594472617641.0) == 1852426820963.0;
    FourBits(5594472617641, 22807027, 3228549481757, 2, 1, 1, 1, 1852426820963);
  }

  lemma FactorQuotient2()
    ensures PowerOfTwo(5594472617641, 2625280440, 1346892610175)
  {
    PowerZero(5594472617641);
    assert Residue(FourSquarings(1.0, 2.0, 1.0, 1.0, 2.0), 5594472617641.0) == 512.0;
    FourBits(5594472617641, 0, 1, 2, 1, 1, 2, 512);
    assert Residue(FourSquarings(512.0, 2.0, 2.0, 1.0, 1.0), 5594472617641.0) == 966367641600.0;
    FourBits(5594472617641, 9, 512, 2, 2, 1, 1, 966367641600);
    assert Residue(FourSquarings(966367641600.0, 1.0, 2.0, 2.0, 2.0), 5594472617641.0) == 4425055029115.0;
    FourBits(5594472617641, 156, 966367641600, 1, 2, 2, 2, 4425055029115);
    assert Residue(FourSquarings(4425055029115.0, 2.0, 1.0, 2.0, 1.0), 5594472617641.0) == 4048906612449.0;
    FourBits(5594472617641, 2503, 4425055029115, 2, 1, 2, 1, 4048906612449);
    assert Residue(FourSquarings(4048906612449.0, 2.0, 1.0, 1.0, 2.0), 5594472617641.0) == 520059518406.0;
    FourBits(5594472617641, 40058, 4048906612449, 2, 1, 1, 2, 520059518406);
    assert Residue(FourSquarings(520059518406.0, 2.0, 1.0, 1.0, 2.0), 5594472617641.0) == 2599501432490.0;
    FourBits(5594472617641, 640937, 520059518406, 2, 1, 1, 2, 2599501432490);
    assert Residue(FourSquarings(2599501432490.0, 2.0, 1.0, 2.0, 2.0), 5594472617641.0) == 4930394162363.0;
    FourBits(5594472617641, 10255001, 2599501432490, 2, 1, 2, 2, 4930394162363);
    assert Residue(FourSquarings(4930394162363.0, 2.0, 1.0, 1.0, 1.0), 5594472617641.0) == 1346892610175.0;
    FourBits(5594472617641, 164080027, 4930394162363, 2, 1, 1, 1, 1346892610175);
  }

  lemma {:induction false} NoDivisorIn(n: int, d: int, count: nat)
    requires 2 <= d && NoDivisorFrom(count, d, n)
    ensures forall m :: d <= m < d + count ==> !Divides(m, n)
    decreases count
  {
    if count > 0 { NoDivisorIn(n, d + 1, count - 1); }
  }

  lemma TrialDivision(n: int, bound: int)
    requires 2 <= n && (forall m :: 2 <= m < bound ==> !Divides(m, n)) && 2 <= bound && bound * bound > n
    ensures IsPrime(n)
  {
    if m :| 2 <= m < n && Divides(m, n) {
      var r := PrimeDivisor(n, m);
      if r >= bound { SquareMonotone(bound, r); }
    }
  }

  lemma Below2131()
    ensures forall m :: 2 <= m < 48 ==> !Divides(m, 2131)
  {
    NoDivisorIn(2131, 2, 12); NoDivisorIn(2131, 14, 12); NoDivisorIn(2131, 26, 12);
    NoDivisorIn(2131, 38, 10);
  }

  lemma Below15331()
    ensures forall m :: 2 <= m < 62 ==> !Divides(m, 15331)
  {
    NoDivisorIn(15331, 2, 12); NoDivisorIn(15331, 14, 12); NoDivisorIn(15331, 26, 12);
    NoDivisorIn(15331, 38, 12); NoDivisorIn(15331, 50, 12);
  }

  lemma Above15331()
    ensures forall m :: 62 <= m < 125 ==> !Divides(m, 15331)
  {
    NoDivisorIn(15331, 62, 11); NoDivisorIn(15331, 73, 11); NoDivisorIn(15331, 84, 11);
    NoDivisorIn(15331, 95, 11); NoDivisorIn(15331, 106, 11); NoDivisorIn(15331, 117, 8);
  }

  lemma SmallPrimes()
    ensures IsPrime(2131) && IsPrime(15331)
  {
    Below2131();
    TrialDivision(2131, 48);
    Below15331();
    Above15331();
    TrialDivision(15331, 125);
  }

  lemma TwoPrimesDivide(z: int, q1: int, q2: int)
    requires IsPrime(q1) && IsPrime(q2) && q1 % q2 != 0
    requires 0 < z && z % q1 == 0 && z % q2 == 0
    ensures z >= q1 * q2
  {
    var k := z / q1;
    assert z == q1 * k && 0 < k;
    NoZeroDivisors(q1, k, q2);
    MultipleIsLarge(k, q2);
    assert q1 * k >= q1 * q2;
  }

  /** Two certified primes whose product is above the square root of n are enough as well. */
  lemma PrimeByTwoWitnesses(n: int, q1: int, f1: nat, x1: int, w1: int,
                            q2: int, f2: nat, x2: int, w2: int, bound: nat)
    requires Witness(n, q1, f1, x1, w1) && IsPrime(q1)
    requires Witness(n, q2, f2, x2, w2) && IsPrime(q2)
    requires q1 % q2 != 0 && bound <= q1 * q2 && bound * bound > n
    ensures IsPrime(n)
  {
    if m :| 2 <= m < n && Divides(m, n) {
      var r := PrimeDivisor(n, m);
      Pocklington(n, q1, f1, x1, w1, r);
      Pocklington(n, q2, f2, x2, w2, r);
      TwoPrimesDivide(r - 1, q1, q2);
      SquareMonotone(bound, r);
    }
  }

  lemma FactorInverse1()
    ensures 15331 * 364912440 == 5594472617641 - 1
    ensures IsInverse(3161697676777, 1852426820963 - 1, 5594472617641)
  {
  }

  lemma FactorWitness1()
    ensures Witness(5594472617641, 15331, 364912440, 1852426820963, 3161697676777)
  {
    FactorInverse1();
    FactorFermat();
    FactorQuotient1();
  }

  lemma FactorInverse2()
    ensures 2131 * 2625280440 == 5594472617641 - 1
    ensures IsInverse(1933328135809, 1346892610175 - 1, 5594472617641)
  {
  }

  lemma FactorWitness2()
    ensures Witness(5594472617641, 2131, 2625280440, 1346892610175, 1933328135809)
  {
    FactorInverse2();
    FactorFermat();
    FactorQuotient2();
  }

  lemma ModulusInverse()
    ensures 5594472617641 * 3297316 == 18446744073709551557 - 1
    ensures IsInverse(1898613474652435203, 11493017446059487016 - 1, 18446744073709551557)
  {
  }

  lemma ModulusWitness()
    ensures Witness(18446744073709551557, 5594472617641, 3297316, 11493017446059487016, 1898613474652435203)
  {
    ModulusInverse();
    ModulusFermat();
    ModulusQuotient();
  }

  lemma FactorIsPrime()
    ensures IsPrime(5594472617641)
  {
    SmallPrimes();
    FactorWitness1();
    FactorWitness2();
    PrimeByTwoWitnesses(5594472617641, 15331, 364912440, 1852426820963, 3161697676777,
                        2131, 2625280440, 1346892610175, 1933328135809, 32670361);
  }

  /** The modulus of the program's field is prime. */
  lemma ModulusIsPrime()
    ensures IsPrime(P)
  {
    FactorIsPrime();
    ModulusWitness();
    PrimeByWitness(18446744073709551557, 5594472617641, 3297316, 11493017446059487016, 1898613474652435203);
  }
}