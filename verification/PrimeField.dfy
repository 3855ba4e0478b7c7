/**
 PrimeField/PrimeField.hpp: modpow, getInv and modsqrt over the field of 2^64 - 59 elements.
 A representation is a number from 0 to P; the value P stands for zero and arises when zero is
 negated.
 */
module PrimeField {
  import opened NumberTheory
  import opened PrimeModulus

  predicate IsRepresentation(v: int) {
    0 <= v <= P
  }

  // ---------- modpow ----------

  lemma PowSquare(x: int, h: nat, p: int)
    requires 0 < p
    ensures Pow((x * x) % p, h) % p == Pow(x, 2 * h) % p
  {
    ModMul(x * x, 1, p);
    ModSmall((x * x) % p, p);
    PowMod((x * x) % p, x * x, h, p);
    PowMul(x, 2, h);
    assert Pow(x, 2) == x * (x * Pow(x, 0));
  }

  /** One round of square-and-multiply keeps ret * x^e. */
  lemma ModpowRound(ret: int, x: int, e: nat, p: int)
    requires 0 < p && 0 < e
    ensures ((if e % 2 == 1 then (ret * x) % p else ret) * Pow((x * x) % p, e / 2)) % p
         == (ret * Pow(x, e)) % p
  {
    var y := Pow((x * x) % p, e / 2);
    PowSquare(x, e / 2, p);
    if e % 2 == 1 {
      var z := Pow(x, e - 1);
      assert Pow(x, e) == x * z;
      ModMul(ret * x, 1, p);
      ModSmall((ret * x) % p, p);
      CongMul((ret * x) % p, ret * x, y, z, p);
      assert (ret * x) * z == ret * (x * z);
    } else {
      CongMul(ret, ret, y, Pow(x, e), p);
    }
  }

  lemma ProductBelow(x: int, y: int)
    requires IsRepresentation(x) && IsRepresentation(y)
    ensures 0 <= x * y < 0x1_00000000_00000000_00000000_00000000
  {
    assert x * y <= P * y;
  }

  method Modpow(a: int, b: nat) returns (ret: int)
    requires IsRepresentation(a)
    ensures 0 <= ret < P && ret == Pow(a, b) % P
  {
    ret := 1;
    var x, e := a, b;
    while e > 0
      invariant 0 <= ret < P && IsRepresentation(x)
      invariant (ret * Pow(x, e)) % P == Pow(a, b) % P
    {
      ModpowRound(ret, x, e, P);
      ProductBelow(ret, x);
      ProductBelow(x, x);
      if e % 2 == 1 { ret := (ret * x) % P; }
      x := (x * x) % P;
      e := e / 2;
    }
  }

  // ---------- getInv ----------

  lemma ZeroPower(a: int, e: nat, p: int)
    requires 0 < p && 0 < e && a % p == 0
    ensures Pow(a, e) % p == 0
  {
    CongMul(a, 0, Pow(a, e - 1), Pow(a, e - 1), p) by { ModSmall(0, p); }
  }

  lemma FermatInverse(a: int, e: nat, p: int)
    requires IsPrime(p) && a % p != 0 && e == p - 2
    ensures (a * (Pow(a, e) % p)) % p == 1
  {
    Fermat(a, p);
    assert Pow(a, p - 1) == a * Pow(a, e);
    ModMul(Pow(a, e), a, p);
    assert (Pow(a, e) % p) * a == a * (Pow(a, e) % p) && Pow(a, e) * a == a * Pow(a, e);
  }

  /** The inverse of every non-zero element; zero is sent to zero. */
  method GetInv(a: int) returns (r: int)
    requires IsRepresentation(a)
    ensures 0 <= r < P
    ensures a % P != 0 ==> (a * r) % P == 1
    ensures a % P == 0 ==> r == 0
  {
    var e := P - 2;
    r := Modpow(a, e);
    ModulusIsPrime();
    if a % P == 0 {
      ZeroPower(a, e, P);
    } else {
      FermatInverse(a, e, P);
    }
  }

  // ---------- modsqrt ----------

  function Square(y: int): int {
    y * y
  }

  ghost predicate IsNonZeroSquare(x: int) {
    x % P != 0 && exists y :: Square(y) % P == x % P
  }

  const Q: nat := 4611686018427387889
  const S: int := 2
  /** 2^Q, a square root of minus one. */
  const NON_RESIDUE_POWER: int := 2296021864060584341

  datatype Root = Root(value: int) | OutOfRange

  /** (n^((q+1)/2))^2 = n * n^q. */
  lemma HalfExponent(n: int, q: nat, p: int)
    requires 0 < p && q % 2 == 1
    ensures Square(Pow(n, (q + 1) / 2) % p) % p == (n * (Pow(n, q) % p)) % p
  {
    var h := (q + 1) / 2;
    ModMul2(Pow(n, h), Pow(n, h), p);
    PowAdd(n, h, h);
    assert Pow(n, q + 1) == n * Pow(n, q);
    ModMul(Pow(n, q), n, p);
    assert (Pow(n, q) % p) * n == n * (Pow(n, q) % p) && Pow(n, q) * n == n * Pow(n, q);
  }

  lemma RootNonZero(y: int, n: int, p: int)
    requires 0 < p && n % p != 0 && Square(y) % p == n % p
    ensures y % p != 0
  {
    if y % p == 0 {
      ModSmall(0, p);
      CongMul(y, 0, y, 0, p);
    }
  }

  lemma PowOfSquare(y: int, e: nat)
    ensures Pow(Square(y), e) == Pow(y, 2 * e)
  {
    assert Pow(y, 2) == y * (y * Pow(y, 0)) == Square(y);
    PowMul(y, 2, e);
  }

  /** A non-zero square raised to a quarter of p - 1 is a square root of one. */
  lemma QuarterPower(n: int, q: nat, p: int)
    requires IsPrime(p) && p - 1 == 4 * q && n % p != 0
    requires exists y :: Square(y) % p == n % p
    ensures Square(Pow(n, q) % p) % p == 1
  {
    var y :| Square(y) % p == n % p;
    RootNonZero(y, n, p);
    PowMod(Square(y), n, 2 * q, p);
    PowOfSquare(y, 2 * q);
    Fermat(y, p);
    PowAdd(n, q, q);
    ModMul2(Pow(n, q), Pow(n, q), p);
  }

  /** Multiplying R by c and t by c^2 keeps R^2 = n * t. */
  lemma RootRound(R: int, t: int, n: int, c: int, p: int)
    requires 0 < p && Square(R) % p == (n * t) % p
    ensures Square((R * c) % p) % p == (n * ((((t * c) % p) * c) % p)) % p
  {
    var u := ((t * c) % p) * c;
    ModMul2(R * c, R * c, p);
    CongMul(R * R, n * t, c * c, c * c, p);
    Regroup(R, c, n, t);
    ModMul(t * c, c, p);
    ModSmall(u % p, p);
    CongMul(n, n, u % p, (t * c) * c, p);
  }

  lemma Regroup(R: int, c: int, n: int, t: int)
    ensures (R * c) * (R * c) == (R * R) * (c * c)
    ensures n * ((t * c) * c) == (n * t) * (c * c)
  {
    assert (R * c) * (R * c) == R * (c * R) * c;
    assert (t * c) * c == t * (c * c);
  }

  lemma NegatedSquare(R: int, p: int)
    requires 0 < p
    ensures Square(p - R) % p == Square(R) % p
  {
    assert (p - R) * (p - R) == R * R + (p - 2 * R) * p;
    ModShift(R * R, p - 2 * R, p);
  }

  lemma MinusOneSquared()
    ensures (NON_RESIDUE_POWER * NON_RESIDUE_POWER) % P == P - 1
  {
  }

  /** Multiplying minus one twice by a root of minus one gives one. */
  lemma CancelMinusOne(t: int, c: int, p: int)
    requires 2 < p && t == p - 1 && (c * c) % p == p - 1
    ensures (((t * c) % p) * c) % p == 1
  {
    ModMul(t * c, c, p);
    ModShift(-1, 1, p);
    CongMul(t, -1, c * c, -1, p);
    ModSmall(1, p);
    assert (t * c) * c == t * (c * c);
  }

  /** The inner loop: the least i below M with t^(2^i) = 1, or M. */
  method SquaringsToOne(t: int, M: int) returns (i: int)
    requires 0 <= t < P && (M == 1 || M == 2)
    ensures 1 <= i <= M
    ensures i < M <==> M == 2 && Square(t) % P == 1
  {
    var t2 := t;
    i := 1;
    while i < M
      invariant 1 <= i <= M
      invariant i == 1 ==> t2 == t
      invariant i == 2 ==> Square(t) % P != 1
    {
      t2 := (t2 * t2) % P;
      if t2 == 1 { break; }
      i := i + 1;
    }
  }

  lemma Round(R: int, t: int, n: int, c: int)
    requires 0 <= t < P && t != 1 && Square(t) % P == 1 && c == NON_RESIDUE_POWER
    requires Square(R) % P == (n * t) % P
    ensures (((t * c) % P) * c) % P == 1
    ensures Square((R * c) % P) % P == (n * 1) % P
  {
    RootRound(R, t, n, c, P);
    OneRound(t);
  }

  /** The exponent is a power of one instead of two, which is right because e is always zero. */
  method RoundFactor(c: int, e: nat) returns (b: int)
    requires 0 <= c < P
    ensures b == c
  {
    var exponent := Modpow(1, e);
    PowOne(e);
    ModSmall(1, P);
    b := Modpow(c, exponent);
    PowerFirst(c);
  }

  /**
   The square root that is at most half of P.  On anything but a non-zero square the exponent
   M - i - 1 of the main loop is negative and the checked 128-bit type raises a range error.
   */
  method Modsqrt(n: int) returns (out: Root)
    requires IsRepresentation(n)
    ensures out.Root? <==> IsNonZeroSquare(n)
    ensures out.Root? ==> 0 < out.value <= P / 2 && Square(out.value) % P == n % P
  {
    var c := NON_RESIDUE_POWER;
    var R := Modpow(n, (Q + 1) / 2);
    var t := Modpow(n, Q);
    var M := S;
    InitialRoot(n, Q, R, t);
    while t != 1
      invariant 0 <= R < P && 0 <= t < P
      invariant Square(R) % P == (n * t) % P
      invariant t == 1 || (M == S && c == NON_RESIDUE_POWER)
      invariant IsNonZeroSquare(n) ==> t == 1 || Square(t) % P == 1
      invariant n % P == 0 ==> t == 0
      decreases if t == 1 then 0 else 1
    {
      var i := SquaringsToOne(t, M);
      if M - i - 1 < 0 {
        return OutOfRange;
      }
      var b := RoundFactor(c, M - i - 1);
      Round(R, t, n, b);
      R := (R * b) % P;
      t := (((t * b) % P) * b) % P;
      c := (b * b) % P;
      M := i;
    }
    FinalRoot(R, n);
    out := Root(if R <= P / 2 then R else P - R);
  }

  lemma InitialRoot(n: int, q: nat, R: int, t: int)
    requires q == Q && R == Pow(n, (q + 1) / 2) % P && t == Pow(n, q) % P
    ensures Square(R) % P == (n * t) % P
    ensures IsNonZeroSquare(n) ==> Square(t) % P == 1
    ensures n % P == 0 ==> t == 0
  {
    ModulusIsPrime();
    HalfExponent(n, q, P);
    if IsNonZeroSquare(n) { QuarterPower(n, q, P); }
    if n % P == 0 { ZeroPower(n, q, P); }
  }

  lemma OneRound(t: int)
    requires 0 <= t < P && t != 1 && Square(t) % P == 1
    ensures (((t * NON_RESIDUE_POWER) % P) * NON_RESIDUE_POWER) % P == 1
  {
    ModulusIsPrime();
    SquareRootsOfOne(t, P);
    MinusOneSquared();
    CancelMinusOne(t, NON_RESIDUE_POWER, P);
  }

  lemma PowerFirst(c: int)
    requires 0 <= c < P
    ensures Pow(c, 1) % P == c
  {
    assert Pow(c, 1) == c * Pow(c, 0) == c;
  }

  lemma FinalRoot(R: int, n: int)
    requires 0 <= R < P && n % P != 0 && Square(R) % P == (n * 1) % P
    ensures 0 < R && Square(R) % P == Square(P - R) % P == n % P
    ensures IsNonZeroSquare(n)
  {
    NegatedSquare(R, P);
    RootNonZero(R, n, P);
  }
}
