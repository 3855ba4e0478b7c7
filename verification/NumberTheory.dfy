/**
 Modular arithmetic for the prime-field half of the model: congruences, powers, inverses,
 Fermat's little theorem and a primality certificate.  Nothing here mentions shares; the
 lemmas hold of every modulus they name.
 */
module NumberTheory {

  predicate Divides(d: int, n: int)
    requires d != 0
  {
    n % d == 0
  }

  ghost predicate IsPrime(p: int) {
    2 <= p && forall m :: 2 <= m < p ==> !Divides(m, p)
  }

  // ---------- congruences ----------

  lemma MulBounds(d: int, m: int)
    requires 0 < m
    ensures d >= 1 ==> d * m >= m
    ensures d <= -1 ==> d * m <= -m
  {
  }

  lemma ModUnique(x: int, q: int, r: int, m: int)
    requires 0 < m && 0 <= r < m && x == q * m + r
    ensures x % m == r && x / m == q
  {
    var d := x / m - q;
    assert d * m == r - x % m by {
      assert (x / m) * m + x % m == x;
      assert d * m == (x / m) * m - q * m;
    }
    MulBounds(d, m);
  }

  lemma ModShift(x: int, k: int, m: int)
    requires 0 < m
    ensures (x + k * m) % m == x % m
  {
    var q := x / m;
    assert x == q * m + x % m;
    assert x + k * m == (q + k) * m + x % m;
    ModUnique(x + k * m, q + k, x % m, m);
  }

  lemma ModSmall(x: int, m: int)
    requires 0 <= x < m
    ensures x % m == x
  {
    ModUnique(x, 0, x, m);
  }

  lemma ModAdd(a: int, b: int, m: int)
    requires 0 < m
    ensures (a % m + b) % m == (a + b) % m
  {
    assert a + b == (a % m + b) + (a / m) * m;
    ModShift(a % m + b, a / m, m);
  }

  lemma ModMul(a: int, b: int, m: int)
    requires 0 < m
    ensures ((a % m) * b) % m == (a * b) % m
  {
    var q, r := a / m, a % m;
    assert a == q * m + r;
    assert a * b == r * b + (q * b) * m by {
      assert (q * m + r) * b == (q * m) * b + r * b;
      assert (q * m) * b == (q * b) * m;
    }
    ModShift(r * b, q * b, m);
  }

  lemma ModMul2(a: int, b: int, m: int)
    requires 0 < m
    ensures ((a % m) * (b % m)) % m == (a * b) % m
  {
    ModMul(a, b % m, m);
    ModMul(b, a, m);
    assert (b % m) * a == a * (b % m) && b * a == a * b;
  }

  /** Congruent factors give congruent products. */
  lemma CongMul(a: int, a': int, b: int, b': int, m: int)
    requires 0 < m && a % m == a' % m && b % m == b' % m
    ensures (a * b) % m == (a' * b') % m
  {
    ModMul2(a, b, m);
    ModMul2(a', b', m);
  }

  lemma DivMultiple(x: int, m: int)
    requires 0 < m && x % m == 0
    ensures x == (x / m) * m
  {
  }

  lemma MultipleMod(k: int, m: int)
    requires 0 < m
    ensures (k * m) % m == 0
  {
    ModUnique(k * m, k, 0, m);
  }

  lemma DifferenceMod(a: int, b: int, m: int)
    requires 0 < m
    ensures a % m == b % m <==> (a - b) % m == 0
  {
    if (a - b) % m == 0 {
      DivMultiple(a - b, m);
      ModShift(b, (a - b) / m, m);
    }
    if a % m == b % m {
      assert a - b == (a / m - b / m) * m by {
        assert a == (a / m) * m + a % m && b == (b / m) * m + b % m;
        assert (a / m - b / m) * m == (a / m) * m - (b / m) * m;
      }
      MultipleMod(a / m - b / m, m);
    }
  }

  // ---------- inverses and the absence of zero divisors ----------

  /** Euclid's algorithm against a prime: every a that p does not divide has an inverse. */
  lemma {:induction false} InverseOfSmall(a: int, p: int) returns (u: int)
    requires IsPrime(p) && 1 <= a < p
    ensures (a * u) % p == 1
    decreases a
  {
    if a == 1 {
      u := 1;
      ModSmall(1, p);
    } else {
      var q, r := p / a, p % a;
      assert p == q * a + r;
      assert r != 0 by { assert !Divides(a, p); }
      var w := InverseOfSmall(r, p);
      u := -q * w;
      // r == p - q*a, so r*w and a*(-q*w) differ by w*p
      assert a * u == r * w + (-w) * p by {
        assert r * w == (p - q * a) * w == p * w - q * a * w;
        assert a * u == -(q * a * w);
      }
      ModShift(r * w, -w, p);
    }
  }

  lemma InverseExists(a: int, p: int) returns (u: int)
    requires IsPrime(p) && a % p != 0
    ensures (a * u) % p == 1
  {
    u := InverseOfSmall(a % p, p);
    ModMul(a, u, p);
  }

  lemma NoZeroDivisors(a: int, b: int, p: int)
    requires IsPrime(p) && (a * b) % p == 0
    ensures a % p == 0 || b % p == 0
  {
    if a % p != 0 {
      var u := InverseExists(a, p);
      ModSmall(1, p);
      CongMul(a * u, 1, b, b, p);
      ModSmall(0, p);
      CongMul(a * b, 0, u, u, p);
      assert (a * u) * b == (a * b) * u;
    }
  }

  lemma CancelFactor(a: int, x: int, y: int, p: int)
    requires IsPrime(p) && a % p != 0 && (a * x) % p == (a * y) % p
    ensures x % p == y % p
  {
    DifferenceMod(a * x, a * y, p);
    assert a * x - a * y == a * (x - y);
    NoZeroDivisors(a, x - y, p);
    DifferenceMod(x, y, p);
  }

  // ---------- powers ----------

  function Pow(a: int, e: nat): int {
    if e == 0 then 1 else a * Pow(a, e - 1)
  }

  lemma {:induction false} PowAdd(a: int, d: nat, e: nat)
    ensures Pow(a, d + e) == Pow(a, d) * Pow(a, e)
  {
    if d > 0 {
      PowAdd(a, d - 1, e);
      assert Pow(a, d + e) == a * Pow(a, d - 1 + e);
      assert a * (Pow(a, d - 1) * Pow(a, e)) == (a * Pow(a, d - 1)) * Pow(a, e);
    }
  }

  lemma {:induction false} PowMul(a: int, d: nat, e: nat)
    ensures Pow(Pow(a, d), e) == Pow(a, d * e)
  {
    if e > 0 {
      PowMul(a, d, e - 1);
      assert d * e == d + d * (e - 1);
      PowAdd(a, d, d * (e - 1));
    } else {
      assert d * e == 0;
    }
  }

  lemma {:induction false} PowOne(e: nat)
    ensures Pow(1, e) == 1
  {
    if e > 0 { PowOne(e - 1); }
  }

  lemma {:induction false} PowMod(a: int, a': int, e: nat, m: int)
    requires 0 < m && a % m == a' % m
    ensures Pow(a, e) % m == Pow(a', e) % m
  {
    if e > 0 {
      PowMod(a, a', e - 1, m);
      CongMul(a, a', Pow(a, e - 1), Pow(a', e - 1), m);
    }
  }

  // ---------- Fermat's little theorem ----------

  function Prod(s: seq<int>): int {
    if s == [] then 1 else s[0] * Prod(s[1..])
  }

  function Factorial(n: nat): int {
    if n == 0 then 1 else n * Factorial(n - 1)
  }

  ghost predicate Distinct(s: seq<int>) {
    forall i, j :: 0 <= i < j < |s| ==> s[i] != s[j]
  }

  lemma {:induction false} ProdAppend(s: seq<int>, t: seq<int>)
    ensures Prod(s + t) == Prod(s) * Prod(t)
  {
    if s == [] {
      assert s + t == t;
    } else {
      assert (s + t)[1..] == s[1..] + t;
      ProdAppend(s[1..], t);
      assert s[0] * (Prod(s[1..]) * Prod(t)) == (s[0] * Prod(s[1..])) * Prod(t);
    }
  }

  lemma Swap3(x: int, v: int, y: int)
    ensures x * (v * y) == v * (x * y)
  {
  }

  lemma Swap4(x: int, y: int, a: int, b: int)
    ensures (x * y) * (a * b) == (a * x) * (b * y)
  {
    assert (x * y) * (a * b) == x * (y * a) * b == (x * a) * (y * b);
  }

  lemma ProdRemove(s: seq<int>, k: nat)
    requires k < |s|
    ensures Prod(s) == s[k] * Prod(s[..k] + s[k + 1..])
  {
    var x, y, v := s[..k], s[k + 1..], s[k];
    assert s == x + ([v] + y);
    ProdAppend(x, [v] + y);
    ProdAppend(x, y);
    assert Prod([v] + y) == v * Prod(y) by { assert ([v] + y)[1..] == y; }
    Swap3(Prod(x), v, Prod(y));
  }

  /** Distinct numbers from 1..m: at most m of them, and m of them multiply to m!. */
  lemma {:induction false} DistinctProduct(s: seq<int>, m: nat)
    requires Distinct(s) && forall x :: x in s ==> 1 <= x <= m
    ensures |s| <= m && (|s| == m ==> Prod(s) == Factorial(m))
    decreases m
  {
    if s == [] {
    } else if k :| 0 <= k < |s| && s[k] == m {
      assert s[k] in s;
      var t := s[..k] + s[k + 1..];
      assert forall i :: 0 <= i < |t| ==> t[i] == if i < k then s[i] else s[i + 1];
      forall x | x in t ensures 1 <= x <= m - 1 {
        var i :| 0 <= i < |t| && t[i] == x;
        var j := if i < k then i else i + 1;
        assert x == s[j] && s[j] in s && j != k;
      }
      DistinctProduct(t, m - 1);
      ProdRemove(s, k);
    } else {
      assert s[0] in s;
      DistinctProduct(s, m - 1);
    }
  }

  lemma {:induction false} FactorialNonZero(n: nat, p: int)
    requires IsPrime(p) && n < p
    ensures Factorial(n) % p != 0
  {
    if n == 0 {
      ModSmall(1, p);
    } else {
      FactorialNonZero(n - 1, p);
      ModSmall(n, p);
      if Factorial(n) % p == 0 { NoZeroDivisors(n, Factorial(n - 1), p); }
    }
  }

  function Multiples(a: int, n: nat, p: int): (s: seq<int>)
    requires 0 < p
    ensures |s| == n && forall i :: 0 <= i < n ==> s[i] == (a * (i + 1)) % p
  {
    if n == 0 then [] else Multiples(a, n - 1, p) + [(a * n) % p]
  }

  lemma NextMultiple(q: int, x: int, y: int, a: int, n: int, p: int)
    requires 0 < p && q % p == (x * y) % p
    ensures (q * ((a * n) % p)) % p == ((a * x) * (n * y)) % p
  {
    ModSmall((a * n) % p, p);
    CongMul(q, x * y, (a * n) % p, a * n, p);
    Swap4(x, y, a, n);
  }

  lemma {:induction false} ProdMultiples(a: int, n: nat, p: int)
    requires 0 < p
    ensures Prod(Multiples(a, n, p)) % p == (Pow(a, n) * Factorial(n)) % p
  {
    if n > 0 {
      ProdMultiples(a, n - 1, p);
      var s, m := Multiples(a, n - 1, p), (a * n) % p;
      ProdAppend(s, [m]);
      assert Prod([m]) == m by { assert [m][1..] == []; }
      NextMultiple(Prod(s), Pow(a, n - 1), Factorial(n - 1), a, n, p);
    }
  }

  /** Fermat's little theorem. */
  lemma Fermat(a: int, p: int)
    requires IsPrime(p) && a % p != 0
    ensures Pow(a, p - 1) % p == 1
  {
    var s := Multiples(a, p - 1, p);
    forall i | 0 <= i < |s| ensures 1 <= s[i] <= p - 1 {
      ModSmall(i + 1, p);
      if s[i] == 0 { NoZeroDivisors(a, i + 1, p); }
    }
    forall i, j | 0 <= i < j < |s| ensures s[i] != s[j] {
      if s[i] == s[j] {
        CancelFactor(a, i + 1, j + 1, p);
        ModSmall(i + 1, p);
        ModSmall(j + 1, p);
      }
    }
    DistinctProduct(s, p - 1);
    ProdMultiples(a, p - 1, p);
    FactorialNonZero(p - 1, p);
    var f, x := Factorial(p - 1), Pow(a, p - 1);
    assert x * f == f * x && f * 1 == f;
    CancelFactor(f, x, 1, p);
    ModSmall(1, p);
  }

  /** The square roots of one are one and minus one. */
  lemma SquareRootsOfOne(t: int, p: int)
    requires IsPrime(p) && 0 <= t < p && (t * t) % p == 1
    ensures t == 1 || t == p - 1
  {
    ModSmall(1, p);
    DifferenceMod(t * t, 1, p);
    assert t * t - 1 == (t - 1) * (t + 1);
    NoZeroDivisors(t - 1, t + 1, p);
    if (t - 1) % p == 0 {
      DifferenceMod(t, 1, p);
      ModSmall(t, p);
    } else {
      DifferenceMod(t, -1, p);
      ModShift(-1, 1, p);
      ModSmall(p - 1, p);
      ModSmall(t, p);
    }
  }

  // ---------- bits ----------

  function Bit(b: bool): int {
    if b then 1 else 0
  }

  lemma {:induction false} PowPositive(m: nat)
    ensures Pow(2, m) > 0
  {
    if m > 0 { PowPositive(m - 1); }
  }

  /** x without its m lowest bits. */
  function Shifted(x: int, m: nat): int {
    PowPositive(m);
    x / Pow(2, m)
  }

  lemma ShiftedAgain(x: int, m: nat)
    requires 0 <= x
    ensures Shifted(x, m) / 2 == Shifted(x, m + 1)
  {
    PowPositive(m);
    HalfOfQuotient(x, Pow(2, m));
  }

  lemma HalfOfQuotient(x: int, a: int)
    requires 0 <= x && 0 < a
    ensures (x / a) / 2 == x / (2 * a)
  {
    var q := x / a;
    assert x == q * a + x % a;
    assert q == 2 * (q / 2) + q % 2;
    assert q * a == (2 * (q / 2) + q % 2) * a == (q / 2) * (2 * a) + (q % 2) * a;
    assert 0 <= (q % 2) * a <= a;
    ModUnique(x, q / 2, (q % 2) * a + x % a, 2 * a);
  }
}
