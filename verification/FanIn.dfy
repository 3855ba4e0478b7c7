/**
 Share/Compare.cpp, lines 233-452: the OR and AND of 64 shared bits in a constant number of
 rounds.  One plus the number of ones, A, is raised to the powers 1..64 behind random masks,
 and a fixed polynomial of degree 64 turns A into the answer.  A mask product that opens to zero
 makes the remaining powers zero, which truncates the polynomial.
 */
module FanIn {
  import opened NumberTheory
  import opened PrimeModulus
  import opened PrimeField
  import opened CoefficientTables
  import opened TruncatedTables
  import opened FieldShare

  /** Bit length of the modulus, and its square root. */
  const L: nat := 64
  const LAMBDA: nat := 8

  predicate IsBit(v: int) {
    v == 0 || v == 1
  }

  predicate AreBits(conf: Config, xs: seq<Share>) {
    AreShares(conf, xs) && forall i :: 0 <= i < |xs| ==> IsBit(Value(xs[i]))
  }

  function Ones(xs: seq<Share>, k: nat): int
    requires k <= |xs|
  {
    if k == 0 then 0 else Ones(xs, k - 1) + Value(xs[k - 1])
  }

  lemma {:induction false} OnesBounds(conf: Config, xs: seq<Share>, k: nat)
    requires k <= |xs| && AreBits(conf, xs)
    ensures 0 <= Ones(xs, k) <= k
    ensures Ones(xs, k) == 0 <==> forall i :: 0 <= i < k ==> Value(xs[i]) == 0
    ensures Ones(xs, k) == k <==> forall i :: 0 <= i < k ==> Value(xs[i]) == 1
  {
    if k > 0 {
      OnesBounds(conf, xs, k - 1);
      assert IsBit(Value(xs[k - 1]));
    }
  }

  // ---------- random masks ----------

  /** The shares b_i and b'_i that subRNS supplies to one call. */
  datatype Masks = Masks(b: seq<Share>, bDash: seq<Share>)

  predicate AreMasks(conf: Config, m: Masks) {
    |m.b| == |m.bDash| == L && AreShares(conf, m.b) && AreShares(conf, m.bDash)
  }

  /** The product B_i = b_i b'_i that is about to be opened and inverted. */
  function MaskProduct(m: Masks, i: nat): int
    requires i < |m.b| && i < |m.bDash|
  {
    (Value(m.b[i]) * Value(m.bDash[i])) % P
  }

  /** The first mask from k on whose opened product is zero; L if there is none. */
  function FirstUseless(m: Masks, k: nat): (r: nat)
    requires |m.b| == |m.bDash| == L && k <= L
    ensures k <= r <= L && (forall i :: k <= i < r ==> MaskProduct(m, i) != 0) && (r < L ==> MaskProduct(m, r) == 0)
    decreases L - k
  {
    if k == L || MaskProduct(m, k) == 0 then k else FirstUseless(m, k + 1)
  }

  /** Every opened product is non-zero. */
  predicate Usable(m: Masks)
    requires |m.b| == |m.bDash| == L
  {
    forall i :: 0 <= i < L ==> MaskProduct(m, i) != 0
  }

  lemma InverseOfMask(b: int, b': int, B: int, r: int, v: int, p: int)
    requires 0 < p && B == (b * b') % p && (B * r) % p == 1 && v == (r * b') % p
    ensures (b * v) % p == 1
  {
    ModMulRight(b, r * b', p);
    ModMul(b * b', r, p);
    assert b * (r * b') == (b * b') * r;
  }

  /** v is what a party computes as the inverse of b: the program inverts a zero product to zero. */
  predicate Inverts(b: int, v: int, product: int) {
    if product == 0 then v == 0 else (b * v) % P == 1
  }

  /** Shares of the inverses of the b_i: each opened product is inverted in the clear. */
  method InvertMasks(conf: Config, m: Masks, t: Triple) returns (inverse: seq<Share>)
    requires conf.Valid() && AreMasks(conf, m) && IsTriple(conf, t)
    ensures |inverse| == L && AreShares(conf, inverse)
    ensures forall i :: 0 <= i < L ==> Inverts(Value(m.b[i]), Value(inverse[i]), MaskProduct(m, i))
  {
    var product := MultiplyAll(conf, m.b, m.bDash, t);
    var revealed := OpenReconsAll(conf, product.value);
    inverse := [];
    for i := 0 to L
      invariant |inverse| == i && AreShares(conf, inverse)
      invariant forall j :: 0 <= j < i ==> Inverts(Value(m.b[j]), Value(inverse[j]), MaskProduct(m, j))
    {
      var v := InvertMask(conf, m.bDash[i], revealed[i], Value(m.b[i]));
      inverse := inverse + [v];
    }
  }

  method InvertMask(conf: Config, bDash: Share, revealed: int, ghost b: int) returns (v: Share)
    requires conf.Valid() && IsShare(conf, bDash) && revealed == (b * Value(bDash)) % P
    ensures IsShare(conf, v) && Inverts(b, Value(v), revealed)
  {
    ModSmall(revealed, P);
    var r := GetInv(revealed);
    v := Scale(conf, r, bDash);
    if revealed != 0 { InverseOfMask(b, Value(bDash), revealed, r, Value(v), P); } else { ModSmall(0, P); }
  }

  // ---------- powers of A behind the masks ----------

  /** tmp * bPrev stands for x; one more factor c = A * inverse * bPrev and the mask b give A x. */
  lemma NextFactor(tmp: int, c: int, A: int, inverse: int, bPrev: int, b: int, x: int, p: int)
    requires 0 < p && (tmp * bPrev) % p == x % p && (b * inverse) % p == 1 % p
    requires c == (((A * inverse) % p) * bPrev) % p
    ensures (((tmp * c) % p) * b) % p == (A * x) % p
  {
    ModMul(tmp * c, b, p);
    ModMul(A * inverse, bPrev, p);
    ModTwice((A * inverse) * bPrev, p);
    CongMul(tmp, tmp, c, (A * inverse) * bPrev, p);
    CongMul(tmp * c, tmp * ((A * inverse) * bPrev), b, b, p);
    Rearrange(tmp, A, inverse, bPrev, b);
    CongMul(tmp * bPrev, x, b * inverse, 1, p);
    CongMul((tmp * bPrev) * (b * inverse), x * 1, A, A, p);
    assert (x * 1) * A == A * x;
  }

  lemma Rearrange(t: int, a: int, i: int, q: int, b: int)
    ensures (t * ((a * i) * q)) * b == ((t * q) * (b * i)) * a
  {
    assert t * ((a * i) * q) == (t * q) * (a * i);
    assert (a * i) * b == (b * i) * a;
  }

  /** What the masked product of k factors stands for, when cut masks come before a useless one. */
  function PowerUpTo(A: int, k: nat, cut: nat): int {
    if k <= cut then Pow(A, k) % P else 0
  }

  /** One more factor: behind a usable mask another A, behind a useless one nothing any more. */
  lemma TelescopeStep(tmp: int, c: int, A: int, inverse: int, bPrev: int, b: int, product: int, k: nat, cut: nat)
    requires (tmp * bPrev) % P == PowerUpTo(A, k, cut) && c == (((A * inverse) % P) * bPrev) % P
    requires Inverts(b, inverse, product) && (k < cut ==> product != 0) && (k == cut ==> product == 0)
    requires k > cut ==> tmp % P == 0
    ensures ((tmp * c) * b) % P == PowerUpTo(A, k + 1, cut)
    ensures k + 1 > cut ==> (tmp * c) % P == 0
  {
    if k < cut {
      assert b * inverse == inverse * b;
      ModSmall(1, P);
      NextFactor(tmp, c, A, inverse, bPrev, b, Pow(A, k), P) by { ModTwice(Pow(A, k), P); }
      ModMul(tmp * c, b, P);
    } else {
      if k == cut {
        assert A * inverse == 0;
        ModSmall(0, P);
        assert c == 0 && tmp * c == 0;
      } else {
        ModMul(tmp, c, P);
        ModSmall(0, P);
        assert (0 * c) % P == 0;
      }
      ModMul(tmp * c, b, P);
      assert (0 * b) % P == 0;
    }
  }

  /** The factors collapse: b_k times the first k + 1 of them is the next power of A. */
  lemma {:induction false} Telescoped(c: seq<int>, A: int, m: Masks, inverse: seq<Share>, previous: seq<Share>, k: nat)
    requires |c| == |m.b| == |m.bDash| == |inverse| == |previous| == L && k <= L
    requires forall i :: 0 <= i < L ==> Inverts(Value(m.b[i]), Value(inverse[i]), MaskProduct(m, i))
    requires Value(previous[0]) == 1 && forall i :: 1 <= i < L ==> previous[i] == m.b[i - 1]
    requires forall i :: 0 <= i < L ==> c[i] == (((A * Value(inverse[i])) % P) * Value(previous[i])) % P
    ensures var b := if k == 0 then 1 else Value(m.b[k - 1]);
            (Times(c, k) * b) % P == PowerUpTo(A, k, FirstUseless(m, 0))
    ensures k > FirstUseless(m, 0) ==> Times(c, k) % P == 0
  {
    if k > 0 {
      var cut := FirstUseless(m, 0);
      Telescoped(c, A, m, inverse, previous, k - 1);
      TelescopeStep(Times(c, k - 1), c[k - 1], A, Value(inverse[k - 1]), Value(previous[k - 1]), Value(m.b[k - 1]),
                    MaskProduct(m, k - 1), k - 1, cut);
    } else {
      ModSmall(1, P);
    }
  }

  /** The shares c_i = A * b_i^-1 * b_(i-1), where a share of one stands in for b_(-1). */
  method MaskedFactors(conf: Config, A: Share, m: Masks, inverse: seq<Share>, t: Triple) returns (c: seq<int>)
    requires conf.Valid() && IsShare(conf, A) && IsTriple(conf, t) && AreMasks(conf, m)
    requires |inverse| == L && AreShares(conf, inverse)
    requires forall i :: 0 <= i < L ==> Inverts(Value(m.b[i]), Value(inverse[i]), MaskProduct(m, i))
    ensures |c| == L
    ensures forall k :: 0 <= k < L ==>
              (Times(c, k + 1) * Value(m.b[k])) % P == PowerUpTo(Value(A), k + 1, FirstUseless(m, 0))
  {
    var n := conf.nParties;
    ModSmall(n, P);
    var nInverse := GetInv(n);
    var one := Everywhere(conf, nInverse);
    var previous := [one] + m.b[..L - 1];
    var copies := seq(L, i => A);
    var products := MultiplyAll(conf, copies, inverse, t);
    var factors := MultiplyAll(conf, products.value, previous, t);
    c := OpenReconsAll(conf, factors.value);
    forall k | 0 <= k < L
      ensures (Times(c, k + 1) * Value(m.b[k])) % P == PowerUpTo(Value(A), k + 1, FirstUseless(m, 0))
    {
      Telescoped(c, Value(A), m, inverse, previous, k + 1);
    }
  }

  method Powers(conf: Config, A: Share, m: Masks, inverse: seq<Share>, t: Triple) returns (powers: seq<Share>)
    requires conf.Valid() && IsShare(conf, A) && IsTriple(conf, t) && AreMasks(conf, m)
    requires |inverse| == L && AreShares(conf, inverse)
    requires forall i :: 0 <= i < L ==> Inverts(Value(m.b[i]), Value(inverse[i]), MaskProduct(m, i))
    ensures |powers| == L && AreShares(conf, powers)
    ensures forall i :: 0 <= i < L ==> Value(powers[i]) == PowerUpTo(Value(A), i + 1, FirstUseless(m, 0))
  {
    var c := MaskedFactors(conf, A, m, inverse, t);
    powers := [];
    var tmp := 1;
    for i := 0 to L
      invariant |powers| == i && AreShares(conf, powers) && tmp == Times(c, i) % P
      invariant forall j :: 0 <= j < i ==> Value(powers[j]) == PowerUpTo(Value(A), j + 1, FirstUseless(m, 0))
    {
      var power;
      tmp, power := OnePower(conf, tmp, c, i, m.b[i]);
      powers := powers + [power];
    }
  }

  method OnePower(conf: Config, tmp: int, c: seq<int>, i: nat, b: Share) returns (tmp': int, power: Share)
    requires IsShare(conf, b) && i < |c| && tmp == Times(c, i) % P
    ensures tmp' == Times(c, i + 1) % P && IsShare(conf, power)
    ensures Value(power) == (Times(c, i + 1) * Value(b)) % P
  {
    ModMul(Times(c, i), c[i], P);
    tmp' := (tmp * c[i]) % P;
    power := Scale(conf, tmp', b);
    ModMul(Times(c, i + 1), Value(b), P);
  }

  // ---------- the interpolation polynomial ----------

  lemma WeighStep(c: seq<int>, x: int, k: nat, ans: int, v: int, p: int)
    requires 0 < p && k < |c| && v == Pow(x, k) % p
    requires ans == (SumBelow(c, x, k) - c[0]) % p
    ensures (ans + (c[k] * v) % p) % p == (SumBelow(c, x, k + 1) - c[0]) % p
  {
    var s, w := SumBelow(c, x, k) - c[0], c[k] * Pow(x, k);
    ModMulRight(c[k], Pow(x, k), p);
    ReduceSum(s, w, p);
  }

  function Least(i: nat, j: nat): nat {
    if i <= j then i else j
  }

  /**
   f65Or and f65And: coefficient zero is public, the others weight the shared powers.  Powers that
   are zero from cut on truncate the polynomial.
   */
  method WeighPowers(conf: Config, powers: seq<Share>, table: seq<int>, ghost x: int, ghost cut: nat) returns (ans: Share)
    requires conf.Valid() && |powers| == L && AreShares(conf, powers) && |table| == L + 1 && cut <= L
    requires forall i :: 0 <= i < L ==> Value(powers[i]) == PowerUpTo(x, i + 1, cut)
    ensures IsShare(conf, ans) && Value(ans) == SumBelow(table, x, cut + 1) % P
  {
    ans := Everywhere(conf, 0);
    FirstTerm(table, x);
    for i := 1 to L + 1
      invariant IsShare(conf, ans)
      invariant Value(ans) == (SumBelow(table, x, Least(i, cut + 1)) - table[0]) % P
    {
      ans := WeighPower(conf, ans, powers[i - 1], table, i, x, cut);
    }
    ModAdd(SumBelow(table, x, cut + 1) - table[0], table[0], P);
    ans := AddPublic(conf, ans, table[0]);
  }

  method WeighPower(conf: Config, ans: Share, power: Share, table: seq<int>, i: nat, ghost x: int, ghost cut: nat)
    returns (ans': Share)
    requires IsShare(conf, ans) && IsShare(conf, power) && 1 <= i < |table| && cut < |table|
    requires Value(power) == PowerUpTo(x, i, cut)
    requires Value(ans) == (SumBelow(table, x, Least(i, cut + 1)) - table[0]) % P
    ensures IsShare(conf, ans') && Value(ans') == (SumBelow(table, x, Least(i + 1, cut + 1)) - table[0]) % P
  {
    var term := Scale(conf, table[i], power);
    if i <= cut {
      WeighStep(table, x, i, Value(ans), Value(power), P);
    } else {
      assert table[i] * 0 == 0;
      ModSmall(0, P);
      ModSmall(Value(ans), P);
    }
    ans' := Add(conf, ans, term);
  }

  // ---------- OR and AND ----------

  method OnePlusOnes(conf: Config, a: seq<Share>) returns (A: Share)
    requires conf.Valid() && |a| == L && AreBits(conf, a)
    ensures IsShare(conf, A) && Value(A) == 1 + Ones(a, L) <= L + 1
  {
    A := Everywhere(conf, 0);
    OnesBounds(conf, a, 0);
    for i := 0 to L
      invariant IsShare(conf, A) && Value(A) == Ones(a, i) <= i
    {
      A := Add(conf, A, a[i]);
      OnesBounds(conf, a, i + 1);
      ModSmall(Ones(a, i + 1), P);
    }
    A := AddPublic(conf, A, 1);
    ModSmall(1 + Ones(a, L), P);
  }

  /** The masks up to the first useless one decide how much of the table is evaluated. */
  method FanInPolynomial(conf: Config, a: seq<Share>, m: Masks, table: seq<int>) returns (ans: Share)
    requires conf.Valid() && |a| == L && AreBits(conf, a)
    requires AreMasks(conf, m) && |table| == L + 1
    ensures IsShare(conf, ans) && Value(ans) == SumBelow(table, 1 + Ones(a, L), FirstUseless(m, 0) + 1) % P
  {
    var t := ConstantTriple(conf);
    var A := OnePlusOnes(conf, a);
    var inverse := InvertMasks(conf, m, t);
    var powers := Powers(conf, A, m, inverse, t);
    ans := WeighPowers(conf, powers, table, Value(A), FirstUseless(m, 0));
  }

  lemma UsableMeans(m: Masks)
    requires |m.b| == |m.bDash| == L
    ensures Usable(m) <==> FirstUseless(m, 0) == L
  {
  }

  predicate AllOnes(a: seq<Share>) {
    forall i :: 0 <= i < |a| ==> Value(a[i]) == 1
  }

  predicate SomeOne(a: seq<Share>) {
    exists i :: 0 <= i < |a| && Value(a[i]) == 1
  }

  lemma OrAnswer(conf: Config, a: seq<Share>, k: nat)
    requires |a| == L && AreBits(conf, a) && 1 <= k <= L + 1
    ensures SumBelow(OR_TABLE, 1 + Ones(a, L), k) % P == Bit(SomeOne(a)) <==> k == L + 1
  {
    OnesBounds(conf, a, L);
    TruncatedOr(1 + Ones(a, L), k);
    if i :| 0 <= i < L && Value(a[i]) != 0 {
      assert IsBit(Value(a[i]));
    }
  }

  lemma AndAnswer(conf: Config, a: seq<Share>, k: nat)
    requires |a| == L && AreBits(conf, a) && 1 <= k <= L + 1
    ensures SumBelow(AND_TABLE, 1 + Ones(a, L), k) % P == Bit(AllOnes(a)) <==> k == L + 1 || (k == 1 && AllOnes(a))
  {
    OnesBounds(conf, a, L);
    TruncatedAnd(1 + Ones(a, L), k);
  }

  /** subUnboundedFanInOr: right exactly when no opened product is zero. */
  method FanInOr(conf: Config, a: seq<Share>, m: Masks) returns (ans: Share)
    requires conf.Valid() && |a| == L && AreBits(conf, a) && AreMasks(conf, m)
    ensures IsShare(conf, ans)
    ensures Value(ans) == Bit(SomeOne(a)) <==> Usable(m)
  {
    ans := FanInPolynomial(conf, a, m, OR_TABLE);
    OrAnswer(conf, a, FirstUseless(m, 0) + 1);
    UsableMeans(m);
  }

  /** subUnboundedFanInAnd: right also when the first product is zero and all bits are one. */
  method FanInAnd(conf: Config, a: seq<Share>, m: Masks) returns (ans: Share)
    requires conf.Valid() && |a| == L && AreBits(conf, a) && AreMasks(conf, m)
    ensures IsShare(conf, ans)
    ensures Value(ans) == Bit(AllOnes(a)) <==> Usable(m) || (MaskProduct(m, 0) == 0 && AllOnes(a))
  {
    ans := FanInPolynomial(conf, a, m, AND_TABLE);
    AndAnswer(conf, a, FirstUseless(m, 0) + 1);
    UsableMeans(m);
  }
}
