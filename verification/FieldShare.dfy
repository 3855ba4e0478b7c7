/**
 Share/Share.hpp over PrimeField, seen from all parties at once: a share holds one residue per
 party and stands for the sum of the residues modulo P.  Every operation is given as what each
 party does to its own residue, together with the effect on the shared value.
 */
module FieldShare {
  import opened NumberTheory
  import opened PrimeModulus
  import opened PrimeField

  /** Party ids run from 1 to nParties; party spId adds the public constants. */
  datatype Config = Config(nParties: nat, spId: nat) {
    predicate Valid() {
      1 <= spId <= nParties < 0x8000_0000
    }
  }

  type Share = seq<int>

  predicate IsShare(conf: Config, x: Share) {
    |x| == conf.nParties && forall i :: 0 <= i < |x| ==> IsRepresentation(x[i])
  }

  predicate AreShares(conf: Config, xs: seq<Share>) {
    forall i :: 0 <= i < |xs| ==> IsShare(conf, xs[i])
  }

  function SumTo(x: seq<int>, k: nat): int
    requires k <= |x|
  {
    if k == 0 then 0 else SumTo(x, k - 1) + x[k - 1]
  }

  /** The secret a share stands for. */
  function Value(x: Share): int {
    SumTo(x, |x|) % P
  }

  // ---------- sums of residues ----------

  lemma SumStep(s: int, s': int, t: int, t': int, p: int)
    requires 0 < p && s % p == s' % p && t % p == t' % p
    ensures (s + t) % p == (s' + t') % p
  {
    ModAdd(s, t, p);
    ModAdd(s', t, p);
    ModAdd(t, s', p);
    ModAdd(t', s', p);
  }

  lemma ModTwice(x: int, p: int)
    requires 0 < p
    ensures (x % p) % p == x % p
  {
    ModSmall(x % p, p);
  }

  lemma {:induction false} SumAdded(z: seq<int>, x: seq<int>, y: seq<int>, k: nat, p: int)
    requires 0 < p && k <= |z| && k <= |x| && k <= |y|
    requires forall i :: 0 <= i < k ==> z[i] == (x[i] + y[i]) % p
    ensures SumTo(z, k) % p == (SumTo(x, k) + SumTo(y, k)) % p
  {
    if k > 0 {
      SumAdded(z, x, y, k - 1, p);
      ModTwice(x[k - 1] + y[k - 1], p);
      SumStep(SumTo(z, k - 1), SumTo(x, k - 1) + SumTo(y, k - 1), z[k - 1], x[k - 1] + y[k - 1], p);
    }
  }

  lemma {:induction false} SumNegated(z: seq<int>, y: seq<int>, k: nat, p: int)
    requires 0 < p && k <= |z| && k <= |y|
    requires forall i :: 0 <= i < k ==> z[i] == p - y[i]
    ensures SumTo(z, k) % p == (-SumTo(y, k)) % p
  {
    if k > 0 {
      SumNegated(z, y, k - 1, p);
      ModShift(-y[k - 1], 1, p);
      SumStep(SumTo(z, k - 1), -SumTo(y, k - 1), z[k - 1], -y[k - 1], p);
    }
  }

  lemma {:induction false} SumSubtracted(z: seq<int>, x: seq<int>, y: seq<int>, k: nat, p: int)
    requires 0 < p && k <= |z| && k <= |x| && k <= |y|
    requires forall i :: 0 <= i < k ==> z[i] == (x[i] + (p - y[i])) % p
    ensures SumTo(z, k) % p == (SumTo(x, k) - SumTo(y, k)) % p
  {
    if k > 0 {
      SumSubtracted(z, x, y, k - 1, p);
      ModTwice(x[k - 1] + (p - y[k - 1]), p);
      ModShift(x[k - 1] - y[k - 1], 1, p);
      SumStep(SumTo(z, k - 1), SumTo(x, k - 1) - SumTo(y, k - 1), z[k - 1], x[k - 1] - y[k - 1], p);
    }
  }

  lemma Distribute(a: int, u: int, x: int)
    ensures a * (u + x) == a * u + a * x
  {
  }

  lemma {:induction false} SumScaled(z: seq<int>, x: seq<int>, a: int, k: nat, p: int)
    requires 0 < p && k <= |z| && k <= |x|
    requires forall i :: 0 <= i < k ==> z[i] == (a * x[i]) % p
    ensures SumTo(z, k) % p == (a * SumTo(x, k)) % p
  {
    if k > 0 {
      SumScaled(z, x, a, k - 1, p);
      ModTwice(a * x[k - 1], p);
      SumStep(SumTo(z, k - 1), a * SumTo(x, k - 1), z[k - 1], a * x[k - 1], p);
      Distribute(a, SumTo(x, k - 1), x[k - 1]);
    }
  }

  lemma {:induction false} SumReplace(x: seq<int>, j: nat, v: int, k: nat)
    requires j < |x| && k <= |x|
    ensures SumTo(x[j := v], k) == SumTo(x, k) + if j < k then v - x[j] else 0
  {
    if k > 0 { SumReplace(x, j, v, k - 1); }
  }

  lemma {:induction false} SumConstant(n: nat, v: int, k: nat)
    requires k <= n
    ensures SumTo(seq(n, i => v), k) == k * v
  {
    if k > 0 { SumConstant(n, v, k - 1); }
  }

  lemma ReduceSum(a: int, b: int, p: int)
    requires 0 < p
    ensures (a % p + b % p) % p == (a + b) % p
    ensures (a % p - b % p) % p == (a - b) % p
  {
    ModAdd(a, b % p, p);
    ModAdd(b, a, p);
    ModAdd(a, -(b % p), p);
    ModShift(a - b, b / p, p);
    assert a - b % p == (a - b) + (b / p) * p;
  }

  // ---------- arithmetic on shares ----------

  method Add(conf: Config, x: Share, y: Share) returns (z: Share)
    requires IsShare(conf, x) && IsShare(conf, y)
    ensures IsShare(conf, z) && Value(z) == (Value(x) + Value(y)) % P
  {
    z := seq(conf.nParties, i requires 0 <= i < conf.nParties => (x[i] + y[i]) % P);
    SumAdded(z, x, y, conf.nParties, P);
    ReduceSum(SumTo(x, |x|), SumTo(y, |y|), P);
  }

  /** A zero residue becomes P, which still stands for zero. */
  method Negate(conf: Config, x: Share) returns (z: Share)
    requires IsShare(conf, x)
    ensures IsShare(conf, z) && Value(z) == (-Value(x)) % P
  {
    z := seq(conf.nParties, i requires 0 <= i < conf.nParties => P - x[i]);
    SumNegated(z, x, conf.nParties, P);
    ReduceSum(0, SumTo(x, |x|), P);
  }

  method Subtract(conf: Config, x: Share, y: Share) returns (z: Share)
    requires IsShare(conf, x) && IsShare(conf, y)
    ensures IsShare(conf, z) && Value(z) == (Value(x) - Value(y)) % P
  {
    z := seq(conf.nParties, i requires 0 <= i < conf.nParties => (x[i] + (P - y[i])) % P);
    SumSubtracted(z, x, y, conf.nParties, P);
    ReduceSum(SumTo(x, |x|), SumTo(y, |y|), P);
  }

  lemma ModMulRight(k: int, x: int, p: int)
    requires 0 < p
    ensures (k * (x % p)) % p == (k * x) % p
  {
    ModTwice(x, p);
    CongMul(k, k, x % p, x, p);
  }

  /** Multiplying by a public constant. */
  method Scale(conf: Config, k: int, x: Share) returns (z: Share)
    requires IsShare(conf, x)
    ensures IsShare(conf, z) && Value(z) == (k * Value(x)) % P
  {
    z := seq(conf.nParties, i requires 0 <= i < conf.nParties => (k * x[i]) % P);
    SumScaled(z, x, k, conf.nParties, P);
    ModMulRight(k, SumTo(x, |x|), P);
  }

  /** Adding a public constant: only party spId does anything. */
  method AddPublic(conf: Config, x: Share, k: int) returns (z: Share)
    requires conf.Valid() && IsShare(conf, x)
    ensures IsShare(conf, z) && Value(z) == (Value(x) + k) % P
  {
    var j := conf.spId - 1;
    SumReplace(x, j, (x[j] + k) % P, |x|);
    z := x[j := (x[j] + k) % P];
  }

  /** A public constant minus a share. */
  method PublicMinus(conf: Config, k: int, x: Share) returns (z: Share)
    requires conf.Valid() && IsShare(conf, x)
    ensures IsShare(conf, z) && Value(z) == (k - Value(x)) % P
  {
    z := Negate(conf, x);
    z := AddPublic(conf, z, k);
  }

  /** The share every party constructs from the same field element. */
  method Everywhere(conf: Config, k: int) returns (z: Share)
    requires IsRepresentation(k)
    ensures IsShare(conf, z) && Value(z) == (conf.nParties * k) % P
  {
    z := seq(conf.nParties, i => k);
    SumConstant(conf.nParties, k, conf.nParties);
  }

  // ---------- open and recons ----------

  /** What every party obtains after all parties have sent their residues to each other. */
  method OpenRecons(conf: Config, x: Share) returns (ret: int)
    requires IsShare(conf, x)
    ensures ret == Value(x) && 0 <= ret < P
  {
    ret := 0;
    for ptId := 1 to conf.nParties + 1
      invariant ret == SumTo(x, ptId - 1) % P
    {
      ret := (ret + x[ptId - 1]) % P;
    }
  }

  method OpenReconsAll(conf: Config, xs: seq<Share>) returns (ret: seq<int>)
    requires AreShares(conf, xs)
    ensures |ret| == |xs|
    ensures forall i :: 0 <= i < |xs| ==> ret[i] == Value(xs[i]) && 0 <= ret[i] < P
  {
    ret := [];
    for i := 0 to |xs|
      invariant |ret| == i
      invariant forall j :: 0 <= j < i ==> ret[j] == Value(xs[j]) && 0 <= ret[j] < P
    {
      var v := OpenRecons(conf, xs[i]);
      ret := ret + [v];
    }
  }

  // ---------- Beaver multiplication ----------

  datatype Triple = Triple(a: Share, b: Share, c: Share)

  predicate IsTriple(conf: Config, t: Triple) {
    && IsShare(conf, t.a) && IsShare(conf, t.b) && IsShare(conf, t.c)
    && Value(t.c) == (Value(t.a) * Value(t.b)) % P
  }

  /** TripleHandler hands every party (1, 1, n): the shared values are n, n and n * n. */
  method ConstantTriple(conf: Config) returns (t: Triple)
    requires conf.Valid()
    ensures IsTriple(conf, t) && Value(t.a) == conf.nParties && Value(t.b) == conf.nParties
    ensures Value(t.c) == conf.nParties * conf.nParties
  {
    var one := Everywhere(conf, 1);
    var n := Everywhere(conf, conf.nParties);
    t := Triple(one, one, n);
    SmallSquare(conf.nParties);
  }

  lemma SquareBound(n: nat, b: nat)
    requires n < b
    ensures n * n <= b * b
  {
    assert n * n <= n * b <= b * b;
  }

  lemma SmallSquare(n: nat)
    requires n < 0x8000_0000
    ensures (n * 1) % P == n && (n * n) % P == n * n
  {
    SquareBound(n, 0x8000_0000);
    ModSmall(n, P);
    ModSmall(n * n, P);
  }

  lemma Foil(d: int, a: int, e: int, b: int)
    ensures (d + a) * (e + b) == a * b + (d * b + e * a + d * e)
  {
  }

  lemma BeaverTail(xy: int, m: int, ab: int, c: int, s: int, p: int)
    requires 0 < p && m % p == xy % p && m == ab + s && c % p == ab % p
    ensures (c + s) % p == xy % p
  {
    SumStep(c, ab, s, s, p);
  }

  /** c + d b + e a + d e = x y when d + a = x, e + b = y and c = a b. */
  lemma BeaverIdentity(x: int, y: int, a: int, b: int, c: int, d: int, e: int, p: int)
    requires 0 < p && (d + a) % p == x % p && (e + b) % p == y % p && c % p == (a * b) % p
    ensures (c + (d * b + e * a + d * e)) % p == (x * y) % p
  {
    CongMul(d + a, x, e + b, y, p);
    Foil(d, a, e, b);
    BeaverTail(x * y, (d + a) * (e + b), a * b, c, d * b + e * a + d * e, p);
  }

  lemma FourTerms(c: int, u: int, v: int, w: int, p: int)
    requires 0 < p
    ensures (((c + u % p) % p + v % p) % p + w % p) % p == (c + (u + v + w)) % p
  {
    ModAdd(u, c, p);
    ReduceSum(c + u, v, p);
    ReduceSum(c + u + v, w, p);
  }

  lemma Opened(x: int, a: int, d: int, p: int)
    requires 0 < p && d == (x - a) % p
    ensures (d + a) % p == x % p
  {
    ModAdd(x - a, a, p);
  }

  lemma CombinedValue(x: int, y: int, a: int, b: int, c: int, d: int, e: int, p: int)
    requires 0 < p && d == (x - a) % p && e == (y - b) % p && c == (a * b) % p
    ensures (((c + (d * b) % p) % p + (e * a) % p) % p + (d * e) % p) % p == (x * y) % p
  {
    FourTerms(c, d * b, e * a, d * e, p);
    ModTwice(a * b, p);
    Opened(x, a, d, p);
    Opened(y, b, e, p);
    BeaverIdentity(x, y, a, b, c, d, e, p);
  }

  /** The share each party computes from the two opened differences. */
  method Combine(conf: Config, t: Triple, d: int, e: int, ghost x: int, ghost y: int) returns (v: Share)
    requires conf.Valid() && IsTriple(conf, t)
    requires d == (x - Value(t.a)) % P && e == (y - Value(t.b)) % P
    ensures IsShare(conf, v) && Value(v) == (x * y) % P
  {
    var db := Scale(conf, d, t.b);
    var ea := Scale(conf, e, t.a);
    v := Add(conf, t.c, db);
    v := Add(conf, v, ea);
    v := AddPublic(conf, v, (d * e) % P);
    CombinedValue(x, y, Value(t.a), Value(t.b), Value(t.c), d, e, P);
  }

  method Multiply(conf: Config, x: Share, y: Share, t: Triple) returns (v: Share)
    requires conf.Valid() && IsShare(conf, x) && IsShare(conf, y) && IsTriple(conf, t)
    ensures IsShare(conf, v) && Value(v) == (Value(x) * Value(y)) % P
  {
    var d := Subtract(conf, x, t.a);
    var e := Subtract(conf, y, t.b);
    var de := OpenReconsAll(conf, [d, e]);
    v := Combine(conf, t, de[0], de[1], Value(x), Value(y));
  }

  datatype Outcome<T> = Success(value: T) | UnequalLengths

  /** The differences x[i] - a, in order. */
  method Differences(conf: Config, xs: seq<Share>, a: Share) returns (d: seq<Share>)
    requires AreShares(conf, xs) && IsShare(conf, a)
    ensures |d| == |xs| && AreShares(conf, d)
    ensures forall i :: 0 <= i < |xs| ==> Value(d[i]) == (Value(xs[i]) - Value(a)) % P
  {
    d := [];
    for i := 0 to |xs|
      invariant |d| == i && AreShares(conf, d)
      invariant forall j :: 0 <= j < i ==> Value(d[j]) == (Value(xs[j]) - Value(a)) % P
    {
      var x := Subtract(conf, xs[i], a);
      d := d + [x];
    }
  }

  /** One opening for the whole vector: the differences d, then the differences e. */
  method MultiplyAll(conf: Config, xs: seq<Share>, ys: seq<Share>, t: Triple) returns (out: Outcome<seq<Share>>)
    requires conf.Valid() && AreShares(conf, xs) && AreShares(conf, ys) && IsTriple(conf, t)
    ensures out.Success? <==> |xs| == |ys|
    ensures out.Success? ==> |out.value| == |xs| && AreShares(conf, out.value)
    ensures out.Success? ==> forall i :: 0 <= i < |xs| ==>
              Value(out.value[i]) == (Value(xs[i]) * Value(ys[i])) % P
  {
    var n := |xs|;
    if n != |ys| { return UnequalLengths; }
    var d := Differences(conf, xs, t.a);
    var e := Differences(conf, ys, t.b);
    var de := OpenReconsAll(conf, d + e);
    var v := [];
    for i := 0 to n
      invariant |v| == i && AreShares(conf, v)
      invariant forall j :: 0 <= j < i ==> Value(v[j]) == (Value(xs[j]) * Value(ys[j])) % P
    {
      assert (d + e)[i] == d[i] && (d + e)[n + i] == e[i];
      var w := Combine(conf, t, de[i], de[n + i], Value(xs[i]), Value(ys[i]));
      v := v + [w];
    }
    out := Success(v);
  }
}
