/**
 Share/Share.hpp over FixedPoint, seen from all parties at once: a share holds one scaled integer
 per party and opens to their sum.  Every party cuts its own product, so the error of an
 operation grows with the number of parties.
 */
module FixedShare {
  import opened NumberTheory
  import opened FixedPoint
  import FieldShare

  type Config = FieldShare.Config
  type Share = seq<int>

  predicate IsShare(conf: Config, x: Share) {
    |x| == conf.nParties
  }

  predicate AreShares(conf: Config, xs: seq<Share>) {
    forall i :: 0 <= i < |xs| ==> IsShare(conf, xs[i])
  }

  function SumTo(x: Share, k: nat): int
    requires k <= |x|
  {
    FieldShare.SumTo(x, k)
  }

  /** What recons returns: the sum over all parties. */
  function Opened(x: Share): int {
    SumTo(x, |x|)
  }

  /** Every party holds a whole number. */
  predicate AllWhole(x: Share) {
    forall i :: 0 <= i < |x| ==> IsWhole(x[i])
  }

  // ---------- linear operations ----------

  lemma {:induction false} SumAdded(z: Share, x: Share, y: Share, k: nat)
    requires k <= |x| == |y| == |z| && forall i :: 0 <= i < k ==> z[i] == x[i] + y[i]
    ensures SumTo(z, k) == SumTo(x, k) + SumTo(y, k)
  {
    if k > 0 { SumAdded(z, x, y, k - 1); }
  }

  method Add(conf: Config, x: Share, y: Share) returns (z: Share)
    requires IsShare(conf, x) && IsShare(conf, y)
    ensures IsShare(conf, z) && Opened(z) == Opened(x) + Opened(y)
    ensures AllWhole(x) && AllWhole(y) ==> AllWhole(z)
  {
    z := seq(conf.nParties, i requires 0 <= i < conf.nParties => x[i] + y[i]);
    SumAdded(z, x, y, conf.nParties);
  }

  method Subtract(conf: Config, x: Share, y: Share) returns (z: Share)
    requires IsShare(conf, x) && IsShare(conf, y)
    ensures IsShare(conf, z) && Opened(z) == Opened(x) - Opened(y)
    ensures AllWhole(x) && AllWhole(y) ==> AllWhole(z)
  {
    z := seq(conf.nParties, i requires 0 <= i < conf.nParties => x[i] - y[i]);
    SumAdded(x, z, y, conf.nParties);
  }

  /** Only party spId adds the public constant. */
  method AddPublic(conf: Config, x: Share, k: int) returns (z: Share)
    requires conf.Valid() && IsShare(conf, x)
    ensures IsShare(conf, z) && Opened(z) == Opened(x) + k
    ensures AllWhole(x) && IsWhole(k) ==> AllWhole(z)
  {
    var j := conf.spId - 1;
    FieldShare.SumReplace(x, j, x[j] + k, |x|);
    z := x[j := x[j] + k];
  }

  /** recons adds up the shares of all parties. */
  method OpenRecons(conf: Config, x: Share) returns (ret: int)
    requires IsShare(conf, x)
    ensures ret == Opened(x)
  {
    ret := 0;
    for ptId := 1 to conf.nParties + 1
      invariant ret == SumTo(x, ptId - 1)
    {
      ret := ret + x[ptId - 1];
    }
  }

  method OpenReconsAll(conf: Config, xs: seq<Share>) returns (ret: seq<int>)
    requires AreShares(conf, xs)
    ensures |ret| == |xs| && forall i :: 0 <= i < |xs| ==> ret[i] == Opened(xs[i])
  {
    ret := [];
    for i := 0 to |xs|
      invariant |ret| == i && forall j :: 0 <= j < i ==> ret[j] == Opened(xs[j])
    {
      var v := OpenRecons(conf, xs[i]);
      ret := ret + [v];
    }
  }

  // ---------- products with a public number ----------

  /** Every party is off by less than b, so the sum is off by less than b times their number. */
  lemma {:induction false} SumOfErrors(z: Share, x: Share, b: int, a: int, e: int, k: nat)
    requires k <= |x| == |z| && 0 <= e && forall i :: 0 <= i < k ==> Within(b * z[i], a * x[i], e)
    ensures Within(b * SumTo(z, k), a * SumTo(x, k), e * k)
  {
    if k > 0 {
      SumOfErrors(z, x, b, a, e, k - 1);
      ErrorStep(SumTo(z, k - 1), z[k - 1], SumTo(x, k - 1), x[k - 1], b, a, e, k);
    }
  }

  lemma ErrorStep(s: int, z: int, t: int, x: int, b: int, a: int, e: int, k: nat)
    requires k > 0 && Within(b * s, a * t, e * (k - 1)) && Within(b * z, a * x, e)
    ensures Within(b * (s + z), a * (t + x), e * k)
  {
    assert b * (s + z) == b * s + b * z && a * (t + x) == a * t + a * x;
    assert e * k == e * (k - 1) + e;
  }

  predicate IsProduct(z: Share, x: Share, k: int) {
    |z| == |x| && forall i :: 0 <= i < |x| ==> z[i] == Product(x[i], k)
  }

  lemma ProductError(z: Share, x: Share, k: int)
    requires IsProduct(z, x, k)
    ensures Within(S * Opened(z), k * Opened(x), (S - 1) * |x|)
  {
    forall i | 0 <= i < |x| ensures Within(S * z[i], k * x[i], S - 1) {
      TruncError(x[i] * k, S);
    }
    SumOfErrors(z, x, S, k, S - 1, |x|);
  }

  /** Nothing is cut when the public number or every summand is whole. */
  lemma ProductExact(z: Share, x: Share, k: int)
    requires IsProduct(z, x, k) && (IsWhole(k) || AllWhole(x))
    ensures S * Opened(z) == k * Opened(x)
    ensures IsWhole(k) && AllWhole(x) ==> AllWhole(z)
  {
    forall i | 0 <= i < |x|
      ensures Within(S * z[i], k * x[i], 0)
      ensures IsWhole(k) && AllWhole(x) ==> IsWhole(z[i])
    {
      WholeProduct(x[i], k);
    }
    SumOfErrors(z, x, S, k, 0, |x|);
  }

  lemma WholeProduct(v: int, k: int)
    requires IsWhole(k) || IsWhole(v)
    ensures S * Product(v, k) == k * v
    ensures IsWhole(k) && IsWhole(v) ==> IsWhole(Product(v, k))
  {
    if IsWhole(k) {
      MultipleTimes(v, k / S, k);
      TruncExact(v * k, S, v * (k / S));
      if IsWhole(v) { MultipleTimes(k / S, v / S, v); ModUnique((k / S) * v, (k / S) * (v / S), 0, S); }
    } else {
      MultipleTimes(k, v / S, v);
      TruncExact(v * k, S, k * (v / S));
    }
  }

  lemma MultipleTimes(v: int, m: int, k: int)
    requires k == m * S
    ensures v * k == (v * m) * S
  {
  }

  /** The product with one half: each party is off by at most half a unit. */
  lemma HalvedSum(z: Share, x: Share)
    requires IsProduct(z, x, HALF)
    ensures Within(2 * Opened(z), Opened(x), |x|)
  {
    forall i | 0 <= i < |x| ensures Within(2 * z[i], 1 * x[i], 1) {
      HalfOf(x[i]);
    }
    SumOfErrors(z, x, 2, 1, 1, |x|);
  }

  method TimesPublic(conf: Config, x: Share, k: int) returns (z: Share)
    requires IsShare(conf, x)
    ensures IsShare(conf, z) && IsProduct(z, x, k)
  {
    z := seq(conf.nParties, i requires 0 <= i < conf.nParties => Product(x[i], k));
  }

  /** Division by a public number, of any sign: each party cuts off less than one unit. */
  method OverPublic(conf: Config, x: Share, d: int) returns (z: Share)
    requires IsShare(conf, x) && d != 0
    ensures IsShare(conf, z) && Within(d * Opened(z), S * Opened(x), (Magnitude(d) - 1) * conf.nParties)
    ensures 0 < d && IsWhole(d) ==> Within((d / S) * Opened(z), Opened(x), (d / S - 1) * conf.nParties)
  {
    z := seq(conf.nParties, i requires 0 <= i < conf.nParties => Ratio(x[i], d));
    forall i | 0 <= i < |x| ensures Within(d * z[i], S * x[i], Magnitude(d) - 1) {
      RatioError(x[i], d);
    }
    SumOfErrors(z, x, d, S, Magnitude(d) - 1, |x|);
    if 0 < d && IsWhole(d) {
      var m := d / S;
      assert d == S * m;
      forall i | 0 <= i < |x| ensures Within(m * z[i], 1 * x[i], m - 1) {
        QuotientByWhole(x[i], m);
      }
      SumOfErrors(z, x, m, 1, m - 1, |x|);
    }
  }

  lemma RatioError(v: int, d: int)
    requires d != 0
    ensures Within(d * Ratio(v, d), S * v, Magnitude(d) - 1)
  {
    TruncError(v * S, Magnitude(d));
    if d < 0 { assert d * Ratio(v, d) == (-d) * TruncDiv(v * S, -d); }
  }

  lemma QuotientByWhole(v: int, m: int)
    requires 0 < m
    ensures Within(m * Ratio(v, S * m), v, m - 1)
  {
    TruncError(v * S, S * m);
    ScaledBound(m * Ratio(v, S * m), v, m);
    assert (S * m) * Ratio(v, S * m) == S * (m * Ratio(v, S * m));
  }

  lemma ScaledBound(a: int, b: int, m: int)
    requires Within(S * a, b * S, S * m - 1)
    ensures Within(a, b, m - 1)
  {
  }

  // ---------- Beaver multiplication ----------

  datatype Triple = Triple(a: Share, b: Share, c: Share)

  predicate IsTriple(conf: Config, t: Triple) {
    && IsShare(conf, t.a) && IsShare(conf, t.b) && IsShare(conf, t.c)
    && S * Opened(t.c) == Opened(t.a) * Opened(t.b)
  }

  /** All shares of the triple are whole numbers. */
  predicate IsWholeTriple(t: Triple) {
    AllWhole(t.a) && AllWhole(t.b) && AllWhole(t.c)
  }

  lemma BeaverIdentity(x: int, y: int, a: int, b: int)
    ensures x * y == a * b + (x - a) * b + (y - b) * a + (x - a) * (y - b)
  {
  }

  /** c + d b + e a + d e, where party spId adds the public d e. */
  method Combine(conf: Config, t: Triple, d: int, e: int) returns (v: Share)
    requires conf.Valid() && IsTriple(conf, t)
    ensures IsShare(conf, v)
    ensures Within(S * Opened(v), Opened(t.a) * Opened(t.b) + d * Opened(t.b) + e * Opened(t.a) + d * e,
                   (S - 1) * (if IsWholeTriple(t) then 1 else 2 * conf.nParties + 1))
    ensures IsWholeTriple(t) && (IsWhole(d) || IsWhole(e)) ==>
              S * Opened(v) == Opened(t.a) * Opened(t.b) + d * Opened(t.b) + e * Opened(t.a) + d * e
  {
    var db := TimesPublic(conf, t.b, d);
    var ea := TimesPublic(conf, t.a, e);
    ProductError(db, t.b, d);
    ProductError(ea, t.a, e);
    if IsWholeTriple(t) {
      ProductExact(db, t.b, d);
      ProductExact(ea, t.a, e);
    }
    TruncError(d * e, S);
    if IsWhole(d) || IsWhole(e) { WholeProduct(d, e); }
    v := Add(conf, t.c, db);
    v := Add(conf, v, ea);
    v := AddPublic(conf, v, Product(d, e));
    SumOfParts(Opened(t.c), Opened(db), Opened(ea), Product(d, e));
  }

  lemma SumOfParts(c: int, db: int, ea: int, de: int)
    ensures S * (c + db + ea + de) == S * c + S * db + S * ea + S * de
  {
  }

  /**
   v is the product of numbers that open to x and y: within 2n + 1 units, within one unit when the
   triple is whole, and exact when moreover one operand is whole.
   */
  predicate IsProductOf(conf: Config, v: Share, x: int, y: int, t: Triple) {
    && IsShare(conf, v)
    && Within(S * Opened(v), x * y, (S - 1) * (if IsWholeTriple(t) then 1 else 2 * conf.nParties + 1))
    && (IsWholeTriple(t) && (IsWhole(x) || IsWhole(y)) ==> S * Opened(v) == x * y)
  }

  /** The product from the two opened differences. */
  method FromDifferences(conf: Config, t: Triple, d: int, e: int, ghost x: int, ghost y: int) returns (v: Share)
    requires conf.Valid() && IsTriple(conf, t) && d == x - Opened(t.a) && e == y - Opened(t.b)
    ensures IsProductOf(conf, v, x, y, t)
  {
    BeaverIdentity(x, y, Opened(t.a), Opened(t.b));
    v := Combine(conf, t, d, e);
    if IsWholeTriple(t) {
      SumWhole(t.a, |t.a|);
      SumWhole(t.b, |t.b|);
      DifferenceWhole(x, Opened(t.a));
      DifferenceWhole(y, Opened(t.b));
    }
  }

  /** operator*= over FixedPoint. */
  method Multiply(conf: Config, x: Share, y: Share, t: Triple) returns (v: Share)
    requires conf.Valid() && IsShare(conf, x) && IsShare(conf, y) && IsTriple(conf, t)
    ensures IsProductOf(conf, v, Opened(x), Opened(y), t)
  {
    var d := Subtract(conf, x, t.a);
    var e := Subtract(conf, y, t.b);
    var de := OpenReconsAll(conf, [d, e]);
    v := FromDifferences(conf, t, de[0], de[1], Opened(x), Opened(y));
  }

  lemma {:induction false} SumWhole(x: Share, k: nat)
    requires k <= |x| && AllWhole(x)
    ensures IsWhole(SumTo(x, k))
  {
    if k > 0 { SumWhole(x, k - 1); }
  }

  lemma DifferenceWhole(a: int, b: int)
    requires IsWhole(b)
    ensures IsWhole(a - b) <==> IsWhole(a)
  {
  }

  method SubtractAll(conf: Config, xs: seq<Share>, ys: seq<Share>) returns (zs: seq<Share>)
    requires AreShares(conf, xs) && AreShares(conf, ys) && |xs| == |ys|
    ensures |zs| == |xs| && AreShares(conf, zs)
    ensures forall i :: 0 <= i < |xs| ==> Opened(zs[i]) == Opened(xs[i]) - Opened(ys[i])
  {
    zs := [];
    for i := 0 to |xs|
      invariant |zs| == i && AreShares(conf, zs)
      invariant forall j :: 0 <= j < i ==> Opened(zs[j]) == Opened(xs[j]) - Opened(ys[j])
    {
      var z := Subtract(conf, xs[i], ys[i]);
      zs := zs + [z];
    }
  }

  /** The vector operator *, with one opening for all differences; unequal lengths throw. */
  method MultiplyAll(conf: Config, xs: seq<Share>, ys: seq<Share>, ts: seq<Triple>) returns (out: FieldShare.Outcome<seq<Share>>)
    requires conf.Valid() && AreShares(conf, xs) && AreShares(conf, ys)
    requires |ts| == |xs| && forall i :: 0 <= i < |ts| ==> IsTriple(conf, ts[i])
    ensures out.Success? <==> |xs| == |ys|
    ensures out.Success? ==> |out.value| == |xs|
    ensures out.Success? ==> forall i :: 0 <= i < |xs| ==>
              IsProductOf(conf, out.value[i], Opened(xs[i]), Opened(ys[i]), ts[i])
  {
    var n := |xs|;
    if n != |ys| {
      return FieldShare.UnequalLengths;
    }
    var a := seq(n, i requires 0 <= i < n => ts[i].a);
    var b := seq(n, i requires 0 <= i < n => ts[i].b);
    assert AreShares(conf, a) && AreShares(conf, b);
    var d := SubtractAll(conf, xs, a);
    var e := SubtractAll(conf, ys, b);
    var de := OpenReconsAll(conf, d + e);
    var v: seq<Share> := [];
    for i := 0 to n
      invariant |v| == i
      invariant forall j :: 0 <= j < i ==> IsProductOf(conf, v[j], Opened(xs[j]), Opened(ys[j]), ts[j])
    {
      assert (d + e)[i] == d[i] && (d + e)[n + i] == e[i];
      var vi := FromDifferences(conf, ts[i], de[i], de[n + i], Opened(xs[i]), Opened(ys[i]));
      v := v + [vi];
    }
    out := FieldShare.Success(v);
  }
}
