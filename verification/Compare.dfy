/** Share/Compare.cpp, lines 705-751: the comparison and equality tests over shares of field elements. */
module Compare {
  import opened NumberTheory
  import opened PrimeModulus
  import opened FieldShare
  import opened FanIn
  import opened RandomBits
  import opened BitwiseLess
  import opened HalfRange

  // ---------- comparisonTest ----------

  /** w decides when x and y differ; otherwise the answer is the negation of x. */
  function CompareBits(w: int, x: int, y: int): int {
    if x == y then 1 - x else w
  }

  /** Halves of a, b and a - b determine the order of a and b. */
  lemma HalvesDecideOrder(a: int, b: int)
    requires 0 <= a < P && 0 <= b < P
    ensures CompareBits(Bit(a <= (P - 1) / 2), Bit(b <= (P - 1) / 2), Bit((a - b) % P <= (P - 1) / 2))
         == Bit(a < b)
  {
    if a >= b {
      assert (a - b) % P == a - b;
    } else {
      assert (a - b) % P == a - b + P;
    }
  }

  /** x + y - 2xy, selected by w */
  method WhereDiffering(conf: Config, w: Share, x: Share, y: Share, xy: Share, t: Triple) returns (z: Share)
    requires conf.Valid() && IsShare(conf, w) && IsShare(conf, xy) && IsTriple(conf, t)
    requires IsShare(conf, x) && IsShare(conf, y) && IsBit(Value(w)) && IsBit(Value(x)) && IsBit(Value(y))
    requires Value(xy) == (Value(x) * Value(y)) % P
    ensures IsShare(conf, z) && Value(z) == if Value(x) != Value(y) then Value(w) else 0
  {
    var differ := Xor(conf, x, y, xy);
    z := Multiply(conf, w, differ, t);
  }

  /** w (x + y - 2xy) + 1 - y - x + xy */
  method CombineHalves(conf: Config, w: Share, x: Share, y: Share, t: Triple) returns (z: Share)
    requires conf.Valid() && IsShare(conf, w) && IsShare(conf, x) && IsShare(conf, y) && IsTriple(conf, t)
    requires IsBit(Value(w)) && IsBit(Value(x)) && IsBit(Value(y))
    ensures IsShare(conf, z) && Value(z) == CompareBits(Value(w), Value(x), Value(y))
  {
    var xy := Multiply(conf, x, y, t);
    z := WhereDiffering(conf, w, x, y, xy, t);
    z := AddNeither(conf, z, x, y, xy);
  }

  /** z + 1 - y - x + xy */
  method AddNeither(conf: Config, z: Share, x: Share, y: Share, xy: Share) returns (sum: Share)
    requires conf.Valid() && IsShare(conf, z) && IsShare(conf, x) && IsShare(conf, y) && IsShare(conf, xy)
    requires IsBit(Value(z)) && IsBit(Value(x)) && IsBit(Value(y)) && Value(xy) == (Value(x) * Value(y)) % P
    requires Value(x) == Value(y) ==> Value(z) == 0
    ensures IsShare(conf, sum) && Value(sum) == Value(z) + (if Value(x) == Value(y) then 1 - Value(x) else 0)
  {
    NeitherBits(Value(z), Value(x), Value(y));
    sum := AddPublic(conf, z, 1);
    sum := Subtract(conf, sum, y);
    sum := Subtract(conf, sum, x);
    sum := Add(conf, sum, xy);
  }

  lemma NeitherBits(z: int, x: int, y: int)
    requires IsBit(z) && IsBit(x) && IsBit(y) && (x == y ==> z == 0)
    ensures ((((z + 1) % P - y) % P - x) % P + (x * y) % P) % P == z + if x == y then 1 - x else 0
  {
    assert (z + 1) % P == z + 1;
    assert (z + 1 - y) % P == z + 1 - y;
    if x == 1 && y == 1 { ModShift(P - 1, -1, P); }
  }

  lemma HalfAnswerIsBit(c: int, r: int)
    ensures IsBit(HalfAnswer(c, r))
  {
  }

  /**
   Whether the answer is right, when the draws fail some of the halves of a, b and a - b that
   truly are w, x and y.
   */
  predicate HalvesSuffice(w: bool, x: bool, y: bool, failsW: bool, failsX: bool, failsY: bool) {
    if failsX == failsY then (if x == y then !failsX else !failsW)
    else if x == y then (w != failsW) == !x
    else (x != failsX) == !w
  }

  lemma CompareFlipped(w: bool, x: bool, y: bool, failsW: bool, failsX: bool, failsY: bool)
    ensures CompareBits(Bit(w != failsW), Bit(x != failsX), Bit(y != failsY)) == CompareBits(Bit(w), Bit(x), Bit(y))
       <==> HalvesSuffice(w, x, y, failsW, failsX, failsY)
  {
  }

  predicate InLowerHalf(v: int) {
    v <= (P - 1) / 2
  }

  /** Whether r makes the half-range test of v answer wrongly. */
  predicate Flips(v: int, r: int) {
    HalfFails((2 * v + r) % P, r)
  }

  function HalfOf(v: int, r: int): int {
    HalfAnswer((2 * v + r) % P, r)
  }

  lemma HalfAnswerFlips(v: int, r: int)
    requires 0 <= v < P && 0 <= r < 0x1_0000_0000_0000_0000
    ensures HalfOf(v, r) == Bit(InLowerHalf(v) != Flips(v, r))
    ensures r < P ==> !Flips(v, r)
  {
    HalfAnswerIsRight(v, r);
    HalfAnswerIsBit((2 * v + r) % P, r);
  }

  /** Numbers of 64 bits, drawn for the halves of a, b and a - b. */
  predicate AreDrawn(rw: int, rx: int, ry: int) {
    && 0 <= rw < 0x1_0000_0000_0000_0000 && 0 <= rx < 0x1_0000_0000_0000_0000
    && 0 <= ry < 0x1_0000_0000_0000_0000
  }

  /** The answer of comparisonTest on a and b, whose difference modulo P is d. */
  function ComparisonAnswer(a: int, b: int, d: int, rw: int, rx: int, ry: int): int {
    CompareBits(HalfOf(a, rw), HalfOf(b, rx), HalfOf(d, ry))
  }

  /** When that answer is right. */
  predicate ComparisonHolds(a: int, b: int, d: int, rw: int, rx: int, ry: int) {
    HalvesSuffice(InLowerHalf(a), InLowerHalf(b), InLowerHalf(d), Flips(a, rw), Flips(b, rx), Flips(d, ry))
  }

  /** The comparison is answered rightly under exactly this condition, so for numbers drawn below P. */
  lemma ComparisonAnswerIsRight(a: int, b: int, d: int, rw: int, rx: int, ry: int)
    requires 0 <= a < P && 0 <= b < P && d == (a - b) % P && AreDrawn(rw, rx, ry)
    ensures ComparisonAnswer(a, b, d, rw, rx, ry) == Bit(a < b) <==> ComparisonHolds(a, b, d, rw, rx, ry)
    ensures rw < P && rx < P && ry < P ==> ComparisonHolds(a, b, d, rw, rx, ry)
  {
    HalvesDecideOrder(a, b);
    assert CompareBits(Bit(InLowerHalf(a)), Bit(InLowerHalf(b)), Bit(InLowerHalf(d))) == Bit(a < b);
    HalfAnswerFlips(a, rw);
    HalfAnswerFlips(b, rx);
    HalfAnswerFlips(d, ry);
    CompareFlipped(InLowerHalf(a), InLowerHalf(b), InLowerHalf(d), Flips(a, rw), Flips(b, rx), Flips(d, ry));
  }

  lemma DrawnInRange(draws: seq<seq<Share>>)
    requires |draws| == L && forall i :: 0 <= i < L ==> HasNonZero(draws[i])
    ensures 0 <= DrawnNumber(draws, L) < 0x1_0000_0000_0000_0000
  {
    DrawnNumberBounds(draws, L);
    PowerOfSixtyFour();
  }

  lemma ComparisonOfDraws(a: int, b: int, w: seq<seq<Share>>, x: seq<seq<Share>>, y: seq<seq<Share>>)
    requires 0 <= a < P && 0 <= b < P && |w| == |x| == |y| == L
    requires forall i :: 0 <= i < L ==> HasNonZero(w[i])
    requires forall i :: 0 <= i < L ==> HasNonZero(x[i])
    requires forall i :: 0 <= i < L ==> HasNonZero(y[i])
    ensures var rw, rx, ry, d := DrawnNumber(w, L), DrawnNumber(x, L), DrawnNumber(y, L), (a - b) % P;
            && (ComparisonAnswer(a, b, d, rw, rx, ry) == Bit(a < b) <==> ComparisonHolds(a, b, d, rw, rx, ry))
            && (rw < P && rx < P && ry < P ==> ComparisonHolds(a, b, d, rw, rx, ry))
  {
    DrawnInRange(w);
    DrawnInRange(x);
    DrawnInRange(y);
    ComparisonAnswerIsRight(a, b, (a - b) % P, DrawnNumber(w, L), DrawnNumber(x, L), DrawnNumber(y, L));
  }

  /** comparisonTest: a share of [a < b] exactly when ComparisonHolds, so for numbers drawn below P. */
  method ComparisonTest(conf: Config, a: Share, b: Share, rndW: HalfDraws, rndX: HalfDraws, rndY: HalfDraws)
    returns (z: Share)
    requires conf.Valid() && IsShare(conf, a) && IsShare(conf, b)
    requires AreHalfDraws(conf, rndW) && AreHalfDraws(conf, rndX) && AreHalfDraws(conf, rndY)
    ensures IsShare(conf, z)
    ensures var rw, rx, ry := DrawnNumber(rndW.bits, L), DrawnNumber(rndX.bits, L), DrawnNumber(rndY.bits, L);
            var d := (Value(a) - Value(b)) % P;
            && Value(z) == ComparisonAnswer(Value(a), Value(b), d, rw, rx, ry)
            && (Value(z) == Bit(Value(a) < Value(b)) <==> ComparisonHolds(Value(a), Value(b), d, rw, rx, ry))
            && (rw < P && rx < P && ry < P ==> Value(z) == Bit(Value(a) < Value(b)))
  {
    var t := ConstantTriple(conf);
    var w := SubHalfLessThan(conf, a, rndW);
    var x := SubHalfLessThan(conf, b, rndX);
    var difference := Subtract(conf, a, b);
    var y := SubHalfLessThan(conf, difference, rndY);
    z := CombineHalves(conf, w, x, y, t);
    ComparisonOfDraws(Value(a), Value(b), rndW.bits, rndX.bits, rndY.bits);
  }

  // ---------- equalityTest ----------

  datatype EqualityDraws = EqualityDraws(bits: seq<seq<Share>>, masks: Masks)

  predicate AreEqualityDraws(conf: Config, rnd: EqualityDraws) {
    AreDraws(conf, rnd.bits) && AreMasks(conf, rnd.masks)
  }

  /** Step 3: r_i where the public bit is one, 1 - r_i where it is zero. */
  method AgreeingBits(conf: Config, c: int, r: seq<Share>) returns (agree: seq<Share>)
    requires conf.Valid() && 0 <= c < P && |r| == L && AreBits(conf, r)
    ensures |agree| == L && AreBits(conf, agree)
    ensures forall i :: 0 <= i < L ==> Value(agree[i]) == Bit(Value(r[i]) == Shifted(c, L - 1 - i) % 2)
  {
    agree := r;
    var x := c;
    var i := L;
    while i > 0
      invariant 0 <= i <= L && |agree| == L && AreBits(conf, agree) && 0 <= x
      invariant x == Shifted(c, L - i)
      invariant forall j :: i <= j < L ==> Value(agree[j]) == Bit(Value(r[j]) == Shifted(c, L - 1 - j) % 2)
    {
      i := i - 1;
      assert IsBit(Value(r[i]));
      var bit := r[i];
      if x % 2 != 1 { bit := PublicMinus(conf, 1, r[i]); }
      agree := agree[i := bit];
      ShiftedAgain(c, L - 1 - i);
      x := x / 2;
    }
  }

  /** All bits agree exactly when the numbers are equal. */
  lemma {:induction false} AgreementIsEquality(conf: Config, c: int, r: seq<Share>, k: nat)
    requires 0 <= c < P && |r| == L && AreBits(conf, r) && k <= L
    ensures (forall i :: 0 <= i < k ==> Value(r[i]) == Shifted(c, L - 1 - i) % 2)
       <==> Number(r, k) == Shifted(c, L - k)
  {
    if k == 0 {
      PowerOfSixtyFour();
    } else {
      AgreementIsEquality(conf, c, r, k - 1);
      ShiftedAgain(c, L - k);
      assert IsBit(Value(r[k - 1]));
    }
  }

  /** Equality is answered wrongly exactly when r reaches P and a equals b. */
  lemma EqualityAnswerIsRight(a: int, b: int, r: int)
    requires 0 <= a < P && 0 <= b < P && 0 <= r < 0x1_0000_0000_0000_0000
    ensures (Bit((a - b + r) % P == r) == Bit(a == b)) <==> r < P || a != b
  {
  }

  method OpenDifference(conf: Config, a: Share, b: Share, draws: seq<seq<Share>>)
    returns (rBits: seq<Share>, c: int)
    requires conf.Valid() && IsShare(conf, a) && IsShare(conf, b) && AreDraws(conf, draws)
    ensures |rBits| == L && AreBits(conf, rBits) && Number(rBits, L) == DrawnNumber(draws, L)
    ensures c == (Value(a) - Value(b) + DrawnNumber(draws, L)) % P
  {
    rBits := SubRBVS(conf, draws);
    var r := BStoSC(conf, rBits);
    var cShare := Subtract(conf, a, b);
    cShare := Add(conf, cShare, r);
    c := OpenRecons(conf, cShare);
    ReduceSum(Value(a) - Value(b), Number(rBits, L), P);
  }

  /** Every bit of the drawn number agrees with the opened number c: they are equal. */
  lemma AllAgree(conf: Config, c: int, r: seq<Share>, agree: seq<Share>)
    requires 0 <= c < P && |r| == L && AreBits(conf, r) && |agree| == L
    requires forall i :: 0 <= i < L ==> Value(agree[i]) == Bit(Value(r[i]) == Shifted(c, L - 1 - i) % 2)
    ensures AllOnes(agree) <==> c == Number(r, L)
  {
    AgreementIsEquality(conf, c, r, L);
  }

  /** The AND over the 64 agreeing bits is right for usable masks, and for some others when all agree. */
  predicate AndSurvives(m: Masks, all: bool)
    requires |m.b| == |m.bDash| == L
  {
    Usable(m) || (MaskProduct(m, 0) == 0 && all)
  }

  /**
   equalityTest: a share of [(a - b + r) mod P = r] exactly when the AND survives its masks, and
   that is [a = b] exactly when the drawn number is below P or a and b differ.
   */
  method EqualityTest(conf: Config, a: Share, b: Share, rnd: EqualityDraws) returns (ret: Share)
    requires conf.Valid() && IsShare(conf, a) && IsShare(conf, b) && AreEqualityDraws(conf, rnd)
    ensures IsShare(conf, ret)
    ensures var r := DrawnNumber(rnd.bits, L);
            var same := (Value(a) - Value(b) + r) % P == r;
            && (Value(ret) == Bit(same) <==> AndSurvives(rnd.masks, same))
            && ((same <==> Value(a) == Value(b)) <==> r < P || Value(a) != Value(b))
  {
    var rBits, c := OpenDifference(conf, a, b, rnd.bits);
    var agree := AgreeingBits(conf, c, rBits);
    AllAgree(conf, c, rBits, agree);
    ret := FanInAnd(conf, agree, rnd.masks);
    DrawnInRange(rnd.bits);
    EqualityAnswerIsRight(Value(a), Value(b), DrawnNumber(rnd.bits, L));
  }
}
