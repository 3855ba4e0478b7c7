/**
 Share/Compare.cpp, lines 204-246: subRBVS leaves out the check that its 64 bits denote a number
 below P, and nothing redraws a mask whose product opens to zero.  Every number below 2^64 can be
 drawn, and so can useless masks; on some draws the tests answer wrongly.  All draws here stay
 within the range of the generator.
 */
module WrongAnswers {
  import opened NumberTheory
  import opened PrimeModulus
  import opened FieldShare
  import opened FanIn
  import opened PrefixOr
  import opened RandomBits
  import opened HalfRange
  import opened Compare
  import opened Interval

  // ---------- draws ----------

  /** Party 1 holds v, the others nothing. */
  function ShareOf(conf: Config, v: int): Share {
    seq(conf.nParties, i => if i == 0 then v else 0)
  }

  lemma {:induction false} SumOfShare(conf: Config, v: int, k: nat)
    requires k <= conf.nParties
    ensures SumTo(ShareOf(conf, v), k) == if k == 0 then 0 else v
  {
    if k > 0 { SumOfShare(conf, v, k - 1); }
  }

  lemma ShareOfValue(conf: Config, v: int)
    requires conf.Valid() && 0 <= v < GENERATOR_LIMIT
    ensures IsShare(conf, ShareOf(conf, v)) && IsGenerated(ShareOf(conf, v)) && Value(ShareOf(conf, v)) == v
  {
    SumOfShare(conf, v, conf.nParties);
    ModSmall(v, P);
  }

  /** What is drawn for a bit: 1, in the lower half, for a one, and the next number after the half for a zero. */
  function DrawOf(one: bool): int {
    if one then 1 else P / 2 + 1
  }

  function DrawsOf(conf: Config, r: int, k: nat): (draws: seq<seq<Share>>)
    ensures |draws| == k
    decreases k
  {
    if k == 0 then [] else DrawsOf(conf, r / 2, k - 1) + [[ShareOf(conf, DrawOf(r % 2 == 1))]]
  }

  lemma {:induction false} DrawsDenote(conf: Config, r: int, k: nat)
    requires conf.Valid() && 0 <= r < Pow(2, k)
    ensures var draws := DrawsOf(conf, r, k);
            && (forall i :: 0 <= i < k ==> AreShares(conf, draws[i]) && AllGenerated(draws[i]) && HasNonZero(draws[i]))
            && DrawnNumber(draws, k) == r
    decreases k
  {
    if k > 0 {
      var front := DrawsOf(conf, r / 2, k - 1);
      DrawsDenote(conf, r / 2, k - 1);
      var last := OneDraw(conf, r % 2 == 1);
      assert DrawsOf(conf, r, k) == front + [last];
      DrawnExtends(front, [last], k - 1);
    }
  }

  lemma OneDraw(conf: Config, one: bool) returns (draw: seq<Share>)
    requires conf.Valid()
    ensures draw == [ShareOf(conf, DrawOf(one))] && AreShares(conf, draw) && AllGenerated(draw)
    ensures HasNonZero(draw) && Bit(FirstNonZero(draw) <= P / 2) == Bit(one)
  {
    draw := [ShareOf(conf, DrawOf(one))];
    ShareOfValue(conf, DrawOf(one));
    assert Value(draw[0]) == DrawOf(one);
  }

  lemma {:induction false} DrawnExtends(draws: seq<seq<Share>>, more: seq<seq<Share>>, k: nat)
    requires k <= |draws| && forall i :: 0 <= i < |draws| ==> HasNonZero(draws[i])
    requires forall i :: 0 <= i < |more| ==> HasNonZero(more[i])
    ensures DrawnNumber(draws + more, k) == DrawnNumber(draws, k)
  {
    if k > 0 { DrawnExtends(draws, more, k - 1); }
  }

  /** Draws that the generator can make, and the number that their bits denote. */
  predicate CanDraw(conf: Config, draws: seq<seq<Share>>, r: int) {
    AreDraws(conf, draws) && DrawnNumber(draws, L) == r && forall i :: 0 <= i < L ==> AllGenerated(draws[i])
  }

  /** Every number of 64 bits can be drawn. */
  lemma DrawsFor(conf: Config, r: int)
    requires conf.Valid() && 0 <= r < 0x1_0000_0000_0000_0000
    ensures CanDraw(conf, DrawsOf(conf, r, L), r)
  {
    PowerOfSixtyFour();
    DrawsDenote(conf, r, L);
  }

  /** The same share for all 128 masks of one fan-in. */
  function MasksOf(conf: Config, v: int): Masks {
    Masks(seq(L, i => ShareOf(conf, v)), seq(L, i => ShareOf(conf, v)))
  }

  predicate MasksGenerated(m: Masks) {
    AllGenerated(m.b) && AllGenerated(m.bDash)
  }

  /** Masks of one are usable. */
  lemma MasksOfOne(conf: Config)
    requires conf.Valid()
    ensures AreMasks(conf, MasksOf(conf, 1)) && MasksGenerated(MasksOf(conf, 1)) && Usable(MasksOf(conf, 1))
  {
    ShareOfValue(conf, 1);
    ModSmall(1, P);
  }

  /** Masks of zero can be drawn, and are useless. */
  lemma MasksOfZero(conf: Config)
    requires conf.Valid()
    ensures AreMasks(conf, MasksOf(conf, 0)) && MasksGenerated(MasksOf(conf, 0)) && !Usable(MasksOf(conf, 0))
  {
    ShareOfValue(conf, 0);
    ModSmall(0, P);
    assert MaskProduct(MasksOf(conf, 0), 0) == 0;
  }

  /** Sharings whose random pieces are all 1. */
  function SharingsOf(conf: Config): seq<SharingDraw> {
    seq(L, i => SharingDraw(0, seq(conf.nParties, j => 1)))
  }

  predicate SharingsGenerated(draws: seq<SharingDraw>) {
    forall i :: 0 <= i < |draws| ==>
      0 <= draws[i].r < GENERATOR_LIMIT && forall j :: 0 <= j < |draws[i].pieces| ==> 1 <= draws[i].pieces[j] < 1000
  }

  predicate MaskSetsGenerated(ms: seq<Masks>) {
    forall i :: 0 <= i < |ms| ==> MasksGenerated(ms[i])
  }

  /** Everything that one half-range test draws, with r as the number drawn bit by bit. */
  predicate CanDrawHalf(conf: Config, rnd: HalfDraws, r: int) {
    && AreHalfDraws(conf, rnd) && CanDraw(conf, rnd.bits, r)
    && SharingsGenerated(rnd.sharing) && MaskSetsGenerated(rnd.masks)
  }

  function HalfDrawsOf(conf: Config, r: int): HalfDraws {
    HalfDraws(DrawsOf(conf, r, L), SharingsOf(conf), seq(3 * LAMBDA, i => MasksOf(conf, 1)))
  }

  lemma HalfDrawsFor(conf: Config, r: int)
    requires conf.Valid() && 0 <= r < 0x1_0000_0000_0000_0000
    ensures CanDrawHalf(conf, HalfDrawsOf(conf, r), r)
  {
    DrawsFor(conf, r);
    MasksOfOne(conf);
  }

  // ---------- wrong answers ----------

  /** With masks of zero, which can be drawn, the OR answers wrongly on every input. */
  method OrFails(conf: Config, a: seq<Share>) returns (m: Masks, ans: Share)
    requires conf.Valid() && |a| == L && AreBits(conf, a)
    ensures AreMasks(conf, m) && MasksGenerated(m) && !Usable(m)
    ensures Value(ans) != Bit(SomeOne(a))
  {
    MasksOfZero(conf);
    m := MasksOf(conf, 0);
    ans := FanInOr(conf, a, m);
  }

  lemma HalfFormula()
    ensures HalfOf(P / 2, P + 1) == 0 && InLowerHalf(P / 2)
  {
    ModUnique(2 * (P / 2) + (P + 1), 2, 0, P);
  }

  /** P / 2 is in the lower half, and not recognised when P + 1 is drawn. */
  method HalfRangeFails(conf: Config, a: Share) returns (rnd: HalfDraws, ans: Share)
    requires conf.Valid() && IsShare(conf, a) && Value(a) == P / 2
    ensures CanDrawHalf(conf, rnd, P + 1) && Value(ans) == HalfOf(Value(a), P + 1)
    ensures Value(ans) == 0 && InLowerHalf(Value(a))
  {
    HalfDrawsFor(conf, P + 1);
    HalfFormula();
    rnd := HalfDrawsOf(conf, P + 1);
    ans := SubHalfLessThan(conf, a, rnd);
  }

  lemma ComparisonFormula()
    ensures ComparisonAnswer(P - 1, 1, (P - 1 - 1) % P, P + 2, 0, 0) == 1
  {
    ModUnique(2 * (P - 1) + (P + 2), 3, 0, P);
    ModSmall(2, P);
    ModSmall(P - 2, P);
    ModUnique(2 * (P - 2), 1, P - 4, P);
  }

  /** P - 1 is not less than 1, and answered to be when P + 2 is drawn for the half of P - 1. */
  method ComparisonFails(conf: Config, a: Share, b: Share) returns (first: HalfDraws, other: HalfDraws, ans: Share)
    requires conf.Valid() && IsShare(conf, a) && IsShare(conf, b) && Value(a) == P - 1 && Value(b) == 1
    ensures CanDrawHalf(conf, first, P + 2) && CanDrawHalf(conf, other, 0)
    ensures Value(ans) == ComparisonAnswer(Value(a), Value(b), (Value(a) - Value(b)) % P, P + 2, 0, 0)
    ensures Value(ans) == 1 && Value(a) > Value(b)
  {
    HalfDrawsFor(conf, P + 2);
    HalfDrawsFor(conf, 0);
    ComparisonFormula();
    first, other := HalfDrawsOf(conf, P + 2), HalfDrawsOf(conf, 0);
    ans := ComparisonTest(conf, a, b, first, other, other);
  }

  /** Equal numbers are answered to differ when P is drawn. */
  method EqualityFails(conf: Config, a: Share, b: Share) returns (rnd: EqualityDraws, ans: Share)
    requires conf.Valid() && IsShare(conf, a) && IsShare(conf, b) && Value(a) == Value(b)
    ensures AreEqualityDraws(conf, rnd) && CanDraw(conf, rnd.bits, P) && MasksGenerated(rnd.masks)
    ensures Value(ans) == Bit((Value(a) - Value(b) + P) % P == P) == 0
  {
    DrawsFor(conf, P);
    MasksOfOne(conf);
    ModUnique(P, 1, 0, P);
    rnd := EqualityDraws(DrawsOf(conf, P, L), MasksOf(conf, 1));
    ans := EqualityTest(conf, a, b, rnd);
  }

  /** Everything that one interval test draws, with r as the number drawn bit by bit. */
  predicate CanDrawInterval(conf: Config, rnd: IntervalDraws, r: int) {
    && AreIntervalDraws(conf, rnd) && CanDraw(conf, rnd.bits, r)
    && SharingsGenerated(rnd.low) && SharingsGenerated(rnd.high)
    && MaskSetsGenerated(rnd.lowMasks) && MaskSetsGenerated(rnd.highMasks)
  }

  lemma IntervalFormula()
    ensures IntervalAnswer(1, 5, (3 + (P - 2)) % P, P - 2) == 0
  {
    ModUnique(3 + (P - 2), 1, 1, P);
    IntervalAnswerMeans(1, 5, 3, P - 2);
  }

  /** 3 lies in (1, 5), and is answered not to when P - 2, a number below P, is drawn. */
  method IntervalFails(conf: Config, a: Share) returns (rnd: IntervalDraws, ans: Share)
    requires conf.Valid() && IsShare(conf, a) && Value(a) == 3
    ensures CanDrawInterval(conf, rnd, P - 2)
    ensures Value(ans) == IntervalAnswer(1, 5, (Value(a) + (P - 2)) % P, P - 2) == 0
  {
    DrawsFor(conf, P - 2);
    MasksOfOne(conf);
    IntervalFormula();
    var masks := seq(3 * LAMBDA, i => MasksOf(conf, 1));
    rnd := IntervalDraws(DrawsOf(conf, P - 2, L), SharingsOf(conf), SharingsOf(conf), masks, masks);
    ans := IntervalTest(conf, 1, a, 5, rnd);
  }
}
