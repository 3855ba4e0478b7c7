/** Share/Compare.cpp, lines 659-703: the interval test. */
module Interval {
  import opened NumberTheory
  import opened PrimeModulus
  import opened FieldShare
  import opened FanIn
  import opened PrefixOr
  import opened RandomBits
  import opened BitwiseLess

  datatype IntervalDraws = IntervalDraws(bits: seq<seq<Share>>, low: seq<SharingDraw>, high: seq<SharingDraw>,
                                         lowMasks: seq<Masks>, highMasks: seq<Masks>)

  predicate AreIntervalDraws(conf: Config, rnd: IntervalDraws) {
    && AreDraws(conf, rnd.bits)
    && AreSharingDraws(conf, rnd.low) && AreSharingDraws(conf, rnd.high)
    && |rnd.lowMasks| == 3 * LAMBDA && AllUsable(conf, rnd.lowMasks)
    && |rnd.highMasks| == 3 * LAMBDA && AllUsable(conf, rnd.highMasks)
  }

  /** Adding PrimeField(p) adds zero: the constructor reduces p modulo p. */
  function LowBound(c1: int, c2: int, c: int): int {
    if c1 < c < c2 then (c - c1 - 1) % P
    else if c2 <= c then (c - c2) % P
    else (c + P % P - c2) % P
  }

  function HighBound(c1: int, c2: int, c: int): int {
    if c1 < c < c2 then (c + P % P - c2 + 1) % P
    else if c2 <= c then (c - c1) % P
    else (c + P % P - c1) % P
  }

  /** The answer computed from the opened number c and the drawn number r. */
  function IntervalAnswer(c1: int, c2: int, c: int, r: int): int {
    var between := Bit(LowBound(c1, c2, c) < r < HighBound(c1, c2, c));
    if c1 < c < c2 then 1 - between else between
  }

  /** The opening hits the end of a range whose upper bound P was reduced to zero, or r reached P. */
  predicate Degenerate(c1: int, c2: int, c: int, r: int) {
    r >= P || (c == c2 - 1 && c1 < c) || c == c1
  }

  /** The bounds without the reduction: a bound that reaches P has become zero. */
  lemma BoundsReduced(c1: int, c2: int, c: int)
    requires 0 <= c1 < c2 < P && 0 <= c < P
    ensures LowBound(c1, c2, c)
         == if c1 < c < c2 then c - c1 - 1 else if c2 <= c then c - c2 else c + P - c2
    ensures HighBound(c1, c2, c)
         == if c1 < c < c2 then (if c == c2 - 1 then 0 else c + P - c2 + 1)
            else if c2 <= c then c - c1 else if c == c1 then 0 else c + P - c1
  {
  }

  lemma IntervalAnswerBy(c1: int, c2: int, a: int, r: int, c: int, k: int)
    requires 0 <= c1 < c2 < P && 0 <= a < P && 0 <= r < 0x1_0000_0000_0000_0000
    requires 0 <= c < P && a + r == k * P + c && 0 <= k <= 2
    ensures IntervalAnswer(c1, c2, c, r)
         == if Degenerate(c1, c2, c, r) then Bit(c1 < c < c2) else Bit(c1 < a < c2)
  {
    BoundsReduced(c1, c2, c);
  }

  /** On a degenerate opening the answer is about the opened number instead of the secret. */
  lemma IntervalAnswerMeans(c1: int, c2: int, a: int, r: int)
    requires 0 <= c1 < c2 < P && 0 <= a < P && 0 <= r < 0x1_0000_0000_0000_0000
    ensures IntervalAnswer(c1, c2, (a + r) % P, r)
         == if Degenerate(c1, c2, (a + r) % P, r) then Bit(c1 < (a + r) % P < c2) else Bit(c1 < a < c2)
  {
    IntervalAnswerBy(c1, c2, a, r, (a + r) % P, (a + r) / P);
  }

  lemma ReversedAnswerBy(c1: int, c2: int, a: int, r: int, c: int, k: int)
    requires 0 <= c2 <= c1 < P && 0 <= a < P && 0 <= r < 0x1_0000_0000_0000_0000
    requires 0 <= c < P && a + r == k * P + c && 0 <= k <= 2
    ensures IntervalAnswer(c1, c2, c, r) == Bit(r < P && c2 <= c < c1 && if r <= c then a < c2 else c1 < a)
  {
    assert c2 <= c ==> LowBound(c1, c2, c) == c - c2;
    assert c < c2 ==> LowBound(c1, c2, c) == c - c2 + P && HighBound(c1, c2, c) == c - c1 + P;
    assert c1 <= c ==> HighBound(c1, c2, c) == c - c1;
    assert c < c1 ==> HighBound(c1, c2, c) == c - c1 + P;
  }

  /**
   With the bounds the other way round nothing lies between them.  The answer is one all the same when
   the opened number falls between c2 and c1 and the secret lies outside, on the side told by r.
   */
  lemma ReversedAnswerMeans(c1: int, c2: int, a: int, r: int)
    requires 0 <= c2 <= c1 < P && 0 <= a < P && 0 <= r < 0x1_0000_0000_0000_0000
    ensures var c := (a + r) % P;
            IntervalAnswer(c1, c2, c, r) == Bit(r < P && c2 <= c < c1 && if r <= c then a < c2 else c1 < a)
  {
    ReversedAnswerBy(c1, c2, a, r, (a + r) % P, (a + r) / P);
  }

  /** Inside (c1, c2) the opened number asks for the complement of the bounds. */
  method Complement(conf: Config, c1: int, c2: int, c: int, between: Share) returns (ret: Share)
    requires conf.Valid() && IsShare(conf, between) && IsBit(Value(between))
    ensures IsShare(conf, ret) && Value(ret) == if c1 < c < c2 then 1 - Value(between) else Value(between)
  {
    if c1 < c && c < c2 {
      ret := PublicMinus(conf, 1, between);
    } else {
      ret := between;
    }
  }

  method SubtractBounds(conf: Config, r: seq<Share>, low: int, high: int, rnd: IntervalDraws, t: Triple)
    returns (between: Share)
    requires conf.Valid() && |r| == L && AreBits(conf, r) && AreIntervalDraws(conf, rnd) && IsTriple(conf, t)
    requires 0 <= low < P && 0 <= high < P
    ensures IsShare(conf, between) && Value(between) == Bit(low < Number(r, L) < high)
  {
    var lowBits := PFtoBS(conf, low, rnd.low);
    var highBits := PFtoBS(conf, high, rnd.high);
    var above := SubBitwiseLessThan(conf, lowBits, r, rnd.lowMasks);
    var below := SubBitwiseLessThan(conf, r, highBits, rnd.highMasks);
    between := Multiply(conf, above, below, t);
  }

  method OpenMasked(conf: Config, a: Share, draws: seq<seq<Share>>) returns (rBits: seq<Share>, c: int)
    requires conf.Valid() && IsShare(conf, a) && AreDraws(conf, draws)
    ensures |rBits| == L && AreBits(conf, rBits) && Number(rBits, L) == DrawnNumber(draws, L)
    ensures c == (Value(a) + DrawnNumber(draws, L)) % P
  {
    rBits := SubRBVS(conf, draws);
    var r := BStoSC(conf, rBits);
    var cShare := Add(conf, a, r);
    c := OpenRecons(conf, cShare);
    ModAdd(Number(rBits, L), Value(a), P);
  }

  /** Steps 2 and 3: the public bounds of r. */
  method Bounds(c1: int, c2: int, c: int) returns (low: int, high: int)
    requires 0 <= c1 < P && 0 <= c2 < P && 0 <= c < P
    ensures low == LowBound(c1, c2, c) && high == HighBound(c1, c2, c)
    ensures 0 <= low < P && 0 <= high < P
  {
    low, high := 0, 0;
    if c1 < c && c < c2 {
      low := (c - c1 - 1) % P;
      high := (c + P % P - c2 + 1) % P;
    } else if c2 <= c {
      low := (c - c2) % P;
      high := (c - c1) % P;
    } else if c <= c1 {
      low := (c + P % P - c2) % P;
      high := (c + P % P - c1) % P;
    }
  }

  lemma IntervalAnswerOf(conf: Config, c1: int, c2: int, v: int, rnd: IntervalDraws, c: int)
    requires 0 <= c1 < P && 0 <= c2 < P && 0 <= v < P && AreIntervalDraws(conf, rnd)
    requires c == (v + DrawnNumber(rnd.bits, L)) % P
    ensures c1 < c2 && !Degenerate(c1, c2, c, DrawnNumber(rnd.bits, L)) ==>
              IntervalAnswer(c1, c2, c, DrawnNumber(rnd.bits, L)) == Bit(c1 < v < c2)
    ensures var r := DrawnNumber(rnd.bits, L);
            c2 <= c1 ==> IntervalAnswer(c1, c2, c, r) == Bit(r < P && c2 <= c < c1 && if r <= c then v < c2 else c1 < v)
  {
    DrawnNumberBounds(rnd.bits, L);
    PowerOfSixtyFour();
    if c1 < c2 {
      IntervalAnswerMeans(c1, c2, v, DrawnNumber(rnd.bits, L));
    } else {
      ReversedAnswerMeans(c1, c2, v, DrawnNumber(rnd.bits, L));
    }
  }

  /** intervalTest, for any public c1 and c2. */
  method IntervalTest(conf: Config, c1: int, a: Share, c2: int, rnd: IntervalDraws) returns (ret: Share)
    requires conf.Valid() && IsShare(conf, a) && AreIntervalDraws(conf, rnd)
    requires 0 <= c1 < P && 0 <= c2 < P
    ensures IsShare(conf, ret)
    ensures var r := DrawnNumber(rnd.bits, L);
            var c := (Value(a) + r) % P;
            && Value(ret) == IntervalAnswer(c1, c2, c, r)
            && (c1 < c2 && !Degenerate(c1, c2, c, r) ==> Value(ret) == Bit(c1 < Value(a) < c2))
            && (c2 <= c1 ==> Value(ret) == Bit(r < P && c2 <= c < c1 && if r <= c then Value(a) < c2 else c1 < Value(a)))
  {
    var t := ConstantTriple(conf);
    var rBits, c := OpenMasked(conf, a, rnd.bits);
    var low, high := Bounds(c1, c2, c);
    var between := SubtractBounds(conf, rBits, low, high, rnd, t);
    ret := Complement(conf, c1, c2, c, between);
    IntervalAnswerOf(conf, c1, c2, Value(a), rnd, c);
  }
}
