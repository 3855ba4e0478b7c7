/**
 Share/Compare.cpp, lines 620-655: the half-range test.  The number r drawn bit by bit may reach P
 or more, because the program leaves out that check; the test is therefore given with its answer
 for every r, and with the exact condition under which that answer is right.
 */
module HalfRange {
  import opened NumberTheory
  import opened PrimeModulus
  import opened FieldShare
  import opened FanIn
  import opened PrefixOr
  import opened RandomBits
  import opened BitwiseLess

  /** Everything one half-range test draws at random. */
  datatype HalfDraws = HalfDraws(bits: seq<seq<Share>>, sharing: seq<SharingDraw>, masks: seq<Masks>)

  predicate AreHalfDraws(conf: Config, rnd: HalfDraws) {
    && AreDraws(conf, rnd.bits)
    && AreSharingDraws(conf, rnd.sharing)
    && |rnd.masks| == 3 * LAMBDA && AllUsable(conf, rnd.masks)
  }

  /** The answer computed from the opened number c and the drawn number r. */
  function HalfAnswer(c: int, r: int): int {
    1 - (c + r + Bit(c < r)) % 2
  }

  /** r reaches P, and r - P is above the opened number c. */
  predicate HalfFails(c: int, r: int) {
    r >= P && r - P > c
  }

  /** The half-range test is right except when the draws fail it. */
  lemma HalfAnswerIsRight(v: int, r: int)
    requires 0 <= v < P && 0 <= r < 0x1_0000_0000_0000_0000
    ensures HalfAnswer((2 * v + r) % P, r) == Bit(v <= (P - 1) / 2) <==> !HalfFails((2 * v + r) % P, r)
  {
    var c := (2 * v + r) % P;
    var k := (2 * v + r) / P;
    assert 2 * v + r == k * P + c && 0 <= k <= 3;
  }

  /** [x = 1 and not y] + [y = 1 and not x] */
  method ExclusiveOr(conf: Config, x: Share, y: Share, notX: Share, notY: Share, t: Triple) returns (ret: Share)
    requires conf.Valid() && IsShare(conf, x) && IsShare(conf, y) && IsTriple(conf, t)
    requires IsShare(conf, notX) && IsShare(conf, notY) && IsBit(Value(x)) && IsBit(Value(y))
    requires Value(notX) == 1 - Value(x) && Value(notY) == 1 - Value(y)
    ensures IsShare(conf, ret) && Value(ret) == Bit(Value(x) != Value(y))
  {
    var first := Multiply(conf, x, notY, t);
    var second := Multiply(conf, notX, y, t);
    ret := Add(conf, first, second);
  }

  /** Step 3: the exclusive or, selected by the public parity of c. */
  method Parity(conf: Config, c: int, cr: Share, r0: Share, t: Triple) returns (ret: Share)
    requires conf.Valid() && IsShare(conf, cr) && IsShare(conf, r0) && IsTriple(conf, t)
    requires IsBit(Value(cr)) && IsBit(Value(r0))
    ensures IsShare(conf, ret) && Value(ret) == (c + Value(r0) + Value(cr)) % 2
  {
    var notR := PublicMinus(conf, 1, r0);
    var notCr := PublicMinus(conf, 1, cr);
    if c % 2 == 0 {
      ret := ExclusiveOr(conf, cr, r0, notCr, notR, t);
    } else {
      ret := ExclusiveOr(conf, cr, notR, notCr, r0, t);
    }
  }

  lemma LowestBit(conf: Config, bits: seq<Share>)
    requires |bits| == L && AreBits(conf, bits)
    ensures Value(bits[L - 1]) == Number(bits, L) % 2
  {
    assert Number(bits, L) == 2 * Number(bits, L - 1) + Value(bits[L - 1]);
    assert IsBit(Value(bits[L - 1]));
  }

  lemma ParityOfSum(c: int, r: int, b: int)
    ensures (c + r % 2 + b) % 2 == (c + r + b) % 2
  {
  }

  lemma HalfAnswerBy(v: int, r: int, c: int, parity: int)
    requires 0 <= v < P && 0 <= r < 0x1_0000_0000_0000_0000 && c == (2 * v + r) % P
    requires parity == (c + r % 2 + Bit(c < r)) % 2
    ensures IsBit(parity) && 1 - parity == HalfAnswer(c, r)
    ensures r < P ==> 1 - parity == Bit(v <= (P - 1) / 2)
  {
    HalfAnswerIsRight(v, r);
    ParityOfSum(c, r, Bit(c < r));
  }

  /** Steps 1 and 2: the drawn bits, and the opening of 2a + r. */
  method OpenDoubled(conf: Config, a: Share, draws: seq<seq<Share>>) returns (rBits: seq<Share>, c: int)
    requires conf.Valid() && IsShare(conf, a) && AreDraws(conf, draws)
    ensures |rBits| == L && AreBits(conf, rBits) && Number(rBits, L) == DrawnNumber(draws, L)
    ensures c == (2 * Value(a) + DrawnNumber(draws, L)) % P
  {
    rBits := SubRBVS(conf, draws);
    var r := BStoSC(conf, rBits);
    var twice := Scale(conf, 2, a);
    var cShare := Add(conf, twice, r);
    c := OpenRecons(conf, cShare);
    ReduceSum(2 * Value(a), Number(rBits, L), P);
  }

  /** Step 3: the parity of 2a from the opened number, the lowest bit of r and [c < r]. */
  method DoubledParity(conf: Config, c: int, rBits: seq<Share>, rnd: HalfDraws) returns (parity: Share)
    requires conf.Valid() && 0 <= c < P && |rBits| == L && AreBits(conf, rBits) && AreHalfDraws(conf, rnd)
    ensures IsShare(conf, parity)
    ensures Value(parity) == (c + Number(rBits, L) % 2 + Bit(c < Number(rBits, L))) % 2
  {
    var t := ConstantTriple(conf);
    var cBits := PFtoBS(conf, c, rnd.sharing);
    var cr := SubBitwiseLessThan(conf, cBits, rBits, rnd.masks);
    LowestBit(conf, rBits);
    parity := Parity(conf, c, cr, rBits[L - 1], t);
  }

  /** subHalfLessThan: a share of [a <= (P - 1) / 2], for r below P. */
  method SubHalfLessThan(conf: Config, a: Share, rnd: HalfDraws) returns (ans: Share)
    requires conf.Valid() && IsShare(conf, a) && AreHalfDraws(conf, rnd)
    ensures IsShare(conf, ans)
    ensures var r := DrawnNumber(rnd.bits, L);
            && Value(ans) == HalfAnswer((2 * Value(a) + r) % P, r)
            && (r < P ==> Value(ans) == Bit(Value(a) <= (P - 1) / 2))
  {
    var rBits, c := OpenDoubled(conf, a, rnd.bits);
    var parity := DoubledParity(conf, c, rBits, rnd);
    DrawnNumberBounds(rnd.bits, L);
    PowerOfSixtyFour();
    HalfAnswerBy(Value(a), DrawnNumber(rnd.bits, L), c, Value(parity));
    ans := PublicMinus(conf, 1, parity);
    ModSmall(1 - Value(parity), P);
  }
}
