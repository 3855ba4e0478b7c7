/**
 Share/Compare.cpp, lines 11-50: draws for the sign test.  Up to eight parties the draws do not
 matter; from nine parties on the comparison of one difference is answered either way.  The digits
 cut off in inverting a random number shift the cut, and nine parties can draw a number that shifts
 it past 763 units.
 */
module SignCut {
  import opened NumberTheory
  import opened FixedPoint
  import opened FixedShare
  import opened LowBits
  import opened SignTests

  /** The first eight parties draw one number, the ninth another, and the others 0. */
  function NineShare(n: nat, first: int, ninth: int): Share {
    seq(n, i => if i < 8 then first * S else if i == 8 then ninth * S else 0)
  }

  lemma {:induction false} SumOfNine(n: nat, first: int, ninth: int, k: nat)
    requires k <= n
    ensures SumTo(NineShare(n, first, ninth), k) == if k <= 8 then k * (first * S) else (8 * first + ninth) * S
  {
    if k > 0 { SumOfNine(n, first, ninth, k - 1); }
  }

  /** The first party draws 1, and the others 0. */
  function UnitShare(n: nat): Share {
    seq(n, i => if i == 0 then S else 0)
  }

  lemma {:induction false} SumOfUnit(n: nat, k: nat)
    requires k <= n
    ensures SumTo(UnitShare(n), k) == if k == 0 then 0 else S
  {
    if k > 0 { SumOfUnit(n, k - 1); }
  }

  /** Draws of LTZ whose random bits all come from r, with a mask of 1 at every party. */
  function DrawsWith(n: nat, r: Share): seq<LowDraw> {
    var zeros := NineShare(n, 0, 0);
    seq(K, i => LowDraw([BitDraw(r, Triple(zeros, zeros, zeros))], seq(n, j => S)))
  }

  /** Draws of the scalar getLSBShare, whose first random number is W. */
  predicate AreScalarDraws(conf: Config, draws: seq<LowDraw>, W: int) {
    && AreLowDraws(conf, draws, K) && (forall i :: 0 <= i < K ==> IsScalarDraw(conf, draws[i]))
    && FirstNonZero(draws[0].bit) == W * S
  }

  lemma DrawsWithRest(conf: Config, r: Share, W: int)
    requires conf.Valid() && IsShare(conf, r) && Opened(r) == W * S && W != 0
    requires forall i :: 0 <= i < |r| ==> IsWhole(r[i]) && -1000 * S <= r[i] <= 999 * S
    ensures var draws := DrawsWith(conf.nParties, r);
            AreScalarDraws(conf, draws, W) && DrawRest(draws[0].bit) == Rest(W)
  {
    var draws := DrawsWith(conf.nParties, r);
    SumOfNine(conf.nParties, 0, 0, conf.nParties);
    ModUnique(W * S, W, 0, S);
    assert IsBitDraw(conf, draws[0].bit[0]);
    assert Opened(draws[0].bit[0].r) != 0;
    assert IsScalarDraw(conf, draws[0]);
  }

  // ---------- any number of parties ----------

  /** The random numbers open to 1, whose inverse loses nothing. */
  function AcceptingDraws(n: nat): seq<LowDraw> {
    DrawsWith(n, UnitShare(n))
  }

  /** The operators can be run, whatever the number of parties: there are draws. */
  lemma DrawsExist(conf: Config)
    requires conf.Valid()
    ensures var draws := AcceptingDraws(conf.nParties);
            AreScalarDraws(conf, draws, 1) && DrawRest(draws[0].bit) == 0
  {
    SumOfUnit(conf.nParties, conf.nParties);
    ModUnique(S, 1, 0, S);
    DrawsWithRest(conf, UnitShare(conf.nParties), 1);
  }

  // ---------- nine parties and more ----------

  /** The random numbers open to -8992, whose inverse loses 8960 digits of 10^8. */
  function RefusingDraws(n: nat): seq<LowDraw> {
    DrawsWith(n, NineShare(n, -1000, -992))
  }

  /** Both can be drawn, and each of them decides a difference of 763 units in its own way. */
  lemma DrawsDecide(conf: Config)
    requires IsSetup(conf) && 9 <= conf.nParties
    ensures var no, yes := RefusingDraws(conf.nParties), AcceptingDraws(conf.nParties);
            && AreScalarDraws(conf, no, -8992) && AreScalarDraws(conf, yes, 1)
            && (forall less :: Decided(763, less, DrawRest(no[0].bit), conf.nParties) ==> !less)
            && (forall less :: Decided(763, less, DrawRest(yes[0].bit), conf.nParties) ==> less)
  {
    DrawsExist(conf);
    SumOfNine(conf.nParties, -1000, -992, conf.nParties);
    DrawsWithRest(conf, NineShare(conf.nParties, -1000, -992), -8992);
    ModUnique(S, 11120, 8960, 8992);
    assert Rest(-8992) == 8960;
  }

  /** The operator itself, run on the same two numbers with draws of its own range. */
  method BothAnswers(conf: Config, left: Share, right: Share)
    returns (refusing: seq<LowDraw>, no: Verdict, accepting: seq<LowDraw>, yes: Verdict)
    requires IsSetup(conf) && 9 <= conf.nParties && IsShare(conf, left) && IsShare(conf, right)
    requires Opened(right) - Opened(left) == 763
    ensures AreScalarDraws(conf, refusing, -8992) && AreScalarDraws(conf, accepting, 1)
    ensures no == Answer(false) && yes == Answer(true)
  {
    DrawsDecide(conf);
    refusing, accepting := RefusingDraws(conf.nParties), AcceptingDraws(conf.nParties);
    no := LessThan(conf, left, right, refusing);
    yes := LessThan(conf, left, right, accepting);
  }
}
