/**
 Share/Compare.cpp, lines 139-182: operator== between a share and a public number.  The reversed
 comparison is found through the operators that boost::less_than_comparable adds to Share: it
 becomes left > right, for which the public number is turned into a share by every party, so that
 n times the public number is compared.
 */
module PublicEquality {
  import opened FixedPoint
  import opened FixedShare
  import opened LowBits
  import opened SignTests
  import FieldShare

  /** The share that every party constructs from the same number. */
  method Everywhere(conf: Config, k: int) returns (z: Share)
    ensures IsShare(conf, z) && Opened(z) == conf.nParties * k
  {
    z := seq(conf.nParties, i => k);
    FieldShare.SumConstant(conf.nParties, k, conf.nParties);
  }

  /** operator==(Share, FixedPoint): left is not below right, and n * right is not below left. */
  method EqualToPublic(conf: Config, left: Share, right: int, first: seq<LowDraw>, second: seq<LowDraw>)
    returns (out: Verdict)
    requires IsSetup(conf) && IsShare(conf, left)
    requires AreLowDraws(conf, first, K) && AreLowDraws(conf, second, K)
    ensures out.Answer?
    ensures right - Opened(left) <= 755 && Opened(left) - conf.nParties * right <= 755 ==> out.holds
    ensures right - Opened(left) >= 771 || Opened(left) - conf.nParties * right >= 771 ==> !out.holds
    ensures conf.nParties <= 8 ==> (out.holds <==> AnsweredEqual(Opened(left), right, conf.nParties))
  {
    var x := LessThanPublic(conf, left, right, first);
    var temporary := Everywhere(conf, right);
    var y := LessThan(conf, temporary, left, second);
    out := NeitherLess(x, y);
  }

  /** The answer for up to eight parties. */
  predicate AnsweredEqual(left: int, right: int, n: nat) {
    right - left <= 762 && left - n * right <= 762
  }

  /**
   It is the answer of == between two shares, a distance of at most 762 units, exactly when left is
   further than that below right, or further than that above both right and n * right, or above neither.
   */
  lemma PublicEqualityIsRight(left: int, right: int, n: nat)
    ensures (AnsweredEqual(left, right, n) <==> Within(left, right, 762))
       <==> (right - left > 762 || (left - right > 762 <==> left - n * right > 762))
  {
  }

  /** With more than one party 2 == 1 is answered true, whatever is drawn. */
  method TwoEqualsOne(conf: Config, two: Share, first: seq<LowDraw>, second: seq<LowDraw>) returns (out: Verdict)
    requires IsSetup(conf) && conf.nParties >= 2 && IsShare(conf, two) && Opened(two) == 2 * S
    requires AreLowDraws(conf, first, K) && AreLowDraws(conf, second, K)
    ensures out == Answer(true)
  {
    ScaledUp(conf.nParties);
    out := EqualToPublic(conf, two, S, first, second);
  }

  /** With more than one party -1 == -1 is answered false, whatever is drawn. */
  method MinusOneDiffers(conf: Config, minusOne: Share, first: seq<LowDraw>, second: seq<LowDraw>) returns (out: Verdict)
    requires IsSetup(conf) && conf.nParties >= 2 && IsShare(conf, minusOne) && Opened(minusOne) == -S
    requires AreLowDraws(conf, first, K) && AreLowDraws(conf, second, K)
    ensures out == Answer(false)
  {
    ScaledUp(conf.nParties);
    out := EqualToPublic(conf, minusOne, -S, first, second);
  }

  lemma ScaledUp(n: nat)
    requires n >= 2
    ensures n * S >= 2 * S && n * (-S) <= -2 * S
  {
  }
}
