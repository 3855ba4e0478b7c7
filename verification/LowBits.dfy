/**
 Share/Share.hpp, lines 434-512: random shared bits and the lowest bit of a shared number, over
 truncating fixed-point numbers.  The random bit is inexact because the inverse of the root is
 cut off; its error becomes the error of the extracted bit.
 */
module LowBits {
  import opened NumberTheory
  import opened FixedPoint
  import opened FixedShare

  /** Bounds the error of a random bit of n parties. */
  function Eps(n: nat): int {
    1001 * n / 2
  }

  // ---------- getRandBitShare ----------

  /**
   One attempt: every party's whole number from -1000 up to 999, and the triple for its square.  The
   triple service sends 64-bit integers, so triples are whole.
   */
  datatype BitDraw = BitDraw(r: Share, t: Triple)

  predicate IsBitDraw(conf: Config, d: BitDraw) {
    && IsShare(conf, d.r) && AllWhole(d.r)
    && (forall i :: 0 <= i < |d.r| ==> -1000 * S <= d.r[i] <= 999 * S)
    && IsTriple(conf, d.t) && IsWholeTriple(d.t)
  }

  predicate AreBitDraws(conf: Config, draws: seq<BitDraw>) {
    (forall i :: 0 <= i < |draws| ==> IsBitDraw(conf, draws[i]))
    && exists i :: 0 <= i < |draws| && Opened(draws[i].r) != 0
  }

  /** The number shared by the first draw that is not zero. */
  function FirstNonZero(draws: seq<BitDraw>): (v: int)
    requires exists i :: 0 <= i < |draws| && Opened(draws[i].r) != 0
    ensures v != 0
  {
    if Opened(draws[0].r) != 0 then Opened(draws[0].r) else FirstNonZero(draws[1..])
  }

  /** Twice what the bit from a draw of w is too large: the digits cut off in inverting |w|. */
  function Rest(w: int): int {
    if w > 0 then -(S % w) else if w < 0 then S % (-w) else 0
  }

  function DrawRest(draws: seq<BitDraw>): int
    requires exists i :: 0 <= i < |draws| && Opened(draws[i].r) != 0
  {
    Rest(FirstNonZero(draws) / S)
  }

  lemma {:induction false} SumInRange(r: Share, k: nat)
    requires k <= |r| && forall i :: 0 <= i < |r| ==> -1000 * S <= r[i] <= 999 * S
    ensures Within(SumTo(r, k), 0, 1000 * S * k)
  {
    if k > 0 { SumInRange(r, k - 1); }
  }

  /** The first draw that is not zero is the whole number W of at most 1000 a party. */
  lemma {:induction false} FirstInRange(conf: Config, draws: seq<BitDraw>) returns (W: int)
    requires AreBitDraws(conf, draws)
    ensures FirstNonZero(draws) == W * S && W != 0 && Within(W, 0, 1000 * conf.nParties)
    ensures DrawRest(draws) == Rest(W)
  {
    var r := draws[0].r;
    assert IsBitDraw(conf, draws[0]);
    if Opened(r) != 0 {
      SumWhole(r, |r|);
      SumInRange(r, |r|);
      WholeOf(Opened(r));
      W := Opened(r) / S;
      ScaleBound(W, conf.nParties);
    } else {
      SkipZeroDraw(conf, draws);
      W := FirstInRange(conf, draws[1..]);
    }
    WholeOf(W * S);
  }

  lemma ScaleBound(W: int, n: nat)
    requires Within(W * S, 0, 1000 * S * n)
    ensures Within(W, 0, 1000 * n)
  {
  }

  lemma DrawRestBound(conf: Config, draws: seq<BitDraw>)
    requires AreBitDraws(conf, draws)
    ensures Within(DrawRest(draws), 0, 2 * Eps(conf.nParties) - conf.nParties)
    ensures conf.nParties <= 8 ==> Within(DrawRest(draws), 0, 7926)
  {
    var W := FirstInRange(conf, draws);
    if conf.nParties <= 8 { RestOfEight(if W > 0 then W else -W); }
  }

  /** Whether no number from m up to m + k leaves more than 7926 of S. */
  predicate RestsBelow(m: nat, k: nat)
    requires 0 < m
    decreases k
  {
    k == 0 || (S % m <= 7926 && RestsBelow(m + 1, k - 1))
  }

  lemma {:induction false} RestsBelowAt(m: nat, k: nat, w: int)
    requires 0 < m <= w < m + k && RestsBelow(m, k)
    ensures S % w <= 7926
    decreases k
  {
    if m < w { RestsBelowAt(m + 1, k - 1, w); }
  }

  lemma RestOfEight(w: int)
    requires 0 < w <= 8000
    ensures 0 <= S % w <= 7926
  {
    if w >= 7928 {
      assert RestsBelow(7928, 12) && RestsBelow(7940, 12) && RestsBelow(7952, 12);
      assert RestsBelow(7964, 12) && RestsBelow(7976, 12) && RestsBelow(7988, 13);
      if w < 7940 { RestsBelowAt(7928, 12, w); }
      else if w < 7952 { RestsBelowAt(7940, 12, w); }
      else if w < 7964 { RestsBelowAt(7952, 12, w); }
      else if w < 7976 { RestsBelowAt(7964, 12, w); }
      else if w < 7988 { RestsBelowAt(7976, 12, w); }
      else { RestsBelowAt(7988, 13, w); }
    }
  }

  /** The square root of the square of a whole number. */
  function RootOfSquare(square: int): (root: int)
    requires exists w: int :: square == w * w
    ensures 0 <= root && root * root == square
  {
    var w: int :| square == w * w;
    if w >= 0 then w else -w
  }

  lemma RootIsMagnitude(w: int, root: int)
    requires 0 <= root && root * root == w * w
    ensures root == if w >= 0 then w else -w
  {
    var m := if w >= 0 then w else -w;
    assert m * m == w * w;
    if root < m { SquaresIncrease(root, m); } else if root > m { SquaresIncrease(m, root); }
  }

  lemma SquaresIncrease(a: int, b: int)
    requires 0 <= a < b
    ensures a * a < b * b
  {
    assert b * b == a * a + (b - a) * (a + b);
    assert (b - a) * (a + b) > 0;
  }

  /** The inverse of the whole number m keeps the whole part of S / m. */
  lemma InverseOfWhole(m: int)
    requires 0 < m
    ensures Ratio(S, m * S) == S / m
  {
    SquareSplit(m, S / m, S % m);
    ModUnique(S * S, S / m, (S % m) * S, m * S);
  }

  lemma SquareSplit(m: int, q: int, r: int)
    requires 0 < m && S == q * m + r && 0 <= r < m
    ensures S * S == q * (m * S) + r * S && 0 <= r * S < m * S
  {
    assert (q * m) * S == q * (m * S);
  }

  lemma WholeOf(v: int)
    requires IsWhole(v)
    ensures v == (v / S) * S
  {
  }

  /** A product with the inverse of |w| is S off by the digits cut off, with the sign of w. */
  lemma SignedUnit(w: int)
    requires w != 0
    ensures w * (S / (if w >= 0 then w else -w)) == (if w > 0 then S else -S) + Rest(w)
  {
    if w < 0 { assert w * (S / (-w)) == -((-w) * (S / (-w))); }
  }

  /** T(0.5) * (inv_r_dash * r + T(1.0)): the bit [r > 0], off by half the rest and the cuts in halving. */
  method BitFromDraw(conf: Config, r: Share, square: int) returns (r0: Share)
    requires conf.Valid() && IsShare(conf, r) && AllWhole(r) && Opened(r) != 0
    requires S * square == Opened(r) * Opened(r)
    ensures IsShare(conf, r0)
    ensures Within(2 * Opened(r0), 2 * S * Bit(Opened(r) > 0) + Rest(Opened(r) / S), conf.nParties)
  {
    SumWhole(r, |r|);
    WholeOf(Opened(r));
    ghost var w := Opened(r) / S;
    WholeSquare(square, w);
    // square is the whole number w * w, and so is its value as a double
    var root := RootOfSquare(square / S);
    RootIsMagnitude(w, root);
    var inverse := Ratio(S, root * S);
    InverseOfWhole(root);
    SignedUnit(w);
    var unit := TimesPublic(conf, r, inverse);
    ProductExact(unit, r, inverse);
    UnscaledProduct(Opened(unit), inverse, w);
    unit := AddPublic(conf, unit, S);
    r0 := TimesPublic(conf, unit, HALF);
    HalvedSum(r0, unit);
  }

  lemma WholeSquare(square: int, w: int)
    requires S * square == (w * S) * (w * S)
    ensures square == (w * w) * S && square / S == w * w
  {
    assert (w * S) * (w * S) == S * ((w * w) * S);
    ModUnique(square, w * w, 0, S);
  }

  lemma UnscaledProduct(u: int, k: int, w: int)
    requires S * u == k * (w * S)
    ensures u == w * k
  {
    assert k * (w * S) == S * (w * k);
  }

  /** r0 is the bit of the first non-zero draw, off by half its rest and half a unit a party. */
  predicate IsRandBit(conf: Config, r0: Share, draws: seq<BitDraw>)
    requires AreBitDraws(conf, draws)
  {
    IsShare(conf, r0)
    && Within(2 * Opened(r0), 2 * S * Bit(FirstNonZero(draws) > 0) + DrawRest(draws), conf.nParties)
  }

  /** getRandBitShare: retries while the opened square is zero. */
  method RandBit(conf: Config, draws: seq<BitDraw>) returns (r0: Share)
    requires conf.Valid() && AreBitDraws(conf, draws)
    ensures IsRandBit(conf, r0, draws)
  {
    var left := draws;
    while true
      invariant AreBitDraws(conf, left) && FirstNonZero(left) == FirstNonZero(draws)
      decreases |left|
    {
      assert IsBitDraw(conf, left[0]);
      var r := left[0].r;
      var squareShare := Multiply(conf, r, r, left[0].t);
      SumWhole(r, |r|);
      var square := OpenRecons(conf, squareShare);
      SquareIsZero(square, Opened(r));
      if square != 0 {
        r0 := BitFromDraw(conf, r, square);
        return;
      }
      SkipZeroDraw(conf, left);
      left := left[1..];
    }
  }

  lemma SquareIsZero(square: int, v: int)
    requires S * square == v * v
    ensures square == 0 <==> v == 0
  {
  }

  lemma SkipZeroDraw(conf: Config, draws: seq<BitDraw>)
    requires AreBitDraws(conf, draws) && Opened(draws[0].r) == 0
    ensures AreBitDraws(conf, draws[1..]) && FirstNonZero(draws[1..]) == FirstNonZero(draws)
  {
    var i :| 0 <= i < |draws| && Opened(draws[i].r) != 0;
    assert draws[1..][i - 1] == draws[i];
  }

  // ---------- getLSBShare ----------

  /**
   The draws of one call: those of the random bit, and every party's whole number below 1000.  The
   vector form of getLSBShare draws masks from 0 on, the scalar form from 1 on.
   */
  datatype LowDraw = LowDraw(bit: seq<BitDraw>, mask: Share)

  predicate IsLowDraw(conf: Config, d: LowDraw) {
    && AreBitDraws(conf, d.bit)
    && IsShare(conf, d.mask) && AllWhole(d.mask)
    && forall i :: 0 <= i < |d.mask| ==> 0 <= d.mask[i] <= 999 * S
  }

  /** Draws that the scalar form can make too. */
  predicate IsScalarDraw(conf: Config, d: LowDraw) {
    IsLowDraw(conf, d) && forall i :: 0 <= i < |d.mask| ==> S <= d.mask[i]
  }

  /** N is a whole number nearest to y, up to the rest of the random bit and the cuts of n parties. */
  predicate Nearest(y: int, N: int, rest: int, n: nat) {
    Within(2 * y + rest, 2 * S * N, S + n)
  }

  /** The lowest bit of N; for a negative N the signed remainder may leave -1 or 2 instead. */
  predicate IsDigit(N: int, d: int) {
    (N - d) % 2 == 0 && -1 <= d <= 2 && (N >= 0 ==> d == N % 2)
  }

  /** The error of a digit of N: a flip by -1 counts the random bit three times. */
  function DigitError(N: int, n: nat): int {
    if N >= 0 then Eps(n) else 3 * Eps(n)
  }

  /** b is close to the digit d of N. */
  predicate IsLowBit(b: int, N: int, d: int, n: nat) {
    IsDigit(N, d) && Within(b, S * d, DigitError(N, n))
  }

  lemma {:induction false} SumOfMasks(mask: Share, k: nat)
    requires k <= |mask| && forall i :: 0 <= i < |mask| ==> 0 <= mask[i]
    ensures 0 <= SumTo(mask, k)
  {
    if k > 0 { SumOfMasks(mask, k - 1); }
  }

  /** What the flip by c makes of a number near a bit. */
  function Flipped(c: int, r0: int): int {
    if c == 0 then r0 else if c == 1 then S - r0 else 3 * r0 - S
  }

  /** c + r0 - 2 c r0, for the public c of 0, 1 or -1. */
  method FlipBy(conf: Config, c: int, r0: Share) returns (b: Share)
    requires conf.Valid() && IsShare(conf, r0) && (c == 0 || c == S || c == -S)
    ensures IsShare(conf, b) && Opened(b) == Flipped(c / S, Opened(r0))
  {
    var sum := AddPublic(conf, r0, c);
    var twice := Product(2 * S, c);
    TruncExact(2 * S * c, S, 2 * c);
    var cross := TimesPublic(conf, r0, twice);
    ProductExact(cross, r0, twice);
    b := Subtract(conf, sum, cross);
  }

  /** The remainder by two, with the sign of m. */
  function SignedParity(m: int): int {
    if m >= 0 then m % 2 else -(m % 2)
  }

  /** Rounding the opened mask and taking its parity. */
  method RoundedParity(t: int) returns (c: int)
    ensures c == S * SignedParity(Round(t))
  {
    c := TruncMod(Round(t) * S, 2 * S);
    ParityOfWhole(Round(t));
  }

  lemma ParityOfWhole(m: int)
    ensures TruncMod(m * S, 2 * S) == S * SignedParity(m)
  {
    var k := if m >= 0 then m else -m;
    ModUnique(k * S, k / 2, S * (k % 2), 2 * S);
  }

  /** Undoing the mask: B is the random bit, W the sum of the masks, total the nearest whole number. */
  lemma Unmask(y: int, r0: int, B: int, rest: int, W: int, total: int, n: nat) returns (N: int, d: int)
    requires (B == 0 || B == 1) && 0 <= W && Within(2 * r0, 2 * S * B + rest, n) && Within(rest, 0, 2 * Eps(n) - n)
    requires Within(2 * (y + r0 + 2 * (S * W)), 2 * S * total, S)
    ensures Nearest(y, N, rest, n) && IsLowBit(Flipped(SignedParity(total), r0), N, d, n)
  {
    N := total - B - 2 * W;
    d := Digit(B, SignedParity(total));
    DigitOfTotal(N, total, B, W);
    assert Within(r0, S * B, Eps(n));
  }

  function Digit(B: int, c: int): int {
    if c == 0 then B else if c == 1 then 1 - B else 3 * B - 1
  }

  lemma DigitOfTotal(N: int, total: int, B: int, W: int)
    requires (B == 0 || B == 1) && 0 <= W && N == total - B - 2 * W
    ensures IsDigit(N, Digit(B, SignedParity(total)))
    ensures N >= 0 ==> 0 <= total
  {
  }

  /** A number well inside its rounding interval is taken for nothing else. */
  lemma NearestUnique(y: int, N: int, M: int, rest: int, n: nat)
    requires Nearest(y, N, rest, n) && Within(2 * y + rest, 2 * S * M, S - n - 1)
    ensures M == N
  {
  }

  /** getLSBShare, scalar form. */
  method LowBit(conf: Config, y: Share, draw: LowDraw) returns (b: Share, ghost N: int, ghost d: int)
    requires conf.Valid() && IsShare(conf, y) && IsLowDraw(conf, draw)
    ensures IsShare(conf, b) && Nearest(Opened(y), N, DrawRest(draw.bit), conf.nParties)
    ensures IsLowBit(Opened(b), N, d, conf.nParties)
  {
    var r0 := RandBit(conf, draw.bit);
    b, N, d := LowBitBy(conf, y, r0, draw);
  }

  /** The rest of getLSBShare, from the random bit r0. */
  method LowBitBy(conf: Config, y: Share, r0: Share, draw: LowDraw) returns (b: Share, ghost N: int, ghost d: int)
    requires conf.Valid() && IsShare(conf, y) && IsLowDraw(conf, draw) && IsRandBit(conf, r0, draw.bit)
    ensures IsShare(conf, b) && Nearest(Opened(y), N, DrawRest(draw.bit), conf.nParties)
    ensures IsLowBit(Opened(b), N, d, conf.nParties)
  {
    var mask := draw.mask;
    SumWhole(mask, |mask|);
    SumOfMasks(mask, |mask|);
    var t := Add(conf, y, r0);
    var twice := TimesPublic(conf, mask, 2 * S);
    ProductExact(twice, mask, 2 * S);
    t := Add(conf, t, twice);
    var total := OpenRecons(conf, t);
    ghost var W := Opened(mask) / S;
    WholeOf(Opened(mask));
    RoundIsNearest(total);
    DrawRestBound(conf, draw.bit);
    N, d := Unmask(Opened(y), Opened(r0), Bit(FirstNonZero(draw.bit) > 0), DrawRest(draw.bit), W, Round(total),
                   conf.nParties);
    var c := RoundedParity(total);
    b := FlipBy(conf, c, r0);
  }
}
