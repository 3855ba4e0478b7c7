/**
 Share/Compare.cpp, lines 9-200: the sign test LTZ and the comparison operators built on it.  A
 number is shifted up by 16 bits and halved bit by bit; the error of each round is damped by the
 next halving.
 */
module SignTests {
  import opened NumberTheory
  import opened FixedPoint
  import opened FixedShare
  import opened LowBits

  const M: nat := 16
  const K: nat := 32

  /** Up to this many parties the thresholds of the operators are met. */
  const MAX_PARTIES: nat := 1000

  predicate IsSetup(conf: Config) {
    conf.Valid() && conf.nParties <= MAX_PARTIES
  }

  lemma PowersOfTwo()
    ensures Pow(2, M) == 65536 && Pow(2, K) == 65536 * 65536
  {
    assert Pow(2, 8) == 256;
    PowAdd(2, 8, 8);
    PowAdd(2, 16, 16);
  }

  /** How far the running number may be from a whole number before round i, for digits with error e. */
  function Drift(e: int, n: nat, i: nat): int {
    if i == 0 then S / 2 + Eps(n) else (Drift(e, n, i - 1) + e + n) / 2
  }

  lemma {:induction false} DriftInRange(e: int, n: nat, i: nat)
    requires n <= MAX_PARTIES && Eps(n) <= e <= 3 * Eps(n)
    ensures i > 0 ==> Drift(e, n, i) <= S / 4 + 2 * Eps(n) + n && 2 * Drift(e, n, i) + 2 * Eps(n) < S
  {
    if i > 1 { DriftInRange(e, n, i - 1); }
  }

  /** The initial half is halved in every round, so only the error of one round remains. */
  lemma {:induction false} DriftDamped(e: int, n: nat, i: nat)
    requires Eps(n) <= e
    ensures (Drift(e, n, i) - e - n) * Pow(2, i) <= S / 2
  {
    if i > 0 {
      DriftDamped(e, n, i - 1);
      PowPositive(i - 1);
      DampedStep(Drift(e, n, i - 1) - e - n, Drift(e, n, i) - e - n, Pow(2, i - 1));
    }
  }

  lemma DampedStep(before: int, after: int, p: int)
    requires 2 * after <= before && before * p <= S / 2 && 0 <= p
    ensures after * (2 * p) <= S / 2
  {
    assert after * (2 * p) == (2 * after) * p;
    assert (before - 2 * after) * p >= 0;
  }

  /** s * 2^16 + 2^32 */
  method ShiftUp(conf: Config, s: Share) returns (x: Share, y: Share)
    requires conf.Valid() && IsShare(conf, s)
    ensures IsShare(conf, x) && Opened(x) == 65536 * Opened(s)
    ensures IsShare(conf, y) && Opened(y) == Opened(x) + S * (65536 * 65536)
  {
    x := TimesPublic(conf, s, S * 65536);
    ProductExact(x, s, S * 65536);
    y := AddPublic(conf, x, S * (65536 * 65536));
  }

  // ---------- one round ----------

  /** The number the rounds start on, the rest of the first random bit, and the number of parties. */
  datatype Origin = Origin(start: int, rest: int, n: nat)

  /** Q is what i rounds leave of N: N without its i lowest bits, or close to that if N is negative. */
  predicate Left(N: int, Q: int, i: nat) {
    (if N >= 0 then Q == Shifted(N, i) else Q <= 0) && Within(Pow(2, i) * Q, N, 2 * (Pow(2, i) - 1))
  }

  /** After i rounds: y is close to what they leave of N, where the start is taken for N. */
  predicate RoundState(o: Origin, y: int, N: int, Q: int, i: nat) {
    if i == 0 then y == o.start
    else Nearest(o.start, N, o.rest, o.n) && Left(N, Q, i) && Within(y, S * Q, Drift(DigitError(N, o.n), o.n, i))
  }

  /** The first round takes the number for N, and later rounds find the Q that is left. */
  lemma SameNumber(o: Origin, y: int, N: int, Q: int, i: nat, found: int, rest: int)
    requires o.n <= MAX_PARTIES && RoundState(o, y, N, Q, i) && Nearest(y, found, rest, o.n)
    requires Within(rest, 0, 2 * Eps(o.n) - o.n)
    ensures i > 0 ==> found == Q
    ensures i == 0 ==> Within(y, S * found, Drift(DigitError(found, o.n), o.n, 0))
  {
    if i > 0 {
      DriftInRange(DigitError(N, o.n), o.n, i);
      NearestUnique(y, found, Q, rest, o.n);
    }
  }

  lemma LeftAtFirst(N: int)
    ensures Left(N, N, 0)
  {
    assert Pow(2, 0) == 1;
  }

  lemma LeftNext(N: int, Q: int, d: int, i: nat)
    requires Left(N, Q, i) && IsDigit(Q, d)
    ensures Left(N, (Q - d) / 2, i + 1)
  {
    PowPositive(i);
    if N >= 0 { ShiftedAgain(N, i); }
    var p, Q' := Pow(2, i), (Q - d) / 2;
    assert Q == 2 * Q' + d;
    DigitWeight(p, Q', d);
  }

  lemma DigitWeight(p: int, Q: int, d: int)
    requires 0 < p && -1 <= d <= 2
    ensures p * (2 * Q + d) == (2 * p) * Q + p * d && -p <= p * d <= 2 * p
  {
  }

  /** A digit of what is left is no worse than a digit of N. */
  lemma ErrorOfLeft(N: int, Q: int, i: nat, n: nat)
    requires Left(N, Q, i)
    ensures DigitError(Q, n) <= DigitError(N, n)
  {
    PowPositive(i);
  }

  /** (y - b) * 0.5 */
  method Halve(conf: Config, y: Share, b: Share) returns (half: Share)
    requires conf.Valid() && IsShare(conf, y) && IsShare(conf, b)
    ensures IsShare(conf, half) && Within(2 * Opened(half), Opened(y) - Opened(b), conf.nParties)
  {
    var rest := Subtract(conf, y, b);
    half := TimesPublic(conf, rest, HALF);
    HalvedSum(half, rest);
  }

  /** Subtracting the lowest bit and halving keeps the number close to a whole number. */
  lemma HalvedDrift(y: int, b: int, half: int, Q: int, d: int, e: int, n: nat, i: nat)
    requires (Q - d) % 2 == 0 && Within(b, S * d, e) && Within(2 * half, y - b, n) && Within(y, S * Q, Drift(e, n, i))
    ensures Within(half, S * ((Q - d) / 2), Drift(e, n, i + 1))
  {
    assert 2 * (S * ((Q - d) / 2)) == S * Q - S * d;
  }

  /** What a round on (N, Q) works on: the number found in the first round, then what is left. */
  function Current(i: nat, N: int, Q: int): int {
    if i == 0 then N else Q
  }

  /** A round keeps the state, for the N found in the first round. */
  lemma NextState(o: Origin, y: int, N: int, Q: int, i: nat, b: int, half: int, found: int, d: int, rest: int)
    requires o.n <= MAX_PARTIES && RoundState(o, y, N, Q, i) && Nearest(y, found, rest, o.n)
    requires Within(rest, 0, 2 * Eps(o.n) - o.n) && (i == 0 ==> rest == o.rest)
    requires IsLowBit(b, found, d, o.n) && Within(2 * half, y - b, o.n)
    ensures var N' := if i == 0 then found else N;
            && found == Current(i, N', Q) && Within(b, S * d, DigitError(N', o.n))
            && RoundState(o, half, N', (found - d) / 2, i + 1)
  {
    SameNumber(o, y, N, Q, i, found, rest);
    if i == 0 { LeftAtFirst(found); } else { ErrorOfLeft(N, Q, i, o.n); }
    var N' := if i == 0 then found else N;
    LeftNext(N', found, d, i);
    HalvedDrift(y, b, half, found, d, DigitError(N', o.n), o.n, i);
  }

  /** One round of LTZ and getFloor. */
  method HalvingRound(conf: Config, y: Share, draw: LowDraw, ghost o: Origin, ghost i: nat, ghost N: int, ghost Q: int)
    returns (b: Share, half: Share, ghost N': int, ghost Q': int, ghost d: int)
    requires IsSetup(conf) && IsShare(conf, y) && IsLowDraw(conf, draw) && o.n == conf.nParties
    requires RoundState(o, Opened(y), N, Q, i) && (i == 0 ==> o.rest == DrawRest(draw.bit))
    ensures IsShare(conf, b) && IsShare(conf, half) && (i > 0 ==> N' == N)
    ensures Current(i, N', Q) == 2 * Q' + d && Within(Opened(b), S * d, DigitError(N', o.n))
    ensures RoundState(o, Opened(half), N', Q', i + 1)
  {
    ghost var found;
    b, found, d := LowBit(conf, y, draw);
    half := Halve(conf, y, b);
    DrawRestBound(conf, draw.bit);
    NextState(o, Opened(y), N, Q, i, Opened(b), Opened(half), found, d, DrawRest(draw.bit));
    N', Q' := if i == 0 then found else N, (found - d) / 2;
  }

  // ---------- LTZ ----------

  predicate AreLowDraws(conf: Config, draws: seq<LowDraw>, rounds: nat) {
    |draws| == rounds && forall i :: 0 <= i < rounds ==> IsLowDraw(conf, draws[i])
  }

  /** z is close to the digits already taken off N, when Q is left. */
  predicate SumState(z: int, N: int, Q: int, i: nat, n: nat) {
    Within(z, S * (N - Pow(2, i) * Q), DigitError(N, n) * (Pow(2, i) - 1))
  }

  /** b times 2^i, added to z. */
  method AddWeighted(conf: Config, z: Share, b: Share, i: nat, ghost N: int, ghost Q: int, ghost Q': int, ghost d: int)
    returns (sum: Share)
    requires conf.Valid() && IsShare(conf, z) && IsShare(conf, b) && Q == 2 * Q' + d
    requires SumState(Opened(z), N, Q, i, conf.nParties) && Within(Opened(b), S * d, DigitError(N, conf.nParties))
    ensures IsShare(conf, sum) && SumState(Opened(sum), N, Q', i + 1, conf.nParties)
  {
    var term := TimesPublic(conf, b, S * Pow(2, i));
    ModUnique(S * Pow(2, i), Pow(2, i), 0, S);
    ProductExact(term, b, S * Pow(2, i));
    CancelScale(Opened(term), Pow(2, i), Opened(b));
    sum := Add(conf, z, term);
    PowPositive(i);
    WeightedError(Opened(z), N, Q', Opened(b), d, Pow(2, i), DigitError(N, conf.nParties));
  }

  lemma CancelScale(term: int, p: int, b: int)
    requires S * term == (S * p) * b
    ensures term == p * b
  {
    assert (S * p) * b == S * (p * b);
  }

  lemma ScaledError(p: int, d: int, e: int)
    requires 0 < p && -e <= d <= e
    ensures -(p * e) <= p * d <= p * e
  {
  }

  lemma Distribute(p: int, b: int, d: int)
    ensures p * (b - S * d) == p * b - S * (p * d)
  {
    assert p * (S * d) == S * (p * d);
  }

  lemma Regrouped(p: int, Q: int, d: int, e: int)
    ensures p * (2 * Q + d) == (2 * p) * Q + p * d
    ensures e * (2 * p - 1) == e * (p - 1) + p * e
  {
  }

  lemma WeightedError(z: int, N: int, Q: int, b: int, d: int, p: int, e: int)
    requires 0 < p && Within(z, S * (N - p * (2 * Q + d)), e * (p - 1)) && Within(b, S * d, e)
    ensures Within(z + p * b, S * (N - (2 * p) * Q), e * (2 * p - 1))
  {
    ScaledError(p, b - S * d, e);
    Distribute(p, b, d);
    Regrouped(p, Q, d, e);
  }

  /** The loop of LTZ: z is close to N less the multiple Q of 2^32 that the 32 rounds leave. */
  method SumBits(conf: Config, y: Share, draws: seq<LowDraw>) returns (z: Share, ghost N: int, ghost Q: int)
    requires IsSetup(conf) && IsShare(conf, y) && AreLowDraws(conf, draws, K)
    ensures IsShare(conf, z) && Nearest(Opened(y), N, DrawRest(draws[0].bit), conf.nParties)
    ensures Left(N, Q, K) && SumState(Opened(z), N, Q, K, conf.nParties)
  {
    ghost var o := Origin(Opened(y), DrawRest(draws[0].bit), conf.nParties);
    var half;
    ghost var d;
    z, half, N, Q, d := HalvingRound(conf, y, draws[0], o, 0, 0, 0);
    assert Pow(2, 1) == 2 * Pow(2, 0) == 2;
    for i := 1 to K
      invariant IsShare(conf, half) && IsShare(conf, z) && RoundState(o, Opened(half), N, Q, i)
      invariant SumState(Opened(z), N, Q, i, conf.nParties)
    {
      var b;
      ghost var same, next;
      b, half, same, next, d := HalvingRound(conf, half, draws[i], o, i, N, Q);
      z := AddWeighted(conf, z, b, i, N, Q, next, d);
      Q := next;
    }
  }

  /** 2^32 times the opened quotient, before and after the cuts of the division. */
  lemma QuotientError(out: int, z: int, x: int, N: int, Q: int, rest: int, n: nat)
    requires Within(65536 * 65536 * out, z - x, (65536 * 65536 - 1) * n)
    requires Within(z, S * (N - 65536 * 65536 * Q), DigitError(N, n) * (65536 * 65536 - 1))
    requires Nearest(x + S * (65536 * 65536), N, rest, n) && Within(rest, 0, 2 * Eps(n) - n)
    ensures Within(out, S * (1 - Q), DigitError(N, n) + n + 1)
  {
    assert Eps(n) <= DigitError(N, n);
  }

  /** Sign and size of T, which is one for the negative N that the rounds leave nothing of. */
  lemma SignOfLeft(N0: int, Q: int)
    requires Left(N0, Q, K)
    ensures N0 < 65536 * 65536 <==> Q <= 0
    ensures N0 >= 0 ==> 1 - Q == -((N0 - 65536 * 65536) / (65536 * 65536))
    ensures Within(65536 * 65536 * (1 - Q), 65536 * 65536 - N0, 2 * (65536 * 65536 - 1))
  {
    PowersOfTwo();
  }

  /** (z - x) / 2^32 */
  method ScaledDown(conf: Config, z: Share, x: Share) returns (ret: Share)
    requires conf.Valid() && IsShare(conf, z) && IsShare(conf, x)
    ensures IsShare(conf, ret)
    ensures Within(65536 * 65536 * Opened(ret), Opened(z) - Opened(x), (65536 * 65536 - 1) * conf.nParties)
  {
    var difference := Subtract(conf, z, x);
    ret := OverPublic(conf, difference, S * (65536 * 65536));
  }

  /**
   LTZ opens near a whole number T, for the N that 2^16 s is taken for: at least one if N is
   negative and at most zero otherwise, and the negated quotient by 2^32 from -2^32 on.
   */
  method LTZ(conf: Config, s: Share, draws: seq<LowDraw>) returns (ret: Share, ghost N: int, ghost T: int)
    requires IsSetup(conf) && IsShare(conf, s) && AreLowDraws(conf, draws, K)
    ensures IsShare(conf, ret) && Nearest(65536 * Opened(s), N, DrawRest(draws[0].bit), conf.nParties)
    ensures Within(Opened(ret), S * T, DigitError(N + 65536 * 65536, conf.nParties) + conf.nParties + 1)
    ensures N < 0 <==> T >= 1
    ensures N >= -65536 * 65536 ==> T == -(N / (65536 * 65536))
    ensures Within(65536 * 65536 * T, -N, 2 * (65536 * 65536 - 1))
  {
    PowersOfTwo();
    var x, y := ShiftUp(conf, s);
    var z;
    ghost var N0, Q;
    z, N0, Q := SumBits(conf, y, draws);
    N, T := N0 - 65536 * 65536, 1 - Q;
    SignOfLeft(N0, Q);
    ret := ScaledDown(conf, z, x);
    DrawRestBound(conf, draws[0].bit);
    QuotientError(Opened(ret), Opened(z), Opened(x), N0, Q, DrawRest(draws[0].bit), conf.nParties);
  }

  // ---------- operator< and operator== ----------

  /** The comparison operators either answer or end the program with exit. */
  datatype Verdict = Answer(holds: bool) | Exit

  /** The thresholds 0.95, 0.5 and 0.05 on the opened number. */
  method Judge(ret: int) returns (out: Verdict)
    ensures out == Answer(true) <==> ret > S - S / 20
    ensures out == Answer(false) <==> ret < S / 20
    ensures out == Exit <==> S / 20 <= ret <= S - S / 20
  {
    if ret > S - S / 20 {
      return Answer(true);
    } else if ret >= S / 2 {
      return Exit;
    } else if ret >= S / 20 {
      return Exit;
    } else {
      return Answer(false);
    }
  }

  /** The answer to "is d positive", where the first random bit leaves its rest. */
  predicate Decided(d: int, less: bool, rest: int, n: nat) {
    && (131072 * d > S + n + rest ==> less)
    && (131072 * d < S - n + rest ==> !less)
  }

  lemma SignOfStand(s: int, N: int, rest: int, n: nat)
    requires Nearest(65536 * s, N, rest, n)
    ensures Decided(-s, N < 0, rest, n)
  {
  }

  /** Whatever is drawn: 755 units never count, 771 always do, and up to eight parties the cut is at 763. */
  lemma CutWithoutDraws(conf: Config, d: int, less: bool, draws: seq<BitDraw>)
    requires IsSetup(conf) && AreBitDraws(conf, draws) && Decided(d, less, DrawRest(draws), conf.nParties)
    ensures 131072 * d > S + 2 * Eps(conf.nParties) ==> less
    ensures 131072 * d < S - 2 * Eps(conf.nParties) ==> !less
    ensures (d <= 755 ==> !less) && (d >= 771 ==> less)
    ensures conf.nParties <= 8 ==> (less <==> d >= 763)
  {
    DrawRestBound(conf, draws);
  }

  /** The sign test and its judgement: never exits, and answers whether N is negative. */
  method Negative(conf: Config, s: Share, draws: seq<LowDraw>) returns (out: Verdict)
    requires IsSetup(conf) && IsShare(conf, s) && AreLowDraws(conf, draws, K)
    ensures out.Answer? && Decided(-Opened(s), out.holds, DrawRest(draws[0].bit), conf.nParties)
  {
    var ltz;
    ghost var N, T;
    ltz, N, T := LTZ(conf, s, draws);
    var ret := OpenRecons(conf, ltz);
    FarFromThresholds(ret, N + 65536 * 65536, T, conf.nParties);
    out := Judge(ret);
    SignOfStand(Opened(s), N, DrawRest(draws[0].bit), conf.nParties);
  }

  lemma FarFromThresholds(ret: int, N0: int, T: int, n: nat)
    requires n <= MAX_PARTIES && Within(ret, S * T, DigitError(N0, n) + n + 1)
    ensures T >= 1 ==> ret > S - S / 20
    ensures T <= 0 ==> ret < S / 20
  {
  }

  /** operator<(Share, Share), for any two numbers. */
  method LessThan(conf: Config, left: Share, right: Share, draws: seq<LowDraw>) returns (out: Verdict)
    requires IsSetup(conf) && IsShare(conf, left) && IsShare(conf, right) && AreLowDraws(conf, draws, K)
    ensures out.Answer?
    ensures Decided(Opened(right) - Opened(left), out.holds, DrawRest(draws[0].bit), conf.nParties)
    ensures Opened(right) - Opened(left) <= 755 ==> !out.holds
    ensures Opened(right) - Opened(left) >= 771 ==> out.holds
    ensures conf.nParties <= 8 ==> (out.holds <==> Opened(right) - Opened(left) >= 763)
  {
    var s := Subtract(conf, left, right);
    out := Negative(conf, s, draws);
    CutWithoutDraws(conf, -Opened(s), out.holds, draws[0].bit);
  }

  /** operator<(Share, FixedPoint): only party spId subtracts the public number. */
  method LessThanPublic(conf: Config, left: Share, right: int, draws: seq<LowDraw>) returns (out: Verdict)
    requires IsSetup(conf) && IsShare(conf, left) && AreLowDraws(conf, draws, K)
    ensures out.Answer?
    ensures Decided(right - Opened(left), out.holds, DrawRest(draws[0].bit), conf.nParties)
    ensures right - Opened(left) <= 755 ==> !out.holds
    ensures right - Opened(left) >= 771 ==> out.holds
    ensures conf.nParties <= 8 ==> (out.holds <==> right - Opened(left) >= 763)
  {
    var s := AddPublic(conf, left, -right);
    out := Negative(conf, s, draws);
    CutWithoutDraws(conf, -Opened(s), out.holds, draws[0].bit);
  }

  /** operator==(Share, Share): neither is less. */
  method EqualTo(conf: Config, left: Share, right: Share, first: seq<LowDraw>, second: seq<LowDraw>)
    returns (out: Verdict)
    requires IsSetup(conf) && IsShare(conf, left) && IsShare(conf, right)
    requires AreLowDraws(conf, first, K) && AreLowDraws(conf, second, K)
    ensures out.Answer?
    ensures Within(Opened(left), Opened(right), 755) ==> out.holds
    ensures !Within(Opened(left), Opened(right), 770) ==> !out.holds
    ensures conf.nParties <= 8 ==> (out.holds <==> Within(Opened(left), Opened(right), 762))
  {
    var x := LessThan(conf, left, right, first);
    var y := LessThan(conf, right, left, second);
    out := NeitherLess(x, y);
  }

  /** (1 - x) * (1 - y), judged: neither is less. */
  method NeitherLess(x: Verdict, y: Verdict) returns (out: Verdict)
    ensures x.Answer? && y.Answer? ==> out == Answer(!x.holds && !y.holds)
    ensures x.Exit? || y.Exit? ==> out.Exit?
  {
    if x == Exit || y == Exit {
      return Exit;
    }
    var ret := Product(S - S * Bit(x.holds), S - S * Bit(y.holds));
    TruncExact((S - S * Bit(x.holds)) * (S - S * Bit(y.holds)), S, S * Bit(!x.holds && !y.holds));
    out := Judge(ret);
  }
}
