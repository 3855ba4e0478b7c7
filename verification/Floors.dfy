/** Share/Share.hpp, lines 454-481 and 496-555: getFloor, and its vector form. */
module Floors {
  import opened NumberTheory
  import opened FixedPoint
  import opened FixedShare
  import opened LowBits
  import opened SignTests

  /** What sixteen rounds leave of the drift, for digits with the error of N. */
  function FloorError(N: int, n: nat): int {
    DigitError(N, n) + n + 762
  }

  lemma FinalDrift(N: int, n: nat)
    ensures Drift(DigitError(N, n), n, M) <= FloorError(N, n)
  {
    DriftDamped(DigitError(N, n), n, M);
    PowersOfTwo();
  }

  /**
   The floor of N / 2^16, for s that lies g units below a whole number: it is the floor of s when
   the sign test decides g to be positive, and one too much when it does not.
   */
  lemma FloorOfStand(s: int, N: int, rest: int, n: nat) returns (exact: bool)
    requires n <= MAX_PARTIES && Nearest(65536 * s, N, rest, n) && Within(rest, 0, 2 * Eps(n) - n)
    ensures Decided(S - s % S, exact, rest, n)
    ensures Shifted(N, M) == if exact then s / S else s / S + 1
  {
    PowersOfTwo();
    var q, g := s / S, S - s % S;
    exact := N < 65536 * (q + 1);
    assert 65536 * s == S * (65536 * (q + 1)) - 65536 * g;
    if exact {
      ModUnique(N, q, N - q * 65536, 65536);
    } else {
      ModUnique(N, q + 1, N - (q + 1) * 65536, 65536);
    }
  }

  /** The number N that 2^16 s is taken for, and what sixteen rounds leave of it. */
  predicate IsFloorOf(s: int, N: int, T: int, rest: int, n: nat) {
    && Nearest(65536 * s, N, rest, n)
    && (N >= -65536 * 65536 ==> T == Shifted(N, M))
    && Within(65536 * T, N, 131070)
  }

  /** What sixteen rounds on 2^16 s + 2^32 leave, less 2^16, is close to the floor of N / 2^16. */
  lemma FloorOfState(s: int, o: Origin, y: int, N0: int, Q: int)
    requires o.start == 65536 * s + S * (65536 * 65536) && RoundState(o, y, N0, Q, M)
    ensures IsFloorOf(s, N0 - 65536 * 65536, Q - 65536, o.rest, o.n)
    ensures Within(y - 65536 * S, S * (Q - 65536), FloorError(N0, o.n))
  {
    FinalDrift(N0, o.n);
    PowersOfTwo();
  }

  /** v is within a hundredth of a whole number. */
  predicate Near(v: int, whole: int, n: nat) {
    Within(v, S * whole, FloorError(0, n))
  }

  /** v is close to the floor of s, or to one more for the last few hundred units before a whole number. */
  predicate IsNearFloor(s: int, v: int, n: nat) {
    && (Near(v, s / S, n) || Near(v, s / S + 1, n))
    && (S - s % S >= 771 ==> Near(v, s / S, n))
    && (S - s % S <= 755 ==> Near(v, s / S + 1, n))
    && (n <= 8 ==> Near(v, if S - s % S >= 763 then s / S else s / S + 1, n))
  }

  lemma NearFloor(conf: Config, s: int, v: int, N: int, T: int, draws: seq<BitDraw>)
    requires IsSetup(conf) && AreBitDraws(conf, draws) && IsFloorOf(s, N, T, DrawRest(draws), conf.nParties)
    requires Within(v, S * T, FloorError(N + 65536 * 65536, conf.nParties))
    ensures s >= -65536 * S ==> IsNearFloor(s, v, conf.nParties)
  {
    DrawRestBound(conf, draws);
    var exact := FloorOfStand(s, N, DrawRest(draws), conf.nParties);
    CutWithoutDraws(conf, S - s % S, exact, draws);
  }

  /** What a call of getFloor on s returns, close to T. */
  predicate FloorAnswer(conf: Config, s: int, ret: Share, N: int, T: int, draws: seq<BitDraw>)
    requires exists i :: 0 <= i < |draws| && Opened(draws[i].r) != 0
  {
    && IsShare(conf, ret) && IsFloorOf(s, N, T, DrawRest(draws), conf.nParties)
    && Within(Opened(ret), S * T, FloorError(N + 65536 * 65536, conf.nParties))
    && (s >= -65536 * S ==> IsNearFloor(s, Opened(ret), conf.nParties))
  }

  /** getFloor, for any number. */
  method GetFloor(conf: Config, s: Share, draws: seq<LowDraw>) returns (ret: Share, ghost N: int, ghost T: int)
    requires IsSetup(conf) && IsShare(conf, s) && AreLowDraws(conf, draws, M)
    ensures IsShare(conf, ret)
    ensures Opened(s) >= -65536 * S ==> IsNearFloor(Opened(s), Opened(ret), conf.nParties)
    ensures AreBitDraws(conf, draws[0].bit) && FloorAnswer(conf, Opened(s), ret, N, T, draws[0].bit)
  {
    var x, y := ShiftUp(conf, s);
    assert IsLowDraw(conf, draws[0]);
    ghost var o := Origin(Opened(y), DrawRest(draws[0].bit), conf.nParties);
    ghost var N0, Q := 0, 0;
    for i := 0 to M
      invariant IsShare(conf, y) && RoundState(o, Opened(y), N0, Q, i)
    {
      var b;
      ghost var d;
      b, y, N0, Q, d := HalvingRound(conf, y, draws[i], o, i, N0, Q);
    }
    ret, N, T := ShiftBack(conf, Opened(s), y, o, draws[0].bit, N0, Q);
  }

  /** y - 2^16, after the last round. */
  method ShiftBack(conf: Config, ghost s: int, y: Share, ghost o: Origin, ghost draws: seq<BitDraw>, ghost N0: int, ghost Q: int)
    returns (ret: Share, ghost N: int, ghost T: int)
    requires IsSetup(conf) && IsShare(conf, y) && RoundState(o, Opened(y), N0, Q, M) && AreBitDraws(conf, draws)
    requires o == Origin(65536 * s + S * (65536 * 65536), DrawRest(draws), conf.nParties)
    ensures IsShare(conf, ret) && FloorAnswer(conf, s, ret, N, T, draws)
  {
    FloorOfState(s, o, Opened(y), N0, Q);
    N, T := N0 - 65536 * 65536, Q - 65536;
    ret := AddPublic(conf, y, -65536 * S);
    NearFloor(conf, s, Opened(ret), N, T, draws);
  }

  // ---------- the vector form of getFloor ----------

  /** getRandBitShare(n): one batch of squares, and the scalar form for those that open to zero. */
  method RandBits(conf: Config, draws: seq<LowDraw>) returns (ret: seq<Share>)
    requires conf.Valid() && forall j :: 0 <= j < |draws| ==> IsLowDraw(conf, draws[j])
    ensures |ret| == |draws|
    ensures forall j :: 0 <= j < |draws| ==> AreBitDraws(conf, draws[j].bit) && IsRandBit(conf, ret[j], draws[j].bit)
  {
    var r := seq(|draws|, j requires 0 <= j < |draws| && IsLowDraw(conf, draws[j]) => draws[j].bit[0].r);
    var t := seq(|draws|, j requires 0 <= j < |draws| && IsLowDraw(conf, draws[j]) => draws[j].bit[0].t);
    var squares := MultiplyAll(conf, r, r, t);
    ret := [];
    for j := 0 to |draws|
      invariant |ret| == j
      invariant forall k :: 0 <= k < j ==> IsLowDraw(conf, draws[k]) && IsRandBit(conf, ret[k], draws[k].bit)
    {
      SumWhole(r[j], |r[j]|);
      var bit := BitOrRetry(conf, draws[j].bit, squares.value[j]);
      ret := ret + [bit];
    }
  }

  method BitOrRetry(conf: Config, draws: seq<BitDraw>, squareShare: Share) returns (bit: Share)
    requires conf.Valid() && AreBitDraws(conf, draws) && IsShare(conf, squareShare)
    requires S * Opened(squareShare) == Opened(draws[0].r) * Opened(draws[0].r)
    ensures IsRandBit(conf, bit, draws)
  {
    var square := OpenRecons(conf, squareShare);
    SquareIsZero(square, Opened(draws[0].r));
    if square != 0 {
      assert IsBitDraw(conf, draws[0]);
      bit := BitFromDraw(conf, draws[0].r, square);
    } else {
      SkipZeroDraw(conf, draws);
      bit := RandBit(conf, draws[1..]);
    }
  }

  /** Where the elements stand after i rounds, and what the rounds have found. */
  predicate RoundStates(os: seq<Origin>, ys: seq<Share>, Ns: seq<int>, Qs: seq<int>, i: nat) {
    && |os| == |ys| == |Ns| == |Qs|
    && forall j :: 0 <= j < |ys| ==> RoundState(os[j], Opened(ys[j]), Ns[j], Qs[j], i)
  }

  predicate AreOrigins(conf: Config, os: seq<Origin>, draws: seq<LowDraw>) {
    |os| == |draws| && forall j :: 0 <= j < |os| ==>
      IsLowDraw(conf, draws[j]) && os[j].n == conf.nParties && os[j].rest == DrawRest(draws[j].bit)
  }

  /** getLSBShare and the halving, on every element. */
  method HalvingRoundAll(conf: Config, ys: seq<Share>, draws: seq<LowDraw>, ghost os: seq<Origin>, ghost first: seq<LowDraw>,
                         ghost i: nat, ghost Ns: seq<int>, ghost Qs: seq<int>)
    returns (halves: seq<Share>, ghost Ns': seq<int>, ghost Qs': seq<int>)
    requires IsSetup(conf) && AreShares(conf, ys) && AreLowDraws(conf, draws, |ys|) && RoundStates(os, ys, Ns, Qs, i)
    requires AreOrigins(conf, os, first) && (i == 0 ==> first == draws)
    ensures AreShares(conf, halves) && RoundStates(os, halves, Ns', Qs', i + 1)
  {
    var r0 := RandBits(conf, draws);
    halves, Ns', Qs' := [], [], [];
    for j := 0 to |ys|
      invariant |halves| == j && AreShares(conf, halves) && RoundStates(os[..j], halves, Ns', Qs', i + 1)
    {
      var half;
      ghost var N', Q';
      half, N', Q' := HalveBy(conf, ys[j], r0[j], draws[j], os[j], i, Ns[j], Qs[j]);
      halves, Ns', Qs' := halves + [half], Ns' + [N'], Qs' + [Q'];
    }
    assert os[..|ys|] == os;
  }

  method HalveBy(conf: Config, y: Share, r0: Share, draw: LowDraw, ghost o: Origin, ghost i: nat, ghost N: int, ghost Q: int)
    returns (half: Share, ghost N': int, ghost Q': int)
    requires IsSetup(conf) && IsShare(conf, y) && IsLowDraw(conf, draw) && IsRandBit(conf, r0, draw.bit)
    requires o.n == conf.nParties && RoundState(o, Opened(y), N, Q, i) && (i == 0 ==> o.rest == DrawRest(draw.bit))
    ensures IsShare(conf, half) && RoundState(o, Opened(half), N', Q', i + 1)
  {
    var b;
    ghost var found, d;
    b, found, d := LowBitBy(conf, y, r0, draw);
    half := Halve(conf, y, b);
    DrawRestBound(conf, draw.bit);
    NextState(o, Opened(y), N, Q, i, Opened(b), Opened(half), found, d, DrawRest(draw.bit));
    N', Q' := if i == 0 then found else N, (found - d) / 2;
  }

  method ShiftUpAll(conf: Config, s: seq<Share>) returns (ys: seq<Share>)
    requires conf.Valid() && AreShares(conf, s)
    ensures |ys| == |s| && AreShares(conf, ys)
    ensures forall j :: 0 <= j < |s| ==> Opened(ys[j]) == 65536 * Opened(s[j]) + S * (65536 * 65536)
  {
    ys := [];
    for j := 0 to |s|
      invariant |ys| == j && AreShares(conf, ys)
      invariant forall k :: 0 <= k < j ==> Opened(ys[k]) == 65536 * Opened(s[k]) + S * (65536 * 65536)
    {
      var x, y := ShiftUp(conf, s[j]);
      ys := ys + [y];
    }
  }

  /** Every element of a vector is answered like a single number, from its own draws. */
  predicate FloorAnswers(conf: Config, s: seq<Share>, ret: seq<Share>, Ns: seq<int>, Ts: seq<int>, draws: seq<LowDraw>) {
    && |ret| == |Ns| == |Ts| == |s| == |draws|
    && forall j :: 0 <= j < |s| ==>
         AreBitDraws(conf, draws[j].bit) && FloorAnswer(conf, Opened(s[j]), ret[j], Ns[j], Ts[j], draws[j].bit)
  }

  predicate AreNearFloors(conf: Config, s: seq<Share>, ret: seq<Share>) {
    && |ret| == |s| && AreShares(conf, ret)
    && forall j :: 0 <= j < |s| ==>
         Opened(s[j]) >= -65536 * S ==> IsNearFloor(Opened(s[j]), Opened(ret[j]), conf.nParties)
  }

  /** The vector getFloor. */
  method GetFloors(conf: Config, s: seq<Share>, draws: seq<seq<LowDraw>>)
    returns (ret: seq<Share>, ghost Ns: seq<int>, ghost Ts: seq<int>)
    requires IsSetup(conf) && AreShares(conf, s)
    requires |draws| == M && forall i :: 0 <= i < M ==> AreLowDraws(conf, draws[i], |s|)
    ensures AreNearFloors(conf, s, ret)
    ensures FloorAnswers(conf, s, ret, Ns, Ts, draws[0])
  {
    var ys := ShiftUpAll(conf, s);
    ghost var os := Origins(conf, ys, draws[0]);
    ghost var states, lefts;
    ys, states, lefts := AllRounds(conf, ys, draws, os);
    ret, Ns, Ts := ShiftBackAll(conf, s, ys, os, draws[0], states, lefts);
    AnswersAreNear(conf, s, ret, Ns, Ts, draws[0]);
  }

  /** Where the elements of a vector start. */
  ghost function Origins(conf: Config, ys: seq<Share>, draws: seq<LowDraw>): (os: seq<Origin>)
    requires AreLowDraws(conf, draws, |ys|)
    ensures AreOrigins(conf, os, draws) && forall j :: 0 <= j < |ys| ==> os[j].start == Opened(ys[j])
  {
    seq(|ys|, j requires 0 <= j < |ys| && IsLowDraw(conf, draws[j]) =>
      Origin(Opened(ys[j]), DrawRest(draws[j].bit), conf.nParties))
  }

  method AllRounds(conf: Config, ys: seq<Share>, draws: seq<seq<LowDraw>>, ghost os: seq<Origin>)
    returns (left: seq<Share>, ghost states: seq<int>, ghost lefts: seq<int>)
    requires IsSetup(conf) && AreShares(conf, ys) && |os| == |ys|
    requires |draws| == M && forall i :: 0 <= i < M ==> AreLowDraws(conf, draws[i], |ys|)
    requires AreOrigins(conf, os, draws[0]) && forall j :: 0 <= j < |ys| ==> os[j].start == Opened(ys[j])
    ensures AreShares(conf, left) && RoundStates(os, left, states, lefts, M)
  {
    left, states, lefts := ys, seq(|ys|, j => 0), seq(|ys|, j => 0);
    for i := 0 to M
      invariant AreShares(conf, left) && RoundStates(os, left, states, lefts, i)
    {
      left, states, lefts := HalvingRoundAll(conf, left, draws[i], os, draws[0], i, states, lefts);
    }
  }

  lemma AnswersAreNear(conf: Config, s: seq<Share>, ret: seq<Share>, Ns: seq<int>, Ts: seq<int>, draws: seq<LowDraw>)
    requires FloorAnswers(conf, s, ret, Ns, Ts, draws)
    ensures AreNearFloors(conf, s, ret)
  {
  }

  method ShiftBackAll(conf: Config, ghost s: seq<Share>, ys: seq<Share>, ghost os: seq<Origin>, ghost draws: seq<LowDraw>,
                      ghost states: seq<int>, ghost lefts: seq<int>)
    returns (ret: seq<Share>, ghost Ns: seq<int>, ghost Ts: seq<int>)
    requires IsSetup(conf) && AreShares(conf, ys) && |s| == |ys| && AreOrigins(conf, os, draws)
    requires RoundStates(os, ys, states, lefts, M)
    requires forall j :: 0 <= j < |s| ==> os[j].start == 65536 * Opened(s[j]) + S * (65536 * 65536)
    ensures |ret| == |s| && FloorAnswers(conf, s, ret, Ns, Ts, draws)
  {
    ret, Ns, Ts := [], [], [];
    for j := 0 to |ys|
      invariant |ret| == j && FloorAnswers(conf, s[..j], ret, Ns, Ts, draws[..j])
    {
      var shifted;
      ghost var N, T;
      shifted, N, T := ShiftBack(conf, Opened(s[j]), ys[j], os[j], draws[j].bit, states[j], lefts[j]);
      ret, Ns, Ts := ret + [shifted], Ns + [N], Ts + [T];
    }
    assert s[..|ys|] == s && draws[..|ys|] == draws;
  }
}
