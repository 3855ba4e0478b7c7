/**
 Share/Compare.cpp, lines 202-246 and 579-619: shared random bits (subRBS, subRBVS), and the
 passage between bit shares and field elements (BStoSC, PFtoBS).  The most significant bit is
 at index 0.  Every random draw is an argument.
 */
module RandomBits {
  import opened NumberTheory
  import opened PrimeModulus
  import opened PrimeField
  import opened FieldShare
  import opened FanIn

  // ---------- subRBS ----------

  const INVERSE_OF_TWO: int := 9223372036854775779

  /** getRand<PrimeField>() with its default bounds draws the share of a party below this limit. */
  const GENERATOR_LIMIT: int := 0x7FFF_FFFF_FFFF_FFFF

  /** A share that subRNS can draw. */
  predicate IsGenerated(x: Share) {
    forall i :: 0 <= i < |x| ==> 0 <= x[i] < GENERATOR_LIMIT
  }

  predicate AllGenerated(xs: seq<Share>) {
    forall i :: 0 <= i < |xs| ==> IsGenerated(xs[i])
  }

  /** A stream of draws is long enough when one of them is a share of a non-zero value. */
  predicate HasNonZero(draws: seq<Share>) {
    exists i :: 0 <= i < |draws| && Value(draws[i]) != 0
  }

  function FirstNonZero(draws: seq<Share>): (v: int)
    requires HasNonZero(draws)
    ensures 0 < v < P
  {
    if Value(draws[0]) != 0 then Value(draws[0])
    else
      assert HasNonZero(draws[1..]) by {
        var i :| 0 <= i < |draws| && Value(draws[i]) != 0;
        assert draws[i] == draws[1..][i - 1];
      }
      FirstNonZero(draws[1..])
  }

  lemma RootsOfSameSquare(s: int, v: int, p: int)
    requires IsPrime(p) && 0 < s < p && 0 < v < p && Square(s) % p == Square(v) % p
    ensures s == v || s == p - v
  {
    DifferenceMod(s * s, v * v, p);
    assert s * s - v * v == (s - v) * (s + v);
    NoZeroDivisors(s - v, s + v, p);
    if (s - v) % p == 0 {
      DifferenceMod(s, v, p);
      ModSmall(s, p);
      ModSmall(v, p);
    } else {
      DifferenceMod(s, -v, p);
      ModShift(-v, 1, p);
      ModSmall(s, p);
      ModSmall(p - v, p);
    }
  }

  /** The inverse of the root times the value is one or minus one. */
  lemma SignOfRoot(s: int, v: int, inverse: int, p: int)
    requires IsPrime(p) && p % 2 == 1 && 0 < s <= p / 2 && 0 < v < p
    requires Square(s) % p == Square(v) % p && (s * inverse) % p == 1
    ensures (inverse * v) % p == if v <= p / 2 then 1 else p - 1
  {
    RootsOfSameSquare(s, v, p);
    assert s * inverse == inverse * s;
    if s != v {
      assert inverse * v == -(inverse * s) + inverse * p;
      ModShift(-(inverse * s), inverse, p);
      CongMul(inverse * s, 1, -1, -1, p) by { ModSmall(1, p); }
      ModShift(-1, 1, p);
      ModSmall(p - 1, p);
    }
  }

  lemma SquareNonZero(v: int, p: int)
    requires IsPrime(p) && 0 <= v < p
    ensures (v * v) % p == 0 <==> v == 0
  {
    ModSmall(v, p);
    if (v * v) % p == 0 { NoZeroDivisors(v, v, p); }
    ModSmall(0, p);
  }

  /** What modsqrt and getInv make of an opened square. */
  method SignFactor(ghost v: int, square: int) returns (inverse: int)
    requires 0 < v < P && square == (v * v) % P
    ensures (inverse * v) % P == if v <= P / 2 then 1 else P - 1
  {
    ModulusIsPrime();
    SquareNonZero(v, P);
    ModTwice(v * v, P);
    assert Square(v) % P == square % P;
    var root := Modsqrt(square);
    inverse := GetInv(root.value) by { ModSmall(root.value, P); }
    ModSmall(root.value, P);
    SignOfRoot(root.value, v, inverse, P);
  }

  /** One accepted draw: inverse of two times (sign + 1). */
  method BitFromDraw(conf: Config, r: Share, square: int) returns (bit: Share)
    requires conf.Valid() && IsShare(conf, r) && Value(r) != 0
    requires square == (Value(r) * Value(r)) % P
    ensures IsShare(conf, bit) && Value(bit) == Bit(Value(r) <= P / 2)
  {
    var inverse := SignFactor(Value(r), square);
    var sign := Scale(conf, inverse, r);
    var signPlusOne := AddPublic(conf, sign, 1);
    bit := Scale(conf, INVERSE_OF_TWO, signPlusOne);
  }

  /** subRBS: redraws while the opened square is zero. */
  method SubRBS(conf: Config, draws: seq<Share>, t: Triple) returns (bit: Share)
    requires conf.Valid() && AreShares(conf, draws) && IsTriple(conf, t) && HasNonZero(draws)
    ensures IsShare(conf, bit) && Value(bit) == Bit(FirstNonZero(draws) <= P / 2)
  {
    var i := 0;
    while true
      invariant 0 <= i < |draws| && HasNonZero(draws[i..])
      invariant FirstNonZero(draws[i..]) == FirstNonZero(draws)
      decreases |draws| - i
    {
      assert draws[i..][0] == draws[i] && draws[i..][1..] == draws[i + 1..];
      var r := draws[i];
      var square := Multiply(conf, r, r, t);
      var revealed := OpenRecons(conf, square);
      ModulusIsPrime();
      SquareNonZero(Value(r), P);
      if revealed != 0 {
        bit := BitFromDraw(conf, r, revealed);
        return;
      }
      SkipZeroDraw(draws[i..]);
      i := i + 1;
    }
  }

  lemma SkipZeroDraw(draws: seq<Share>)
    requires HasNonZero(draws) && Value(draws[0]) == 0
    ensures HasNonZero(draws[1..]) && FirstNonZero(draws) == FirstNonZero(draws[1..])
  {
    var i :| 0 <= i < |draws| && Value(draws[i]) != 0;
    assert draws[i] == draws[1..][i - 1];
  }

  // ---------- numbers from bits ----------

  /** The number that the first k bits denote. */
  function Number(bits: seq<Share>, k: nat): int
    requires k <= |bits|
  {
    if k == 0 then 0 else 2 * Number(bits, k - 1) + Value(bits[k - 1])
  }

  predicate AreDraws(conf: Config, draws: seq<seq<Share>>) {
    |draws| == L && forall i :: 0 <= i < L ==> AreShares(conf, draws[i]) && HasNonZero(draws[i])
  }

  /** The number that the accepted draws of subRBVS denote, as far as bit k. */
  function DrawnNumber(draws: seq<seq<Share>>, k: nat): int
    requires k <= |draws| && forall i :: 0 <= i < |draws| ==> HasNonZero(draws[i])
  {
    if k == 0 then 0 else 2 * DrawnNumber(draws, k - 1) + Bit(FirstNonZero(draws[k - 1]) <= P / 2)
  }

  lemma {:induction false} DrawnNumberBounds(draws: seq<seq<Share>>, k: nat)
    requires k <= |draws| && forall i :: 0 <= i < |draws| ==> HasNonZero(draws[i])
    ensures 0 <= DrawnNumber(draws, k) < Pow(2, k)
  {
    if k > 0 { DrawnNumberBounds(draws, k - 1); }
  }

  /** subRBVS: 64 random bits; that they denote a number below P is not checked. */
  method SubRBVS(conf: Config, draws: seq<seq<Share>>) returns (bits: seq<Share>)
    requires conf.Valid() && AreDraws(conf, draws)
    ensures |bits| == L && AreBits(conf, bits) && Number(bits, L) == DrawnNumber(draws, L)
    ensures forall i :: 0 <= i < L ==> Value(bits[i]) == Bit(FirstNonZero(draws[i]) <= P / 2)
  {
    var t := ConstantTriple(conf);
    bits := [];
    for i := 0 to L
      invariant |bits| == i && AreBits(conf, bits)
      invariant Number(bits, i) == DrawnNumber(draws, i)
      invariant forall j :: 0 <= j < i ==> Value(bits[j]) == Bit(FirstNonZero(draws[j]) <= P / 2)
    {
      var bit := SubRBS(conf, draws[i], t);
      NumberExtends(bits, [bit], i);
      bits := bits + [bit];
    }
  }

  lemma {:induction false} NumberExtends(bits: seq<Share>, more: seq<Share>, k: nat)
    requires k <= |bits|
    ensures Number(bits + more, k) == Number(bits, k)
  {
    if k > 0 { NumberExtends(bits, more, k - 1); }
  }

  /** Prefixes of two bit vectors denote the same number exactly when they agree. */
  lemma {:induction false} NumberUnique(conf: Config, a: seq<Share>, b: seq<Share>, k: nat)
    requires k <= |a| && k <= |b| && AreBits(conf, a) && AreBits(conf, b)
    ensures Number(a, k) == Number(b, k) <==> forall i :: 0 <= i < k ==> Value(a[i]) == Value(b[i])
  {
    if k > 0 {
      NumberUnique(conf, a, b, k - 1);
      assert IsBit(Value(a[k - 1])) && IsBit(Value(b[k - 1]));
    }
  }

  // ---------- BStoSC ----------

  lemma HornerDown(ret: int, coef: int, n: int, b: int, p: int)
    requires 0 < p
    ensures ((ret + (coef * b) % p) % p + ((coef * 2) % p) * n) % p == (ret + coef * (2 * n + b)) % p
  {
    ReduceSum(ret, coef * b, p);
    ModAdd(ret, (coef * b) % p, p);
    ModAdd(coef * b, ret, p);
    ModMul(coef * 2, n, p);
    SumStep((ret + (coef * b) % p) % p, ret + coef * b, ((coef * 2) % p) * n, (coef * 2) * n, p) by {
      ModTwice(ret + (coef * b) % p, p);
    }
    assert coef * (2 * n + b) == (coef * 2) * n + coef * b;
  }

  /** BStoSC: a share of the number the bits denote. */
  method BStoSC(conf: Config, a: seq<Share>) returns (ret: Share)
    requires conf.Valid() && |a| == L && AreShares(conf, a)
    ensures IsShare(conf, ret) && Value(ret) == Number(a, L) % P
  {
    ret := Everywhere(conf, 0);
    var coef := 1;
    var i := L;
    while i > 0
      invariant 0 <= i <= L && IsShare(conf, ret)
      invariant (Value(ret) + coef * Number(a, i)) % P == Number(a, L) % P
    {
      ret, coef := AddDigit(conf, ret, coef, a[i - 1], Number(a, i - 1), Number(a, L));
      i := i - 1;
    }
    ModTwice(SumTo(ret, |ret|), P);
  }

  method AddDigit(conf: Config, ret: Share, coef: int, bit: Share, ghost n: int, ghost total: int)
    returns (ret': Share, coef': int)
    requires IsShare(conf, ret) && IsShare(conf, bit)
    requires (Value(ret) + coef * (2 * n + Value(bit))) % P == total % P
    ensures IsShare(conf, ret') && (Value(ret') + coef' * n) % P == total % P
  {
    HornerDown(Value(ret), coef, n, Value(bit), P);
    var term := Scale(conf, coef, bit);
    ret' := Add(conf, ret, term);
    coef' := (coef * 2) % P;
  }

  // ---------- sharize and PFtoBS ----------

  lemma AccumulatePiece(sum: int, s: int, r: int, p: int)
    requires 0 < p && sum == s % p
    ensures (sum + r) % p == (s + r) % p
  {
    ModAdd(s, r, p);
  }

  lemma CompleteSum(s: int, rSum: int, secret: int, p: int)
    requires 0 < p && rSum == s % p
    ensures (s + (secret + (p - rSum)) % p) % p == secret % p
  {
    ModAdd(secret + (p - rSum), s, p);
    WholeTurns(s, s / p, rSum, p);
    ModShift(secret, s / p + 1, p);
  }

  lemma WholeTurns(s: int, k: int, rest: int, p: int)
    requires s == k * p + rest
    ensures s + (p - rest) == (k + 1) * p
  {
  }

  /** Every party but spId gets a random piece; the pieces sum to rSum. */
  method RandomPieces(conf: Config, pieces: seq<int>) returns (s: Share, rSum: int)
    requires conf.Valid() && |pieces| == conf.nParties
    requires forall i :: 0 <= i < |pieces| ==> IsRepresentation(pieces[i])
    ensures IsShare(conf, s) && s[conf.spId - 1] == 0
    ensures 0 <= rSum < P && rSum == SumTo(s, |s|) % P
  {
    s := seq(conf.nParties, i => 0);
    rSum := 0;
    SumConstant(conf.nParties, 0, conf.nParties);
    for ptId := 1 to conf.nParties + 1
      invariant IsShare(conf, s) && s[conf.spId - 1] == 0
      invariant forall i :: ptId - 1 <= i < |s| ==> s[i] == 0
      invariant 0 <= rSum < P && rSum == SumTo(s, |s|) % P
    {
      if ptId != conf.spId {
        var r := pieces[ptId - 1];
        SumReplace(s, ptId - 1, r, |s|);
        AccumulatePiece(rSum, SumTo(s, |s|), r, P);
        rSum := (rSum + r) % P;
        s := s[ptId - 1 := r];
      }
    }
  }

  /** sharize: party spId takes what completes the random pieces to the secret. */
  method Sharize(conf: Config, secret: int, pieces: seq<int>) returns (s: Share)
    requires conf.Valid() && |pieces| == conf.nParties
    requires IsRepresentation(secret) && forall i :: 0 <= i < |pieces| ==> IsRepresentation(pieces[i])
    ensures IsShare(conf, s) && Value(s) == secret % P
  {
    var rSum;
    s, rSum := RandomPieces(conf, pieces);
    var rest := (secret + (P - rSum)) % P;
    SumReplace(s, conf.spId - 1, rest, |s|);
    CompleteSum(SumTo(s, |s|), rSum, secret, P);
    s := s[conf.spId - 1 := rest];
  }

  /** The draws of PFtoBS for one bit: party spId's r, and the pieces of its sharing. */
  datatype SharingDraw = SharingDraw(r: int, pieces: seq<int>)

  predicate AreSharingDraws(conf: Config, draws: seq<SharingDraw>) {
    |draws| == L && forall i :: 0 <= i < L ==>
      0 <= draws[i].r < P && |draws[i].pieces| == conf.nParties
      && forall j :: 0 <= j < conf.nParties ==> IsRepresentation(draws[i].pieces[j])
  }

  /** A fresh sharing of a public bit: party spId replaces r by the bit in a sharing of r. */
  method ShareBit(conf: Config, bit: int, draw: SharingDraw) returns (x: Share)
    requires conf.Valid() && IsBit(bit) && 0 <= draw.r < P && |draw.pieces| == conf.nParties
    requires forall j :: 0 <= j < conf.nParties ==> IsRepresentation(draw.pieces[j])
    ensures IsShare(conf, x) && Value(x) == bit
  {
    var s := Sharize(conf, draw.r, draw.pieces);
    x := AddPublic(conf, s, bit - draw.r);
  }

  /** Digits of x, most significant first, denote x. */
  lemma {:induction false} DigitsDenote(bits: seq<Share>, x: int, k: nat)
    requires k <= |bits| == L && 0 <= x < 0x1_0000_0000_0000_0000
    requires forall i :: 0 <= i < L ==> Value(bits[i]) == Shifted(x, L - 1 - i) % 2
    ensures Number(bits, k) == Shifted(x, L - k)
  {
    if k == 0 {
      PowerOfSixtyFour();
    } else {
      DigitsDenote(bits, x, k - 1);
      ShiftedAgain(x, L - k);
    }
  }

  lemma PowerOfSixtyFour()
    ensures Pow(2, L) == 0x1_0000_0000_0000_0000
  {
    var e := 8;
    assert Pow(2, 8) == 256;
    PowMul(2, 8, e);
    var b := Pow(2, 8);
    assert Pow(b, 8) == b * (b * (b * (b * (b * (b * (b * (b * Pow(b, 0))))))));
  }

  /** PFtoBS: bit shares of a public field element. */
  method PFtoBS(conf: Config, x: int, draws: seq<SharingDraw>) returns (bits: seq<Share>)
    requires conf.Valid() && IsRepresentation(x) && AreSharingDraws(conf, draws)
    ensures |bits| == L && AreBits(conf, bits) && Number(bits, L) == x
  {
    var zero := Everywhere(conf, 0);
    bits := seq(L, i => zero);
    var y := x;
    var i := L;
    while i > 0
      invariant 0 <= i <= L && |bits| == L && AreBits(conf, bits) && 0 <= y
      invariant y == Shifted(x, L - i)
      invariant forall j :: i <= j < L ==> Value(bits[j]) == Shifted(x, L - 1 - j) % 2
    {
      i := i - 1;
      var bit := ShareBit(conf, y % 2, draws[i]);
      bits := bits[i := bit];
      ShiftedAgain(x, L - 1 - i);
      y := y / 2;
    }
    DigitsDenote(bits, x, L);
  }
}
