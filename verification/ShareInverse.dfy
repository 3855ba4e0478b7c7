/**
 Share/Share.hpp, lines 347-369: the inverse of a shared field element.  The product with a random
 share is reconstructed by party spId alone, inverted there, and dealt out again.
 */
module ShareInverse {
  import opened NumberTheory
  import opened PrimeModulus
  import opened PrimeField
  import opened FieldShare
  import opened RandomBits

  /** Every party draws its summand from 1 up to 999. */
  predicate IsMask(conf: Config, r: Share) {
    IsShare(conf, r) && forall i :: 0 <= i < |r| ==> 1 <= r[i] <= 999
  }

  lemma {:induction false} MaskSum(r: Share, k: nat)
    requires k <= |r| && forall i :: 0 <= i < |r| ==> 1 <= r[i] <= 999
    ensures k <= SumTo(r, k) <= 999 * k
  {
    if k > 0 { MaskSum(r, k - 1); }
  }

  /** The masks of so few parties cannot wrap around to zero. */
  lemma MaskIsNonZero(conf: Config, r: Share)
    requires conf.Valid() && IsMask(conf, r)
    ensures 0 < Value(r)
  {
    MaskSum(r, |r|);
    ModSmall(SumTo(r, |r|), P);
  }

  lemma ProductNonZero(s: int, r: int, p: int)
    requires IsPrime(p) && 0 < s < p && 0 < r < p
    ensures (s * r) % p != 0
  {
    ModSmall(s, p);
    ModSmall(r, p);
    if (s * r) % p == 0 { NoZeroDivisors(s, r, p); }
  }

  lemma InverseThroughMask(s: int, r: int, uInverse: int, p: int)
    requires 0 < p && (((s * r) % p) * uInverse) % p == 1
    ensures (s * ((uInverse * r) % p)) % p == 1
  {
    ModMul(s * r, uInverse, p);
    ModMul(uInverse * r, s, p);
    Reorder(s, r, uInverse);
    Commute(s, (uInverse * r) % p);
  }

  lemma Commute(x: int, y: int)
    ensures x * y == y * x
  {
  }

  lemma Reorder(s: int, r: int, u: int)
    ensures (s * r) * u == (u * r) * s
  {
    assert (s * r) * u == s * (r * u);
  }

  /** getInv: a share of the inverse, or of zero for zero. */
  method GetShareInverse(conf: Config, s: Share, r: Share, pieces: seq<int>, t: Triple) returns (inverse: Share)
    requires conf.Valid() && IsShare(conf, s) && IsMask(conf, r) && IsTriple(conf, t)
    requires |pieces| == conf.nParties && forall i :: 0 <= i < |pieces| ==> IsRepresentation(pieces[i])
    ensures IsShare(conf, inverse)
    ensures Value(s) != 0 ==> (Value(s) * Value(inverse)) % P == 1
    ensures Value(s) == 0 ==> Value(inverse) == 0
  {
    MaskIsNonZero(conf, r);
    var u := Multiply(conf, s, r, t);
    var uRec := OpenRecons(conf, u);
    var uInverse := GetInv(uRec);
    inverse := Unmask(conf, uInverse, r, pieces, t);
    InverseCases(Value(s), Value(r), uRec, uInverse);
  }

  lemma InverseCases(s: int, r: int, u: int, uInverse: int)
    requires 0 <= s < P && 0 < r < P && u == (s * r) % P
    requires u % P != 0 ==> (u * uInverse) % P == 1
    requires u % P == 0 ==> uInverse == 0
    ensures s != 0 ==> (s * ((uInverse * r) % P)) % P == 1
    ensures s == 0 ==> (uInverse * r) % P == 0
  {
    ModSmall(u, P);
    if s != 0 {
      ModulusIsPrime();
      ProductNonZero(s, r, P);
      InverseThroughMask(s, r, uInverse, P);
    }
  }

  /** Dealing out the inverse of the masked element, and taking the mask off. */
  method Unmask(conf: Config, uInverse: int, r: Share, pieces: seq<int>, t: Triple) returns (inverse: Share)
    requires conf.Valid() && 0 <= uInverse < P && IsShare(conf, r) && IsTriple(conf, t)
    requires |pieces| == conf.nParties && forall i :: 0 <= i < |pieces| ==> IsRepresentation(pieces[i])
    ensures IsShare(conf, inverse) && Value(inverse) == (uInverse * Value(r)) % P
  {
    var dealt := Sharize(conf, uInverse, pieces);
    ModSmall(uInverse, P);
    inverse := Multiply(conf, dealt, r, t);
  }
}
