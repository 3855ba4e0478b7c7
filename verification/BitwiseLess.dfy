/** Share/Compare.cpp, lines 544-577: the order of two numbers given bit by bit. */
module BitwiseLess {
  import opened NumberTheory
  import opened PrimeModulus
  import opened FieldShare
  import opened FanIn
  import opened PrefixOr
  import opened RandomBits

  /** c marks the positions where a and b differ. */
  predicate Differs(a: seq<Share>, b: seq<Share>, c: seq<Share>) {
    |a| == |b| == |c| == L
    && forall i :: 0 <= i < L ==> Value(c[i]) == Bit(Value(a[i]) != Value(b[i]))
  }

  method XorAll(conf: Config, a: seq<Share>, b: seq<Share>, t: Triple) returns (c: seq<Share>)
    requires conf.Valid() && |a| == |b| == L && AreBits(conf, a) && AreBits(conf, b) && IsTriple(conf, t)
    ensures |c| == L && AreBits(conf, c) && Differs(a, b, c)
  {
    var ab := MultiplyAll(conf, a, b, t);
    c := [];
    for i := 0 to L
      invariant |c| == i && AreBits(conf, c)
      invariant forall j :: 0 <= j < i ==> Value(c[j]) == Bit(Value(a[j]) != Value(b[j]))
    {
      var x := Xor(conf, a[i], b[i], ab.value[i]);
      c := c + [x];
    }
  }

  method Xor(conf: Config, a: Share, b: Share, ab: Share) returns (x: Share)
    requires IsShare(conf, a) && IsShare(conf, b) && IsShare(conf, ab)
    requires IsBit(Value(a)) && IsBit(Value(b)) && Value(ab) == (Value(a) * Value(b)) % P
    ensures IsShare(conf, x) && Value(x) == Bit(Value(a) != Value(b))
  {
    var sum := Add(conf, a, b);
    var twice := Scale(conf, 2, ab);
    x := Subtract(conf, sum, twice);
  }

  /** No difference before position k means equal prefixes. */
  lemma NoDifference(conf: Config, a: seq<Share>, b: seq<Share>, c: seq<Share>, k: nat)
    requires AreBits(conf, a) && AreBits(conf, b) && Differs(a, b, c) && k <= L
    ensures HasOne(c, 0, k) <==> Number(a, k) != Number(b, k)
  {
    NumberUnique(conf, a, b, k);
  }

  /** Step 3: d is the OR up to i, before the OR up to i - 1. */
  method FirstOneAt(conf: Config, c: seq<Share>, i: nat, d: Share, before: Share) returns (e: Share)
    requires i < |c| == L && AreBits(conf, c) && IsShare(conf, d) && IsShare(conf, before)
    requires Value(d) == Bit(HasOne(c, 0, i + 1)) && (i > 0 ==> Value(before) == Bit(HasOne(c, 0, i)))
    ensures IsShare(conf, e) && Value(e) == Bit(Value(c[i]) == 1 && !HasOne(c, 0, i))
  {
    HasOneSplit(c, 0, i, i + 1);
    assert HasOne(c, i, i + 1) <==> Value(c[i]) == 1;
    e := d;
    if i > 0 { e := Subtract(conf, d, before); }
  }

  method FirstDifference(conf: Config, c: seq<Share>, d: seq<Share>) returns (e: seq<Share>)
    requires |c| == |d| == L && AreBits(conf, c) && AreBits(conf, d)
    requires forall k :: 0 <= k < L ==> Value(d[k]) == Bit(HasOne(c, 0, k + 1))
    ensures |e| == L && AreBits(conf, e)
    ensures forall k :: 0 <= k < L ==> Value(e[k]) == Bit(Value(c[k]) == 1 && !HasOne(c, 0, k))
  {
    e := [];
    for i := 0 to L
      invariant |e| == i && AreBits(conf, e)
      invariant forall k :: 0 <= k < i ==> Value(e[k]) == Bit(Value(c[k]) == 1 && !HasOne(c, 0, k))
    {
      var ei := FirstOneAt(conf, c, i, d[i], d[if i > 0 then i - 1 else 0]);
      e := e + [ei];
    }
  }

  /** One more position: the selected bit of b decides at the first difference. */
  lemma LessStep(conf: Config, a: seq<Share>, b: seq<Share>, c: seq<Share>, k: nat)
    requires AreBits(conf, a) && AreBits(conf, b) && Differs(a, b, c) && k < L
    ensures Bit(Number(a, k + 1) < Number(b, k + 1))
         == Bit(Number(a, k) < Number(b, k))
            + Bit(Value(c[k]) == 1 && !HasOne(c, 0, k)) * Value(b[k])
  {
    NoDifference(conf, a, b, c, k);
    assert IsBit(Value(a[k])) && IsBit(Value(b[k]));
  }

  /** subBitwiseLessThan: a share of [a < b] for the numbers that the bits denote. */
  method SubBitwiseLessThan(conf: Config, a: seq<Share>, b: seq<Share>, ms: seq<Masks>) returns (ret: Share)
    requires conf.Valid() && |a| == |b| == L && AreBits(conf, a) && AreBits(conf, b)
    requires |ms| == 3 * LAMBDA && AllUsable(conf, ms)
    ensures IsShare(conf, ret) && Value(ret) == Bit(Number(a, L) < Number(b, L))
  {
    var t := ConstantTriple(conf);
    var c := XorAll(conf, a, b, t);
    var d := SubPrefixOr(conf, c, ms);
    var e := FirstDifference(conf, c, d);
    var eb := MultiplyAll(conf, e, b, t);
    ret := Everywhere(conf, 0);
    for i := 0 to L
      invariant IsShare(conf, ret) && Value(ret) == Bit(Number(a, i) < Number(b, i))
    {
      LessStep(conf, a, b, c, i);
      ret := AddBitProduct(conf, ret, eb.value[i], Value(e[i]), Value(b[i]));
    }
  }

  method AddBitProduct(conf: Config, sum: Share, product: Share, ghost x: int, ghost y: int) returns (z: Share)
    requires IsShare(conf, sum) && IsShare(conf, product) && IsBit(x) && IsBit(y)
    requires Value(product) == (x * y) % P && IsBit(Value(sum) + x * y)
    ensures IsShare(conf, z) && Value(z) == Value(sum) + x * y
  {
    z := Add(conf, sum, product);
  }
}
