/**
 Share/Compare.cpp, lines 454-542: subPadding0 and subPrefixOr.  The 64 bits are split into
 eight blocks of eight; the first non-zero block is located, its own prefix OR is taken, and
 every position is then read off from its block.
 */
module PrefixOr {
  import opened NumberTheory
  import opened FieldShare
  import opened FanIn

  predicate HasOne(a: seq<Share>, lo: nat, hi: nat)
    requires hi <= |a|
  {
    exists k :: lo <= k < hi && Value(a[k]) == 1
  }

  /** Block i is the first one that is not all zero. */
  predicate IsFirst(a: seq<Share>, i: nat)
    requires LAMBDA * i + LAMBDA <= |a|
  {
    HasOne(a, LAMBDA * i, LAMBDA * i + LAMBDA) && !HasOne(a, 0, LAMBDA * i)
  }

  function FirstBlock(a: seq<Share>, count: nat): (i: nat)
    requires LAMBDA * count <= |a| && HasOne(a, 0, LAMBDA * count)
    ensures i < count && IsFirst(a, i)
  {
    if HasOne(a, 0, LAMBDA * (count - 1)) then FirstBlock(a, count - 1) else count - 1
  }

  lemma HasOneSplit(a: seq<Share>, lo: nat, mid: nat, hi: nat)
    requires lo <= mid <= hi <= |a|
    ensures HasOne(a, lo, hi) <==> HasOne(a, lo, mid) || HasOne(a, mid, hi)
  {
    if HasOne(a, lo, hi) {
      var k :| lo <= k < hi && Value(a[k]) == 1;
      assert k < mid || mid <= k;
    }
  }

  /** The first start entries of a, but at most 64, padded to 64 with shares of zero. */
  method Padding0(conf: Config, a: seq<Share>, start: nat) returns (ret: seq<Share>)
    requires Least(start, L) <= |a| && AreShares(conf, a)
    ensures |ret| == L && AreShares(conf, ret)
    ensures ret[..Least(start, L)] == a[..Least(start, L)]
    ensures forall i :: Least(start, L) <= i < L ==> Value(ret[i]) == 0
  {
    var zero := Everywhere(conf, 0);
    ret := seq(L, i => zero);
    for i := 0 to Least(start, L)
      invariant |ret| == L
      invariant forall j :: 0 <= j < L ==> ret[j] == if j < i then a[j] else zero
    {
      ret := ret[i := a[i]];
    }
  }

  predicate AreMaskSets(conf: Config, ms: seq<Masks>) {
    forall i :: 0 <= i < |ms| ==> AreMasks(conf, ms[i])
  }

  predicate AllUsable(conf: Config, ms: seq<Masks>) {
    AreMaskSets(conf, ms) && forall i :: 0 <= i < |ms| ==> Usable(ms[i])
  }

  /** The padding changes neither that all entries are bits nor whether some bit is one. */
  lemma PaddedBits(conf: Config, a: seq<Share>, ret: seq<Share>, start: nat)
    requires start <= |a| && start <= L && AreBits(conf, a) && |ret| == L && AreShares(conf, ret)
    requires ret[..start] == a[..start] && forall i :: start <= i < L ==> Value(ret[i]) == 0
    ensures AreBits(conf, ret) && (SomeOne(ret) <==> HasOne(a, 0, start))
  {
    forall i | 0 <= i < L ensures IsBit(Value(ret[i])) && (i < start ==> ret[i] == a[i]) {
      if i < start { assert ret[i] == ret[..start][i] == a[..start][i] == a[i]; }
    }
  }

  /** The OR of a[..start]: right exactly for usable masks. */
  method OrOfFirst(conf: Config, a: seq<Share>, start: nat, m: Masks) returns (ans: Share)
    requires conf.Valid() && start <= |a| && start <= L && AreBits(conf, a) && AreMasks(conf, m)
    ensures IsShare(conf, ans) && (Value(ans) == Bit(HasOne(a, 0, start)) <==> Usable(m))
  {
    var padded := Padding0(conf, a, start);
    PaddedBits(conf, a, padded, start);
    ans := FanInOr(conf, padded, m);
  }

  /** Step 1: the OR of each block. */
  method BlockOrs(conf: Config, a: seq<Share>, ms: seq<Masks>) returns (x: seq<Share>)
    requires conf.Valid() && |a| == L && AreBits(conf, a) && |ms| == LAMBDA && AreMaskSets(conf, ms)
    ensures |x| == LAMBDA && AreShares(conf, x)
    ensures forall i :: 0 <= i < LAMBDA ==>
              (Value(x[i]) == Bit(HasOne(a, LAMBDA * i, LAMBDA * i + LAMBDA)) <==> Usable(ms[i]))
  {
    x := [];
    for i := 0 to LAMBDA
      invariant |x| == i && AreShares(conf, x)
      invariant forall j :: 0 <= j < i ==>
        (Value(x[j]) == Bit(HasOne(a, LAMBDA * j, LAMBDA * j + LAMBDA)) <==> Usable(ms[j]))
    {
      var lo := LAMBDA * i;
      var block := a[lo..lo + LAMBDA];
      var or := OrOfFirst(conf, block, LAMBDA, ms[i]);
      assert HasOne(block, 0, LAMBDA) <==> HasOne(a, lo, lo + LAMBDA) by {
        if HasOne(a, lo, lo + LAMBDA) {
          var k :| lo <= k < lo + LAMBDA && Value(a[k]) == 1;
          assert block[k - lo] == a[k];
        }
      }
      x := x + [or];
    }
  }

  /** Steps 2 and 5: the OR of every prefix of eight bits. */
  method PrefixOrs(conf: Config, x: seq<Share>, ms: seq<Masks>) returns (y: seq<Share>)
    requires conf.Valid() && |x| == LAMBDA && AreBits(conf, x) && |ms| == LAMBDA && AreMaskSets(conf, ms)
    ensures |y| == LAMBDA && AreShares(conf, y)
    ensures forall i :: 0 <= i < LAMBDA ==> (Value(y[i]) == Bit(HasOne(x, 0, i + 1)) <==> Usable(ms[i]))
  {
    y := [];
    for i := 0 to LAMBDA
      invariant |y| == i && AreShares(conf, y)
      invariant forall j :: 0 <= j < i ==> (Value(y[j]) == Bit(HasOne(x, 0, j + 1)) <==> Usable(ms[j]))
    {
      var or := OrOfFirst(conf, x, i + 1, ms[i]);
      y := y + [or];
    }
  }

  lemma {:induction false} PrefixOfBlocks(a: seq<Share>, x: seq<Share>, i: nat)
    requires |a| == L && |x| == LAMBDA && i <= LAMBDA
    requires forall j :: 0 <= j < LAMBDA ==> Value(x[j]) == Bit(HasOne(a, LAMBDA * j, LAMBDA * j + LAMBDA))
    ensures HasOne(x, 0, i) <==> HasOne(a, 0, LAMBDA * i)
  {
    if i > 0 {
      PrefixOfBlocks(a, x, i - 1);
      HasOneSplit(x, 0, i - 1, i);
      HasOneSplit(a, 0, LAMBDA * (i - 1), LAMBDA * i);
      assert HasOne(x, i - 1, i) <==> Value(x[i - 1]) == 1;
    }
  }

  method LocateBlock(conf: Config, a: seq<Share>, i: nat, x: Share, y: Share, before: Share)
    returns (fi: Share, si: Share)
    requires |a| == L && i < LAMBDA && IsShare(conf, x) && IsShare(conf, y) && IsShare(conf, before)
    requires Value(x) == Bit(HasOne(a, LAMBDA * i, LAMBDA * i + LAMBDA))
    requires Value(y) == Bit(HasOne(a, 0, LAMBDA * i + LAMBDA))
    requires i > 0 ==> Value(before) == Bit(HasOne(a, 0, LAMBDA * i))
    ensures IsShare(conf, fi) && IsShare(conf, si)
    ensures Value(fi) == Bit(IsFirst(a, i)) && Value(si) == Bit(HasOne(a, 0, LAMBDA * i))
  {
    HasOneSplit(a, 0, LAMBDA * i, LAMBDA * i + LAMBDA);
    if i == 0 {
      fi := x;
    } else {
      fi := Subtract(conf, y, before);
    }
    si := Subtract(conf, y, fi);
  }

  /** Steps 3 and 6: f is one exactly at the first non-zero block, s after it. */
  method Locate(conf: Config, a: seq<Share>, x: seq<Share>, y: seq<Share>)
    returns (f: seq<Share>, s: seq<Share>)
    requires |a| == L && |x| == |y| == LAMBDA && AreBits(conf, x) && AreBits(conf, y)
    requires forall i :: 0 <= i < LAMBDA ==> Value(x[i]) == Bit(HasOne(a, LAMBDA * i, LAMBDA * i + LAMBDA))
    requires forall i :: 0 <= i < LAMBDA ==> Value(y[i]) == Bit(HasOne(x, 0, i + 1))
    ensures |f| == |s| == LAMBDA && AreBits(conf, f) && AreBits(conf, s)
    ensures forall i :: 0 <= i < LAMBDA ==> Value(f[i]) == Bit(IsFirst(a, i))
    ensures forall i :: 0 <= i < LAMBDA ==> Value(s[i]) == Bit(HasOne(a, 0, LAMBDA * i))
  {
    f, s := [], [];
    for i := 0 to LAMBDA
      invariant |f| == |s| == i && AreBits(conf, f) && AreBits(conf, s)
      invariant forall j :: 0 <= j < i ==> Value(f[j]) == Bit(IsFirst(a, j))
      invariant forall j :: 0 <= j < i ==> Value(s[j]) == Bit(HasOne(a, 0, LAMBDA * j))
    {
      PrefixOfBlocks(a, x, i);
      PrefixOfBlocks(a, x, i + 1);
      var before := if i > 0 then y[i - 1] else y[0];
      var fi, si := LocateBlock(conf, a, i, x[i], y[i], before);
      f := f + [fi];
      s := s + [si];
    }
  }

  /** Bit j of the first non-zero block, or zero when there is none. */
  function FirstBlockBit(a: seq<Share>, count: nat, j: nat): int
    requires |a| == L && count <= LAMBDA && j < LAMBDA
  {
    if HasOne(a, 0, LAMBDA * count) then Value(a[LAMBDA * FirstBlock(a, count) + j]) else 0
  }

  lemma FirstBlockStep(a: seq<Share>, i: nat, j: nat)
    requires |a| == L && i < LAMBDA && j < LAMBDA
    ensures FirstBlockBit(a, i + 1, j)
         == FirstBlockBit(a, i, j) + if IsFirst(a, i) then Value(a[LAMBDA * i + j]) else 0
  {
    HasOneSplit(a, 0, LAMBDA * i, LAMBDA * (i + 1));
  }

  lemma FirstBlockBitIsBit(conf: Config, a: seq<Share>, count: nat, j: nat)
    requires |a| == L && AreBits(conf, a) && count <= LAMBDA && j < LAMBDA
    ensures IsBit(FirstBlockBit(a, count, j))
  {
  }

  /** sum + x * y for a bit x, when the result is a bit. */
  method AddProduct(conf: Config, sum: Share, x: Share, y: Share, t: Triple) returns (z: Share)
    requires conf.Valid() && IsShare(conf, sum) && IsShare(conf, x) && IsShare(conf, y) && IsTriple(conf, t)
    requires IsBit(Value(x)) && IsBit(Value(y))
    requires IsBit(Value(sum) + if Value(x) == 1 then Value(y) else 0)
    ensures IsShare(conf, z) && Value(z) == Value(sum) + if Value(x) == 1 then Value(y) else 0
  {
    var product := Multiply(conf, x, y, t);
    z := Add(conf, sum, product);
  }

  /** The inner product of f with one column. */
  method SelectColumn(conf: Config, a: seq<Share>, f: seq<Share>, t: Triple, j: nat) returns (sum: Share)
    requires conf.Valid() && |a| == L && AreBits(conf, a) && IsTriple(conf, t) && j < LAMBDA
    requires |f| == LAMBDA && AreBits(conf, f)
    requires forall i :: 0 <= i < LAMBDA ==> Value(f[i]) == Bit(IsFirst(a, i))
    ensures IsShare(conf, sum) && Value(sum) == FirstBlockBit(a, LAMBDA, j) && IsBit(Value(sum))
  {
    sum := Everywhere(conf, 0);
    for i := 0 to LAMBDA
      invariant IsShare(conf, sum) && Value(sum) == FirstBlockBit(a, i, j)
    {
      FirstBlockStep(a, i, j);
      FirstBlockBitIsBit(conf, a, i + 1, j);
      sum := AddProduct(conf, sum, f[i], a[LAMBDA * i + j], t);
    }
    FirstBlockBitIsBit(conf, a, LAMBDA, j);
  }

  /** Step 4: the inner products of f with the columns. */
  method SelectBlock(conf: Config, a: seq<Share>, f: seq<Share>, t: Triple) returns (selected: seq<Share>)
    requires conf.Valid() && |a| == L && AreBits(conf, a) && IsTriple(conf, t)
    requires |f| == LAMBDA && AreBits(conf, f)
    requires forall i :: 0 <= i < LAMBDA ==> Value(f[i]) == Bit(IsFirst(a, i))
    ensures |selected| == LAMBDA && AreBits(conf, selected)
    ensures forall j :: 0 <= j < LAMBDA ==> Value(selected[j]) == FirstBlockBit(a, LAMBDA, j)
  {
    selected := [];
    for j := 0 to LAMBDA
      invariant |selected| == j && AreBits(conf, selected)
      invariant forall k :: 0 <= k < j ==> Value(selected[k]) == FirstBlockBit(a, LAMBDA, k)
    {
      var sum := SelectColumn(conf, a, f, t, j);
      assert IsBit(Value(sum));
      selected := selected + [sum];
    }
  }

  lemma {:induction false} FirstBlockBitAt(a: seq<Share>, count: nat, i: nat, j: nat)
    requires |a| == L && i < count <= LAMBDA && j < LAMBDA && IsFirst(a, i)
    ensures FirstBlockBit(a, count, j) == Value(a[LAMBDA * i + j])
    decreases count
  {
    HasOneSplit(a, 0, LAMBDA * i, LAMBDA * i + LAMBDA);
    HasOneSplit(a, 0, LAMBDA * i + LAMBDA, LAMBDA * count);
    if i < count - 1 {
      HasOneSplit(a, 0, LAMBDA * i + LAMBDA, LAMBDA * (count - 1));
      FirstBlockBitAt(a, count - 1, i, j);
    }
  }

  /** Within the first non-zero block, the selected bits have the same prefixes as the block. */
  lemma SelectedPrefix(a: seq<Share>, selected: seq<Share>, i: nat, j: nat)
    requires |a| == L && i < LAMBDA && j < LAMBDA && IsFirst(a, i)
    requires |selected| == LAMBDA && forall k :: 0 <= k < LAMBDA ==> Value(selected[k]) == FirstBlockBit(a, LAMBDA, k)
    ensures HasOne(selected, 0, j + 1) <==> HasOne(a, LAMBDA * i, LAMBDA * i + j + 1)
  {
    forall k | 0 <= k < LAMBDA ensures Value(selected[k]) == Value(a[LAMBDA * i + k]) {
      FirstBlockBitAt(a, LAMBDA, i, k);
    }
    if HasOne(a, LAMBDA * i, LAMBDA * i + j + 1) {
      var k :| LAMBDA * i <= k < LAMBDA * i + j + 1 && Value(a[k]) == 1;
      assert Value(selected[k - LAMBDA * i]) == 1;
    }
  }

  /** The prefix OR read off at position j of block i. */
  lemma ReadOff(a: seq<Share>, selected: seq<Share>, i: nat, j: nat)
    requires |a| == L && i < LAMBDA && j < LAMBDA
    requires |selected| == LAMBDA && forall k :: 0 <= k < LAMBDA ==> Value(selected[k]) == FirstBlockBit(a, LAMBDA, k)
    ensures HasOne(a, 0, LAMBDA * i + j + 1)
       <==> (IsFirst(a, i) && HasOne(selected, 0, j + 1)) || HasOne(a, 0, LAMBDA * i)
  {
    var lo := LAMBDA * i;
    HasOneSplit(a, 0, lo, lo + j + 1);
    HasOneSplit(a, lo, lo + j + 1, lo + LAMBDA);
    if IsFirst(a, i) { SelectedPrefix(a, selected, i, j); }
  }

  /** Step 7 for one position. */
  method ReadPosition(conf: Config, a: seq<Share>, selected: seq<Share>, i: nat, j: nat,
                      f: Share, b: Share, s: Share, t: Triple) returns (bit: Share)
    requires conf.Valid() && |a| == L && i < LAMBDA && j < LAMBDA && IsTriple(conf, t)
    requires |selected| == LAMBDA && forall k :: 0 <= k < LAMBDA ==> Value(selected[k]) == FirstBlockBit(a, LAMBDA, k)
    requires IsShare(conf, f) && IsShare(conf, b) && IsShare(conf, s)
    requires Value(f) == Bit(IsFirst(a, i)) && Value(s) == Bit(HasOne(a, 0, LAMBDA * i))
    requires Value(b) == Bit(HasOne(selected, 0, j + 1))
    ensures IsShare(conf, bit) && Value(bit) == Bit(HasOne(a, 0, LAMBDA * i + j + 1))
  {
    ReadOff(a, selected, i, j);
    bit := Multiply(conf, f, b, t);
    bit := Add(conf, bit, s);
  }

  /** subPrefixOr: every position holds the OR of all positions up to it. */
  method SubPrefixOr(conf: Config, a: seq<Share>, ms: seq<Masks>) returns (ret: seq<Share>)
    requires conf.Valid() && |a| == L && AreBits(conf, a)
    requires |ms| == 3 * LAMBDA && AllUsable(conf, ms)
    ensures |ret| == L && AreBits(conf, ret)
    ensures forall k :: 0 <= k < L ==> Value(ret[k]) == Bit(HasOne(a, 0, k + 1))
  {
    var t := ConstantTriple(conf);
    var x := BlockOrs(conf, a, ms[..LAMBDA]);
    var y := PrefixOrs(conf, x, ms[LAMBDA..2 * LAMBDA]);
    var f, s := Locate(conf, a, x, y);
    var selected := SelectBlock(conf, a, f, t);
    var b := PrefixOrs(conf, selected, ms[2 * LAMBDA..]);
    ret := [];
    for i := 0 to LAMBDA
      invariant |ret| == LAMBDA * i && AreBits(conf, ret)
      invariant forall k :: 0 <= k < |ret| ==> Value(ret[k]) == Bit(HasOne(a, 0, k + 1))
    {
      for j := 0 to LAMBDA
        invariant |ret| == LAMBDA * i + j && AreBits(conf, ret)
        invariant forall k :: 0 <= k < |ret| ==> Value(ret[k]) == Bit(HasOne(a, 0, k + 1))
      {
        var bit := ReadPosition(conf, a, selected, i, j, f[i], b[j], s[i], t);
        ret := ret + [bit];
      }
    }
  }
}
