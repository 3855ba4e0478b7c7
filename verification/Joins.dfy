/**
 Client/ComputationToDbGate/ValueTable.cpp: joining tables of shares.  The map lookup over opened
 ids (hjoin) and the merge over shared ids (hjoinShare) are compared, and every cell of a joined
 table is traced back to a column of the same name.
 */
module Joins {
  import opened Options
  import opened FixedPoint
  import opened FixedShare
  import opened LowBits
  import opened SignTests

  datatype ValueTable = ValueTable(table: seq<seq<Share>>, schemas: seq<string>)

  /** LessFloat: keys closer than 0.00001 are the same key. */
  const TOLERANCE: int := 1000

  predicate SameId(x: int, y: int) {
    !(x < y - TOLERANCE) && !(y < x - TOLERANCE)
  }

  predicate SameName(x: string, y: string) {
    x == y
  }

  // ---------- index functions ----------

  /** The first of the keys that is the same as x. */
  function Find<T>(v: seq<T>, keys: seq<nat>, x: T, same: (T, T) -> bool): (r: Option<nat>)
    requires forall k :: 0 <= k < |keys| ==> keys[k] < |v|
    ensures r.Some? ==> r.value < |v| && same(v[r.value], x)
  {
    if |keys| == 0 then None
    else
      var r := Find(v, keys[..|keys| - 1], x, same);
      if r.None? && same(v[keys[|keys| - 1]], x) then Some(keys[|keys| - 1]) else r
  }

  /** The positions whose values a map or set takes in: emplace keeps the first of equal keys. */
  function Keys<T>(v: seq<T>, n: nat, same: (T, T) -> bool): (keys: seq<nat>)
    requires n <= |v|
    ensures forall k :: 0 <= k < |keys| ==> keys[k] < n
  {
    if n == 0 then []
    else
      var keys := Keys(v, n - 1, same);
      if Find(v, keys, v[n - 1], same).None? then keys + [n - 1] else keys
  }

  function Lookup<T>(v: seq<T>, x: T, same: (T, T) -> bool): (r: Option<nat>)
    ensures r.Some? ==> r.value < |v| && same(v[r.value], x)
  {
    Find(v, Keys(v, |v|, same), x, same)
  }

  /** Pairs of a position in v1, in order, and the position that the map of v2 holds for its value. */
  function Intersection<T>(v1: seq<T>, v2: seq<T>, n: nat, same: (T, T) -> bool): seq<(nat, nat)>
    requires n <= |v1|
  {
    if n == 0 then []
    else
      var found := Lookup(v2, v1[n - 1], same);
      Intersection(v1, v2, n - 1, same) + if found.Some? then [(n - 1, found.value)] else []
  }

  /** The positions below n in v2 whose values are not in v1. */
  function Extra<T>(v1: seq<T>, v2: seq<T>, n: nat, same: (T, T) -> bool): seq<nat>
    requires n <= |v2|
  {
    if n == 0 then []
    else Extra(v1, v2, n - 1, same) + if Lookup(v1, v2[n - 1], same).None? then [n - 1] else []
  }

  method IntersectionValueIndex<T>(v1: seq<T>, v2: seq<T>, same: (T, T) -> bool) returns (pairs: seq<(nat, nat)>)
    ensures pairs == Intersection(v1, v2, |v1|, same)
  {
    var keys := [];
    for i := 0 to |v2|
      invariant keys == Keys(v2, i, same)
    {
      if Find(v2, keys, v2[i], same).None? { keys := keys + [i]; }
    }
    pairs := [];
    for i := 0 to |v1|
      invariant pairs == Intersection(v1, v2, i, same)
    {
      var found := Find(v2, keys, v1[i], same);
      if found.Some? { pairs := pairs + [(i, found.value)]; }
    }
  }

  method UnionValueIndex<T>(v1: seq<T>, v2: seq<T>, same: (T, T) -> bool) returns (extra: seq<nat>)
    ensures extra == Extra(v1, v2, |v2|, same)
  {
    var keys := [];
    for i := 0 to |v1|
      invariant keys == Keys(v1, i, same)
    {
      if Find(v1, keys, v1[i], same).None? { keys := keys + [i]; }
    }
    extra := [];
    for i := 0 to |v2|
      invariant extra == Extra(v1, v2, i, same)
    {
      if Find(v1, keys, v2[i], same).None? { extra := extra + [i]; }
    }
  }

  /** What == between two shares of these numbers answers for up to eight parties. */
  predicate SameOpened(x: int, y: int) {
    Within(x, y, 762)
  }

  /** The two-pointer merge from positions i1 and i2 on. */
  function Merged(v1: seq<int>, v2: seq<int>, i1: nat, i2: nat): seq<(nat, nat)>
    requires i1 <= |v1| && i2 <= |v2|
    decreases |v1| - i1 + |v2| - i2
  {
    if i1 == |v1| || i2 == |v2| then []
    else if SameOpened(v1[i1], v2[i2]) then [(i1, i2)] + Merged(v1, v2, i1 + 1, i2 + 1)
    else if v1[i1] < v2[i2] then Merged(v1, v2, i1 + 1, i2)
    else Merged(v1, v2, i1, i2 + 1)
  }

  /** From nine parties on, any two ids are equal or far enough apart for the comparison of shares. */
  predicate Comparable(conf: Config, v1: seq<int>, v2: seq<int>) {
    conf.nParties <= 8
    || forall i, j :: 0 <= i < |v1| && 0 <= j < |v2| ==> v1[i] == v2[j] || !Within(v1[i], v2[j], 770)
  }

  function OpenedIds(ids: seq<Share>): seq<int> {
    seq(|ids|, i requires 0 <= i < |ids| => Opened(ids[i]))
  }

  /** The draws of one round of the merge: two sign tests for ==, one for <. */
  datatype MergeDraw = MergeDraw(first: seq<LowDraw>, second: seq<LowDraw>, less: seq<LowDraw>)

  predicate AreMergeDraws(conf: Config, draws: seq<MergeDraw>, rounds: nat) {
    |draws| == rounds
    && forall i :: 0 <= i < rounds ==>
         AreLowDraws(conf, draws[i].first, K) && AreLowDraws(conf, draws[i].second, K) && AreLowDraws(conf, draws[i].less, K)
  }

  /** intersectionSortedValueIndex over shares: == and < are the secure comparisons. */
  method IntersectionSortedValueIndex(conf: Config, v1: seq<Share>, v2: seq<Share>, draws: seq<MergeDraw>)
    returns (pairs: seq<(nat, nat)>)
    requires IsSetup(conf) && AreShares(conf, v1) && AreShares(conf, v2)
    requires Comparable(conf, OpenedIds(v1), OpenedIds(v2)) && AreMergeDraws(conf, draws, |v1| + |v2|)
    ensures pairs == Merged(OpenedIds(v1), OpenedIds(v2), 0, 0)
  {
    var i1, i2 := 0, 0;
    pairs := [];
    ghost var ids1, ids2 := OpenedIds(v1), OpenedIds(v2);
    while i1 < |v1| && i2 < |v2|
      invariant i1 <= |v1| && i2 <= |v2|
      invariant Merged(ids1, ids2, 0, 0) == pairs + Merged(ids1, ids2, i1, i2)
      decreases |v1| - i1 + |v2| - i2
    {
      var equal, less := CompareIds(conf, v1[i1], v2[i2], draws[i1 + i2]);
      MergeStep(ids1, ids2, i1, i2, pairs);
      if equal {
        pairs := pairs + [(i1, i2)];
        i1, i2 := i1 + 1, i2 + 1;
      } else if less {
        i1 := i1 + 1;
      } else {
        i2 := i2 + 1;
      }
    }
  }

  lemma MergeStep(v1: seq<int>, v2: seq<int>, i1: nat, i2: nat, pairs: seq<(nat, nat)>)
    requires i1 < |v1| && i2 < |v2|
    ensures pairs + Merged(v1, v2, i1, i2)
         == if SameOpened(v1[i1], v2[i2]) then (pairs + [(i1, i2)]) + Merged(v1, v2, i1 + 1, i2 + 1)
            else if v1[i1] < v2[i2] then pairs + Merged(v1, v2, i1 + 1, i2)
            else pairs + Merged(v1, v2, i1, i2 + 1)
  {
  }

  method CompareIds(conf: Config, x: Share, y: Share, draw: MergeDraw) returns (equal: bool, less: bool)
    requires IsSetup(conf) && IsShare(conf, x) && IsShare(conf, y)
    requires conf.nParties <= 8 || Opened(x) == Opened(y) || !Within(Opened(x), Opened(y), 770)
    requires AreLowDraws(conf, draw.first, K) && AreLowDraws(conf, draw.second, K) && AreLowDraws(conf, draw.less, K)
    ensures equal <==> SameOpened(Opened(x), Opened(y))
    ensures !equal ==> (less <==> Opened(x) < Opened(y))
  {
    var isEqual := EqualTo(conf, x, y, draw.first, draw.second);
    var isLess := LessThan(conf, x, y, draw.less);
    equal, less := isEqual.holds, isLess.holds;
  }

  // ---------- keys and lookups under an equality ----------

  /** On these values the comparison of keys is equality. */
  predicate IsEquality<T(==)>(v: seq<T>, x: T, same: (T, T) -> bool) {
    forall i :: 0 <= i < |v| ==> (same(v[i], x) <==> v[i] == x)
  }

  lemma {:induction false} FindNone<T>(v: seq<T>, keys: seq<nat>, x: T, same: (T, T) -> bool)
    requires forall k :: 0 <= k < |keys| ==> keys[k] < |v|
    ensures Find(v, keys, x, same).None? <==> forall k :: 0 <= k < |keys| ==> !same(v[keys[k]], x)
  {
    if |keys| > 0 { FindNone(v, keys[..|keys| - 1], x, same); }
  }

  /** The keys hold every value once. */
  lemma {:induction false} KeyOf<T>(v: seq<T>, n: nat, i: nat, same: (T, T) -> bool) returns (k: nat)
    requires i < n <= |v| && forall j :: 0 <= j < |v| ==> IsEquality(v, v[j], same)
    ensures k < |Keys(v, n, same)| && v[Keys(v, n, same)[k]] == v[i]
  {
    var keys := Keys(v, n - 1, same);
    FindNone(v, keys, v[n - 1], same);
    assert IsEquality(v, v[n - 1], same);
    if i < n - 1 {
      k := KeyOf(v, n - 1, i, same);
    } else if Find(v, keys, v[n - 1], same).None? {
      k := |keys|;
    } else {
      k :| 0 <= k < |keys| && same(v[keys[k]], v[n - 1]);
    }
  }

  /** A value that is looked up is found exactly when it is there. */
  lemma LookupFinds<T>(v: seq<T>, x: T, same: (T, T) -> bool)
    requires IsEquality(v, x, same) && forall j :: 0 <= j < |v| ==> IsEquality(v, v[j], same)
    ensures Lookup(v, x, same).None? <==> x !in v
  {
    var keys := Keys(v, |v|, same);
    FindNone(v, keys, x, same);
    if x in v {
      var i :| 0 <= i < |v| && v[i] == x;
      var k := KeyOf(v, |v|, i, same);
      assert same(v[keys[k]], x);
    }
  }

  /** A key stands at the first position of its value. */
  lemma {:induction false} KeysAreFirst<T>(v: seq<T>, n: nat, k: nat, i: nat, same: (T, T) -> bool)
    requires n <= |v| && k < |Keys(v, n, same)| && i < Keys(v, n, same)[k]
    requires forall j :: 0 <= j < |v| ==> IsEquality(v, v[j], same)
    ensures v[i] != v[Keys(v, n, same)[k]]
  {
    var keys := Keys(v, n - 1, same);
    if k < |keys| {
      KeysAreFirst(v, n - 1, k, i, same);
    } else {
      FindNone(v, keys, v[n - 1], same);
      assert IsEquality(v, v[n - 1], same);
      var l := KeyOf(v, n - 1, i, same);
    }
  }

  lemma {:induction false} FindIsKey<T>(v: seq<T>, keys: seq<nat>, x: T, same: (T, T) -> bool)
    requires forall k :: 0 <= k < |keys| ==> keys[k] < |v|
    ensures Find(v, keys, x, same).Some? ==> Find(v, keys, x, same).value in keys
  {
    if |keys| > 0 { FindIsKey(v, keys[..|keys| - 1], x, same); }
  }

  /** And it is found at its first position. */
  lemma LookupIsFirst<T>(v: seq<T>, x: T, same: (T, T) -> bool)
    requires IsEquality(v, x, same) && forall j :: 0 <= j < |v| ==> IsEquality(v, v[j], same)
    ensures var found := Lookup(v, x, same);
            found.Some? ==> v[found.value] == x && forall i :: 0 <= i < found.value ==> v[i] != x
  {
    var keys, found := Keys(v, |v|, same), Lookup(v, x, same);
    if found.Some? {
      FindIsKey(v, keys, x, same);
      var k :| 0 <= k < |keys| && keys[k] == found.value;
      forall i | 0 <= i < found.value ensures v[i] != x {
        KeysAreFirst(v, |v|, k, i, same);
      }
    }
  }

  predicate IsFirst<T(==)>(v: seq<T>, j: nat) {
    j < |v| && forall i :: 0 <= i < j ==> v[i] != v[j]
  }

  /** The pairs are exactly the positions in v1 with the first position of the same value in v2. */
  lemma {:induction false} IntersectionMeans<T>(v1: seq<T>, v2: seq<T>, n: nat, i: nat, j: nat, same: (T, T) -> bool)
    requires n <= |v1| && i < |v1| && j < |v2|
    requires forall k :: 0 <= k < |v1| ==> IsEquality(v2, v1[k], same)
    requires forall k :: 0 <= k < |v2| ==> IsEquality(v2, v2[k], same)
    ensures (i, j) in Intersection(v1, v2, n, same) <==> i < n && v1[i] == v2[j] && IsFirst(v2, j)
  {
    if n > 0 {
      IntersectionMeans(v1, v2, n - 1, i, j, same);
      LookupFinds(v2, v1[n - 1], same);
      LookupIsFirst(v2, v1[n - 1], same);
    }
  }

  predicate InOrder(pairs: seq<(nat, nat)>) {
    forall k, l :: 0 <= k < l < |pairs| ==> pairs[k].0 < pairs[l].0
  }

  lemma {:induction false} IntersectionOrdered<T>(v1: seq<T>, v2: seq<T>, n: nat, same: (T, T) -> bool)
    requires n <= |v1|
    ensures InOrder(Intersection(v1, v2, n, same))
    ensures forall k :: 0 <= k < |Intersection(v1, v2, n, same)| ==> Intersection(v1, v2, n, same)[k].0 < n
  {
    if n > 0 { IntersectionOrdered(v1, v2, n - 1, same); }
  }

  /** The extra positions are exactly those of values that v1 does not have. */
  lemma {:induction false} ExtraMeans<T>(v1: seq<T>, v2: seq<T>, n: nat, j: nat, same: (T, T) -> bool)
    requires n <= |v2| && j < |v2|
    requires forall i :: 0 <= i < |v1| ==> IsEquality(v1, v1[i], same)
    requires forall i :: 0 <= i < |v2| ==> IsEquality(v1, v2[i], same)
    ensures j in Extra(v1, v2, n, same) <==> j < n && v2[j] !in v1
  {
    if n > 0 {
      ExtraMeans(v1, v2, n - 1, j, same);
      LookupFinds(v1, v2[n - 1], same);
    }
  }

  /** They are listed in order. */
  lemma {:induction false} ExtraOrdered<T>(v1: seq<T>, v2: seq<T>, n: nat, same: (T, T) -> bool)
    requires n <= |v2|
    ensures forall k, l :: 0 <= k < l < |Extra(v1, v2, n, same)| ==> Extra(v1, v2, n, same)[k] < Extra(v1, v2, n, same)[l]
    ensures forall k :: 0 <= k < |Extra(v1, v2, n, same)| ==> Extra(v1, v2, n, same)[k] < n
  {
    if n > 0 { ExtraOrdered(v1, v2, n - 1, same); }
  }

  // ---------- merge and lookup agree ----------

  predicate StrictlyIncreasing(v: seq<int>) {
    forall i, j :: 0 <= i < j < |v| ==> v[i] < v[j]
  }

  /** Ids, within a table and across the two, are equal or more than the tolerance apart. */
  predicate Apart(v1: seq<int>, v2: seq<int>) {
    forall i, j :: 0 <= i < |v1| && 0 <= j < |v2| ==> v1[i] == v2[j] || !Within(v1[i], v2[j], TOLERANCE)
  }

  /** In spaced ids the map holds an id of the other table exactly at its own position. */
  lemma LookupIsSearch(v1: seq<int>, v2: seq<int>, i: nat)
    requires i < |v1| && StrictlyIncreasing(v2) && Apart(v2, v2) && Apart(v2, v1)
    ensures var found := Lookup(v2, v1[i], SameId);
            && (found.None? <==> forall j :: 0 <= j < |v2| ==> v2[j] != v1[i])
            && (found.Some? ==> v2[found.value] == v1[i])
  {
    forall j | 0 <= j < |v2| ensures IsEquality(v2, v2[j], SameId) {
    }
    assert IsEquality(v2, v1[i], SameId);
    LookupFinds(v2, v1[i], SameId);
  }

  /** Where the merge stands: everything in v2 before i2 is below everything in v1 from i1 on. */
  predicate Passed(v1: seq<int>, v2: seq<int>, i1: nat, i2: nat) {
    i1 <= |v1| && i2 <= |v2| && forall i, j :: i1 <= i < |v1| && 0 <= j < i2 ==> v2[j] < v1[i]
  }

  lemma FoundAt(v1: seq<int>, v2: seq<int>, i1: nat, i2: nat)
    requires i1 < |v1| && i2 < |v2| && v1[i1] == v2[i2]
    requires StrictlyIncreasing(v2) && Apart(v2, v2) && Apart(v2, v1)
    ensures Lookup(v2, v1[i1], SameId) == Some(i2)
  {
    LookupIsSearch(v1, v2, i1);
  }

  lemma NotFound(v1: seq<int>, v2: seq<int>, i1: nat, i2: nat)
    requires i1 < |v1| && Passed(v1, v2, i1, i2) && (i2 < |v2| ==> v1[i1] < v2[i2])
    requires StrictlyIncreasing(v2) && Apart(v2, v2) && Apart(v2, v1)
    ensures Lookup(v2, v1[i1], SameId) == None
  {
    LookupIsSearch(v1, v2, i1);
    forall j | 0 <= j < |v2| ensures v2[j] != v1[i1] {
    }
  }

  lemma PassedBoth(v1: seq<int>, v2: seq<int>, i1: nat, i2: nat)
    requires Passed(v1, v2, i1, i2) && i1 < |v1| && i2 < |v2| && v1[i1] == v2[i2] && StrictlyIncreasing(v1)
    ensures Passed(v1, v2, i1 + 1, i2 + 1)
  {
  }

  lemma PassedSecond(v1: seq<int>, v2: seq<int>, i1: nat, i2: nat)
    requires Passed(v1, v2, i1, i2) && i1 < |v1| && i2 < |v2| && v1[i1] > v2[i2] && StrictlyIncreasing(v1)
    ensures Passed(v1, v2, i1, i2 + 1)
  {
    forall i, j | i1 <= i < |v1| && 0 <= j < i2 + 1 ensures v2[j] < v1[i] {
    }
  }

  predicate Sorted(v1: seq<int>, v2: seq<int>) {
    StrictlyIncreasing(v1) && StrictlyIncreasing(v2) && Apart(v2, v2) && Apart(v2, v1)
  }

  /** One row of v1 decided: the lookup finds what the merge finds. */
  lemma LookupStep(v1: seq<int>, v2: seq<int>, i1: nat, i2: nat)
    requires Sorted(v1, v2) && Passed(v1, v2, i1, i2) && i1 < |v1| && (i2 < |v2| ==> v1[i1] <= v2[i2])
    ensures Intersection(v1, v2, i1 + 1, SameId)
         == Intersection(v1, v2, i1, SameId) + if i2 < |v2| && v1[i1] == v2[i2] then [(i1, i2)] else []
  {
    if i2 < |v2| && v1[i1] == v2[i2] { FoundAt(v1, v2, i1, i2); } else { NotFound(v1, v2, i1, i2); }
  }

  /** One step of the merge, seen next to the lookup. */
  lemma MergeProgress(v1: seq<int>, v2: seq<int>, i1: nat, i2: nat, found: seq<(nat, nat)>)
    returns (j1: nat, j2: nat, found': seq<(nat, nat)>)
    requires Sorted(v1, v2) && Passed(v1, v2, i1, i2) && i1 < |v1| && found == Intersection(v1, v2, i1, SameId)
    ensures Passed(v1, v2, j1, j2) && j1 + j2 > i1 + i2 && found' == Intersection(v1, v2, j1, SameId)
    ensures found + Merged(v1, v2, i1, i2) == found' + Merged(v1, v2, j1, j2)
  {
    j1, j2, found' := i1, i2, found;
    if i2 < |v2| { MergeStep(v1, v2, i1, i2, found); }
    if i2 < |v2| && v1[i1] > v2[i2] {
      PassedSecond(v1, v2, i1, i2);
      j2 := i2 + 1;
    } else {
      LookupStep(v1, v2, i1, i2);
      j1 := i1 + 1;
      if i2 < |v2| && v1[i1] == v2[i2] {
        PassedBoth(v1, v2, i1, i2);
        j2, found' := i2 + 1, found + [(i1, i2)];
      }
    }
  }

  /** The pairs of the lookup below i1, followed by the merge from there on, are all pairs. */
  lemma {:induction false} MergedFrom(v1: seq<int>, v2: seq<int>, i1: nat, i2: nat, found: seq<(nat, nat)>)
    requires Sorted(v1, v2) && Passed(v1, v2, i1, i2) && found == Intersection(v1, v2, i1, SameId)
    ensures Intersection(v1, v2, |v1|, SameId) == found + Merged(v1, v2, i1, i2)
    decreases |v1| - i1 + |v2| - i2
  {
    if i1 < |v1| {
      var j1, j2, found' := MergeProgress(v1, v2, i1, i2, found);
      MergedFrom(v1, v2, j1, j2, found');
    }
  }

  /** The merge of sorted ids finds the same pairs as the map lookup, in the same order. */
  lemma MergeEqualsLookup(v1: seq<int>, v2: seq<int>)
    requires Sorted(v1, v2)
    ensures Merged(v1, v2, 0, 0) == Intersection(v1, v2, |v1|, SameId)
  {
    MergedFrom(v1, v2, 0, 0, []);
  }

  /** In sorted ids that the comparison of shares tells apart, the merge finds exactly the equal ones. */
  lemma {:induction false} MergedMeans(v1: seq<int>, v2: seq<int>, i1: nat, i2: nat, i: nat, j: nat)
    requires StrictlyIncreasing(v1) && StrictlyIncreasing(v2) && i1 <= |v1| && i2 <= |v2|
    requires forall k, l :: 0 <= k < |v1| && 0 <= l < |v2| ==> v1[k] == v2[l] || !Within(v1[k], v2[l], 762)
    ensures (i, j) in Merged(v1, v2, i1, i2) <==> i1 <= i < |v1| && i2 <= j < |v2| && v1[i] == v2[j]
    decreases |v1| - i1 + |v2| - i2
  {
    if i1 < |v1| && i2 < |v2| {
      if SameOpened(v1[i1], v2[i2]) {
        MergedMeans(v1, v2, i1 + 1, i2 + 1, i, j);
      } else if v1[i1] < v2[i2] {
        MergedMeans(v1, v2, i1 + 1, i2, i, j);
      } else {
        MergedMeans(v1, v2, i1, i2 + 1, i, j);
      }
    }
  }

  /** On any ids the merge pairs rows in the order of both tables. */
  lemma {:induction false} MergedOrdered(v1: seq<int>, v2: seq<int>, i1: nat, i2: nat)
    requires i1 <= |v1| && i2 <= |v2|
    ensures var pairs := Merged(v1, v2, i1, i2);
            && InOrder(pairs) && (forall k, l :: 0 <= k < l < |pairs| ==> pairs[k].1 < pairs[l].1)
            && forall k :: 0 <= k < |pairs| ==> i1 <= pairs[k].0 && i2 <= pairs[k].1
    decreases |v1| - i1 + |v2| - i2
  {
    if i1 < |v1| && i2 < |v2| {
      if SameOpened(v1[i1], v2[i2]) {
        MergedOrdered(v1, v2, i1 + 1, i2 + 1);
      } else if v1[i1] < v2[i2] {
        MergedOrdered(v1, v2, i1 + 1, i2);
      } else {
        MergedOrdered(v1, v2, i1, i2 + 1);
      }
    }
  }

  // ---------- tables ----------

  predicate IsTable(conf: Config, t: ValueTable) {
    forall r :: 0 <= r < |t.table| ==> |t.table[r]| == |t.schemas| && AreShares(conf, t.table[r])
  }

  predicate IsColumn(t: ValueTable, idx: int) {
    1 <= idx <= |t.schemas|
  }

  function Column(t: ValueTable, idx: int): (column: seq<Share>)
    requires IsColumn(t, idx) && forall r :: 0 <= r < |t.table| ==> |t.table[r]| == |t.schemas|
  {
    seq(|t.table|, r requires 0 <= r < |t.table| => t.table[r][idx - 1])
  }

  method GetColumn(conf: Config, t: ValueTable, idx: int) returns (column: seq<Share>)
    requires IsTable(conf, t) && IsColumn(t, idx)
    ensures column == Column(t, idx) && AreShares(conf, column)
  {
    column := [];
    for r := 0 to |t.table|
      invariant column == Column(t, idx)[..r] && AreShares(conf, column)
    {
      assert AreShares(conf, t.table[r]);
      column := column + [t.table[r][idx - 1]];
    }
  }

  method OpenIds(conf: Config, column: seq<Share>) returns (ids: seq<int>)
    requires AreShares(conf, column)
    ensures ids == OpenedIds(column)
  {
    ids := [];
    for r := 0 to |column|
      invariant ids == OpenedIds(column)[..r]
    {
      var id := OpenRecons(conf, column[r]);
      ids := ids + [id];
    }
  }

  function Pick<T>(row: seq<T>, cols: seq<nat>): seq<T>
    requires forall k :: 0 <= k < |cols| ==> cols[k] < |row|
  {
    seq(|cols|, k requires 0 <= k < |cols| => row[cols[k]])
  }

  predicate PairsIn(pairs: seq<(nat, nat)>, n1: nat, n2: nat) {
    forall k :: 0 <= k < |pairs| ==> pairs[k].0 < n1 && pairs[k].1 < n2
  }

  lemma {:induction false} IntersectionPairs<T>(v1: seq<T>, v2: seq<T>, n: nat, same: (T, T) -> bool, k: nat)
    requires n <= |v1| && k < |Intersection(v1, v2, n, same)|
    ensures var pair := Intersection(v1, v2, n, same)[k];
            pair.0 < n && pair.1 < |v2| && same(v2[pair.1], v1[pair.0])
  {
    if k < |Intersection(v1, v2, n - 1, same)| { IntersectionPairs(v1, v2, n - 1, same, k); }
  }

  lemma {:induction false} MergedPairs(v1: seq<int>, v2: seq<int>, i1: nat, i2: nat, k: nat)
    requires i1 <= |v1| && i2 <= |v2| && k < |Merged(v1, v2, i1, i2)|
    ensures var pair := Merged(v1, v2, i1, i2)[k];
            pair.0 < |v1| && pair.1 < |v2| && SameOpened(v1[pair.0], v2[pair.1])
    decreases |v1| - i1 + |v2| - i2
  {
    if SameOpened(v1[i1], v2[i2]) {
      if k > 0 { MergedPairs(v1, v2, i1 + 1, i2 + 1, k - 1); }
    } else if v1[i1] < v2[i2] {
      MergedPairs(v1, v2, i1 + 1, i2, k);
    } else {
      MergedPairs(v1, v2, i1, i2 + 1, k);
    }
  }
}
