/** Sums and counts over sequences, for the measures and invariants of the step machines. */
module Sums {
  function Sum(works: seq<int>, m: nat): int
    requires m <= |works|
  {
    if m == 0 then 0 else Sum(works, m - 1) + works[m - 1]
  }

  lemma {:induction false} SumReplaced(works: seq<int>, works': seq<int>, p: nat, m: nat)
    requires m <= |works| == |works'| && p < |works|
    requires forall q :: 0 <= q < |works| && q != p ==> works'[q] == works[q]
    ensures Sum(works', m) == Sum(works, m) + if p < m then works'[p] - works[p] else 0
  {
    if m > 0 { SumReplaced(works, works', p, m - 1); }
  }

  lemma {:induction false} SumNonNegative(works: seq<int>, m: nat)
    requires m <= |works| && forall p :: 0 <= p < |works| ==> works[p] >= 0
    ensures Sum(works, m) >= 0
  {
    if m > 0 { SumNonNegative(works, m - 1); }
  }

  function Count(flags: seq<bool>): nat {
    if |flags| == 0 then 0 else Count(flags[..|flags| - 1]) + if flags[|flags| - 1] then 1 else 0
  }

  lemma {:induction false} CountSet(flags: seq<bool>, i: nat)
    requires i < |flags| && !flags[i]
    ensures Count(flags[i := true]) == Count(flags) + 1
  {
    var last := |flags| - 1;
    if i < last {
      CountSet(flags[..last], i);
      assert flags[i := true][..last] == flags[..last][i := true];
    } else {
      assert flags[i := true][..last] == flags[..last];
    }
  }

  lemma {:induction false} CountBelow(flags: seq<bool>, i: nat)
    requires i < |flags| && !flags[i]
    ensures Count(flags) <= |flags| - 1
    ensures Count(flags) == |flags| - 1 <==> forall j :: 0 <= j < |flags| && j != i ==> flags[j]
  {
    var last := |flags| - 1;
    CountAtMost(flags[..last]);
    if i < last { CountBelow(flags[..last], i); }
  }

  lemma {:induction false} CountAtMost(flags: seq<bool>)
    ensures Count(flags) <= |flags|
    ensures Count(flags) == |flags| <==> forall j :: 0 <= j < |flags| ==> flags[j]
  {
    if |flags| > 0 { CountAtMost(flags[..|flags| - 1]); }
  }

  lemma {:induction false} CountMonotone(a: seq<bool>, b: seq<bool>)
    requires |a| == |b| && forall j :: 0 <= j < |a| && a[j] ==> b[j]
    ensures Count(a) <= Count(b)
  {
    if |a| > 0 { CountMonotone(a[..|a| - 1], b[..|b| - 1]); }
  }

  lemma {:induction false} CountNone(flags: seq<bool>)
    requires forall j :: 0 <= j < |flags| ==> !flags[j]
    ensures Count(flags) == 0
  {
    if |flags| > 0 { CountNone(flags[..|flags| - 1]); }
  }
}
