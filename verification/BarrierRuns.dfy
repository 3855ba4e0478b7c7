/** Whole runs of the barrier: safety at every moment, and an end that lets everybody through. */
module BarrierRuns {
  import opened Barrier
  import opened BarrierProofs
  import opened Sums

  /** The steps that a party may still take: the calls, then at most one wake-up for every peer. */
  function Work(n: nat, pt: Party): int {
    match pt.stage
    case Outside => 6 * n + 10
    case Calling(peer, step) =>
      4 * (n - peer) + 2 * n + 5 - (match step case Request => 0 case Loaded(_, _) => 1 case Stored(_) => 2)
    case WaitLoad => 2 * (n - pt.taken) + 4
    case WaitCheck(_) => 2 * (n - pt.taken) + 3
    case WaitReceive(_, _) => 2 * (n - pt.taken) + 2
    case WaitDelete => 1
    case Left => 0
  }

  function TotalWork(sys: System): int {
    Sum(seq(|sys|, p requires 0 <= p < |sys| => Work(|sys|, sys[p])), |sys|)
  }

  /** No call goes past the last party, and no waiter takes more notifications than were started. */
  predicate IsBounded(n: nat, pt: Party) {
    && (pt.stage.Calling? ==> pt.stage.peer <= n && (pt.stage.peer == n ==> pt.stage.step.Request?))
    && pt.taken <= n
  }

  ghost predicate Bounded(sys: System) {
    forall p :: 0 <= p < |sys| ==> IsBounded(|sys|, sys[p])
  }

  lemma StepBounded(sys: System, p: nat)
    requires Inv(sys) && Bounded(sys) && p < |sys| && Enabled(sys, p)
    ensures Bounded(Next(sys, p))
  {
    WorkOfOthers(sys, p);
    forall q: nat | q < |sys| ensures IsBounded(|sys|, Next(sys, p)[q]) {
      assert IsBounded(|sys|, sys[q]);
      if q == p { assert WaiterOk(sys, p); BoundedStep(sys, p); }
    }
  }

  lemma BoundedStep(sys: System, p: nat)
    requires p < |sys| && Enabled(sys, p) && IsBounded(|sys|, sys[p]) && WaiterOk(sys, p)
    ensures IsBounded(|sys|, Next(sys, p)[p])
  {
  }

  lemma StepProgress(sys: System, p: nat)
    requires Inv(sys) && Bounded(sys) && p < |sys| && Enabled(sys, p)
    ensures TotalWork(Next(sys, p)) < TotalWork(sys)
  {
    var n, sys' := |sys|, Next(sys, p);
    assert WaiterOk(sys, p);
    WorkOfOthers(sys, p);
    WorkShrinks(sys, p);
    SumReplaced(seq(n, q requires 0 <= q < n => Work(n, sys[q])), seq(n, q requires 0 <= q < n => Work(n, sys'[q])), p, n);
  }

  lemma WorkOfOthers(sys: System, p: nat)
    requires p < |sys| && Enabled(sys, p)
    ensures |Next(sys, p)| == |sys|
    ensures forall q :: 0 <= q < |sys| && q != p ==>
              && Next(sys, p)[q].stage == sys[q].stage && Next(sys, p)[q].taken == sys[q].taken
              && Work(|sys|, Next(sys, p)[q]) == Work(|sys|, sys[q])
  {
  }

  lemma WorkShrinks(sys: System, p: nat)
    requires p < |sys| && Enabled(sys, p) && IsBounded(|sys|, sys[p]) && WaiterOk(sys, p)
    ensures Work(|sys|, Next(sys, p)[p]) < Work(|sys|, sys[p])
  {
  }

  ghost predicate IsRun(n: nat, run: seq<System>) {
    && |run| > 0 && run[0] == Initial(n)
    && forall k :: 0 <= k < |run| - 1 ==> exists p: nat :: p < |run[k]| && Enabled(run[k], p) && run[k + 1] == Next(run[k], p)
  }

  lemma {:induction false} RunKeepsInv(n: nat, run: seq<System>, k: nat)
    requires IsRun(n, run) && k < |run|
    ensures |run[k]| == n && Inv(run[k]) && Bounded(run[k]) && k + TotalWork(run[k]) <= TotalWork(run[0])
  {
    if k == 0 {
      InitialInv(n);
    } else {
      RunKeepsInv(n, run, k - 1);
      var p: nat :| p < |run[k - 1]| && Enabled(run[k - 1], p) && run[k] == Next(run[k - 1], p);
      StepKeepsInv(run[k - 1], p);
      StepBounded(run[k - 1], p);
      StepProgress(run[k - 1], p);
    }
  }

  /** In no run does a party return from Sync before every party has entered it. */
  lemma RunIsBarrier(n: nat, run: seq<System>, k: nat, p: nat, q: nat)
    requires IsRun(n, run) && k < |run| && p < n && q < n
    ensures |run[k]| == n && (run[k][p].stage.Left? ==> !run[k][q].stage.Outside?)
  {
    RunKeepsInv(n, run, k);
    if run[k][p].stage.Left? { NobodyLeavesEarly(run[k], p, q); }
  }

  predicate Stuck(sys: System) {
    forall p :: 0 <= p < |sys| ==> !Enabled(sys, p)
  }

  /** Every run is finite, and one that cannot go on has let everybody through. */
  lemma RunLetsEverybodyThrough(n: nat, run: seq<System>, p: nat)
    requires IsRun(n, run) && p < n
    ensures |run| - 1 <= TotalWork(Initial(n)) && |run[|run| - 1]| == n
    ensures Stuck(run[|run| - 1]) ==> run[|run| - 1][p].stage.Left?
  {
    var last := run[|run| - 1];
    RunKeepsInv(n, run, |run| - 1);
    forall q | 0 <= q < n ensures Work(n, last[q]) >= 0 {
    }
    SumNonNegative(seq(n, q requires 0 <= q < n => Work(n, last[q])), n);
    if !last[p].stage.Left? {
      var r := NoDeadlock(last, p);
    }
  }
}
