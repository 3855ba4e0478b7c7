/**
 What every step of the barrier keeps; nobody leaves early, and nobody hangs.
 */
module BarrierProofs {
  import opened Barrier
  import opened Sums

  // ---------- the invariant ----------

  predicate Done(stage: Stage) {
    stage.WaitLoad? || stage.WaitCheck? || stage.WaitReceive? || stage.WaitDelete? || stage.Left?
  }

  /** The call of q to p has stored its increment. */
  predicate HasStored(stage: Stage, q: nat, p: nat) {
    q != p && (Done(stage) || (stage.Calling? && (stage.peer > p || (stage.peer == p && stage.step.Stored?))))
  }

  /** The call of q to p has started its notification. */
  predicate HasNotified(stage: Stage, q: nat, p: nat) {
    q != p && (Done(stage) || (stage.Calling? && stage.peer > p))
  }

  /** q holds the lock of p's increments. */
  predicate Holds(stage: Stage, q: nat, p: nat) {
    q != p && stage.Calling? && stage.peer == p && !stage.step.Request?
  }

  function StoredFlags(sys: System, p: nat): seq<bool> {
    seq(|sys|, q requires 0 <= q < |sys| => HasStored(sys[q].stage, q, p))
  }

  function NotifiedFlags(sys: System, p: nat): seq<bool> {
    seq(|sys|, q requires 0 <= q < |sys| => HasNotified(sys[q].stage, q, p))
  }

  /** What the server of p knows, while its waiter has not left. */
  predicate ServerOk(sys: System, p: nat)
    requires p < |sys|
  {
    var pt := sys[p];
    && |pt.channels| <= 1
    && (|pt.channels| == 1 ==> pt.channels[0] + pt.taken == Count(NotifiedFlags(sys, p)))
    && (|pt.channels| == 0 ==> pt.taken == 0 && Count(StoredFlags(sys, p)) == 0)
    && (pt.entry.Present? ==> pt.entry == Present(Count(StoredFlags(sys, p)), 0) && |pt.channels| == 1)
    && (pt.entry.Absent? ==> pt.stage.Left? || |pt.channels| == 0)
  }

  predicate WaiterOk(sys: System, p: nat)
    requires p < |sys|
  {
    var pt := sys[p];
    match pt.stage
    case WaitCheck(ch) => ch == 0 && pt.entry.Present?
    case WaitReceive(ch, seen) =>
      ch == 0 && pt.entry.Present? && pt.taken <= seen < |sys| - 1 && seen <= Count(StoredFlags(sys, p))
    case WaitDelete => pt.entry.Present? && Count(StoredFlags(sys, p)) == |sys| - 1
    case Left => Count(StoredFlags(sys, p)) == |sys| - 1
    case _ => true
  }

  /** mu_inc of p is held by the one call that is between its load and its notification. */
  predicate LockOk(sys: System, q: nat, p: nat)
    requires q < |sys| && p < |sys|
  {
    && (Holds(sys[q].stage, q, p) <==> sys[p].lock == q)
    && (Holds(sys[q].stage, q, p) && sys[q].stage.step.Loaded? ==>
          sys[p].entry == Present(sys[q].stage.step.count, sys[q].stage.step.ch))
    && (Holds(sys[q].stage, q, p) && sys[q].stage.step.Stored? ==> sys[q].stage.step.ch == 0 && |sys[p].channels| == 1)
  }

  ghost predicate Inv(sys: System) {
    && (forall p :: 0 <= p < |sys| ==> ServerOk(sys, p) && WaiterOk(sys, p))
    && (forall q, p :: 0 <= q < |sys| && 0 <= p < |sys| ==> LockOk(sys, q, p))
    && forall p :: 0 <= p < |sys| ==> sys[p].lock == FREE || 0 <= sys[p].lock < |sys|
  }

  lemma InitialInv(n: nat)
    ensures Inv(Initial(n))
  {
    var sys := Initial(n);
    forall p | 0 <= p < n ensures ServerOk(sys, p) {
      CountNone(StoredFlags(sys, p));
    }
  }

  // ---------- safety ----------

  /** Whoever has left has been called by everyone, so everyone has entered. */
  lemma NobodyLeavesEarly(sys: System, p: nat, q: nat)
    requires Inv(sys) && p < |sys| && q < |sys| && sys[p].stage.Left?
    ensures !sys[q].stage.Outside?
  {
    assert WaiterOk(sys, p);
    var flags := StoredFlags(sys, p);
    CountBelow(flags, p);
    assert p != q ==> flags[q];
  }

  // ---------- no hanging ----------

  /** Once all peers have notified, a blocked waiter finds a notification. */
  lemma WaiterWakes(sys: System, p: nat)
    requires Inv(sys) && p < |sys| && sys[p].stage.WaitReceive?
    requires forall q :: 0 <= q < |sys| && q != p ==> HasNotified(sys[q].stage, q, p)
    ensures Enabled(sys, p)
  {
    assert ServerOk(sys, p) && WaiterOk(sys, p);
    var flags := NotifiedFlags(sys, p);
    assert forall q :: 0 <= q < |sys| && q != p ==> flags[q] == HasNotified(sys[q].stage, q, p);
    CountBelow(flags, p);
  }

  /** Some step is possible until everybody has left. */
  lemma NoDeadlock(sys: System, p: nat) returns (r: nat)
    requires Inv(sys) && p < |sys| && !sys[p].stage.Left?
    ensures r < |sys| && Enabled(sys, r)
  {
    r := p;
    if !Enabled(sys, p) {
      if sys[p].stage.Calling? {
        var peer := sys[p].stage.peer;
        assert LockOk(sys, sys[peer].lock, peer);
        r := sys[peer].lock;
      } else if q :| 0 <= q < |sys| && q != p && !HasNotified(sys[q].stage, q, p) {
        r := CallerCanStep(sys, q);
      } else {
        WaiterWakes(sys, p);
      }
    }
  }

  lemma CallerCanStep(sys: System, q: nat) returns (r: nat)
    requires Inv(sys) && q < |sys| && (sys[q].stage.Outside? || sys[q].stage.Calling?)
    ensures r < |sys| && Enabled(sys, r)
  {
    r := q;
    if !Enabled(sys, q) {
      var peer := sys[q].stage.peer;
      assert LockOk(sys, sys[peer].lock, peer);
      r := sys[peer].lock;
    }
  }

  // ---------- every step ----------

  lemma SameFlags(sys: System, sys': System, r: nat)
    requires |sys| == |sys'|
    requires forall q :: 0 <= q < |sys| ==>
               (HasStored(sys'[q].stage, q, r) <==> HasStored(sys[q].stage, q, r))
               && (HasNotified(sys'[q].stage, q, r) <==> HasNotified(sys[q].stage, q, r))
    ensures StoredFlags(sys', r) == StoredFlags(sys, r) && NotifiedFlags(sys', r) == NotifiedFlags(sys, r)
  {
  }

  /** p's own calls stay where they are; its server is untouched or has made the counter. */
  lemma OwnStep(sys: System, p: nat, pt: Party)
    requires Inv(sys) && p < |sys|
    requires forall r :: 0 <= r < |sys| ==>
               (HasStored(pt.stage, p, r) <==> HasStored(sys[p].stage, p, r))
               && (HasNotified(pt.stage, p, r) <==> HasNotified(sys[p].stage, p, r))
               && !Holds(pt.stage, p, r) && !Holds(sys[p].stage, p, r)
    requires pt.lock == sys[p].lock
    requires (pt.channels == sys[p].channels && pt.entry == sys[p].entry)
             || (|sys[p].channels| == 0 && sys[p].entry.Absent? && pt.entry == Present(0, 0) && pt.channels == [0])
    requires ServerOk(sys[p := pt], p) && WaiterOk(sys[p := pt], p)
    ensures Inv(sys[p := pt])
  {
    var sys' := sys[p := pt];
    forall r | 0 <= r < |sys| ensures ServerOk(sys', r) && WaiterOk(sys', r) {
      SameFlags(sys, sys', r);
      assert ServerOk(sys, r) && WaiterOk(sys, r);
    }
    forall q, r | 0 <= q < |sys| && 0 <= r < |sys| ensures LockOk(sys', q, r) {
      assert LockOk(sys, q, r);
    }
  }

  /** Loading the own counter, before the first check. */
  lemma LoadOwn(sys: System, p: nat)
    requires Inv(sys) && p < |sys| && sys[p].stage.WaitLoad?
    ensures Inv(Next(sys, p))
  {
    var pt := Next(sys, p)[p];
    assert ServerOk(sys, p);
    FlagsInOrder(sys, p);
    SameFlags(sys, Next(sys, p), p);
    OwnStep(sys, p, pt);
  }

  /** Every notification was stored before. */
  lemma FlagsInOrder(sys: System, p: nat)
    ensures Count(NotifiedFlags(sys, p)) <= Count(StoredFlags(sys, p))
  {
    CountMonotone(NotifiedFlags(sys, p), StoredFlags(sys, p));
  }

  lemma CheckCount(sys: System, p: nat)
    requires Inv(sys) && p < |sys| && sys[p].stage.WaitCheck?
    ensures Inv(Next(sys, p))
  {
    var pt := Next(sys, p)[p];
    assert ServerOk(sys, p) && WaiterOk(sys, p);
    FlagsInOrder(sys, p);
    CountBelow(StoredFlags(sys, p), p);
    SameFlags(sys, Next(sys, p), p);
    OwnStep(sys, p, pt);
  }

  lemma TakeNotification(sys: System, p: nat)
    requires Inv(sys) && p < |sys| && sys[p].stage.WaitReceive? && Enabled(sys, p)
    ensures Inv(Next(sys, p))
  {
    assert ServerOk(sys, p) && WaiterOk(sys, p);
    var sys' := Next(sys, p);
    forall r | 0 <= r < |sys| ensures ServerOk(sys', r) && WaiterOk(sys', r) {
      SameFlags(sys, sys', r);
      assert ServerOk(sys, r) && WaiterOk(sys, r);
    }
    forall q, r | 0 <= q < |sys| && 0 <= r < |sys| ensures LockOk(sys', q, r) {
      assert LockOk(sys, q, r);
    }
  }

  /** Deleting the counter: no call is between its load and its store any more. */
  lemma DeleteCounter(sys: System, p: nat)
    requires Inv(sys) && p < |sys| && sys[p].stage.WaitDelete?
    ensures Inv(Next(sys, p))
  {
    assert ServerOk(sys, p) && WaiterOk(sys, p);
    var sys' := Next(sys, p);
    var flags := StoredFlags(sys, p);
    CountBelow(flags, p);
    forall r | 0 <= r < |sys| ensures ServerOk(sys', r) && WaiterOk(sys', r) {
      SameFlags(sys, sys', r);
      assert ServerOk(sys, r) && WaiterOk(sys, r);
    }
    forall q, r | 0 <= q < |sys| && 0 <= r < |sys| ensures LockOk(sys', q, r) {
      assert LockOk(sys, q, r);
      assert q != p ==> flags[q];
    }
  }

  lemma QuietStage(sys: System, p: nat, r: nat)
    requires p < |sys| && r < |sys|
    requires sys[p].stage.Outside? || (sys[p].stage.Calling? && (sys[p].stage.peer >= |sys| || sys[p].stage.peer == p))
    ensures var stage, stage' := sys[p].stage, Next(sys, p)[p].stage;
            && (HasStored(stage', p, r) <==> HasStored(stage, p, r))
            && (HasNotified(stage', p, r) <==> HasNotified(stage, p, r))
            && !Holds(stage', p, r) && !Holds(stage, p, r)
  {
  }

  /** Entering, stepping over oneself, and the end of the calls. */
  lemma QuietCall(sys: System, p: nat)
    requires Inv(sys) && p < |sys|
    requires sys[p].stage.Outside? || (sys[p].stage.Calling? && (sys[p].stage.peer >= |sys| || sys[p].stage.peer == p))
    ensures Inv(Next(sys, p))
  {
    var pt := Next(sys, p)[p];
    assert Next(sys, p) == sys[p := pt] && pt == sys[p].(stage := pt.stage);
    forall r: nat | r < |sys|
      ensures (HasStored(pt.stage, p, r) <==> HasStored(sys[p].stage, p, r))
              && (HasNotified(pt.stage, p, r) <==> HasNotified(sys[p].stage, p, r))
              && !Holds(pt.stage, p, r) && !Holds(sys[p].stage, p, r)
    {
      QuietStage(sys, p, r);
    }
    assert ServerOk(sys, p) && WaiterOk(sys, p);
    SameFlags(sys, sys[p := pt], p);
    OwnStep(sys, p, pt);
  }

  /** Neither the lock nor any flag at other servers changes. */
  predicate ElsewhereSame(sys: System, sys': System, p: nat, peer: nat)
    requires p < |sys| && peer < |sys|
  {
    && |sys'| == |sys|
    && (forall q :: 0 <= q < |sys| && q != p && q != peer ==> sys'[q] == sys[q])
    && sys'[p] == sys[p].(stage := sys'[p].stage) && sys'[peer].stage == sys[peer].stage
    && sys'[peer].taken == sys[peer].taken
    && forall r :: 0 <= r < |sys| && r != peer ==>
         (HasStored(sys'[p].stage, p, r) <==> HasStored(sys[p].stage, p, r))
         && (HasNotified(sys'[p].stage, p, r) <==> HasNotified(sys[p].stage, p, r))
         && !Holds(sys'[p].stage, p, r) && !Holds(sys[p].stage, p, r)
  }

  lemma CallKeepsInv(sys: System, sys': System, p: nat, peer: nat)
    requires Inv(sys) && p < |sys| && peer < |sys| && p != peer && ElsewhereSame(sys, sys', p, peer)
    requires sys[p].stage.Calling? && sys'[p].stage.Calling?
    requires ServerOk(sys', peer) && WaiterOk(sys', peer)
    requires forall q :: 0 <= q < |sys| ==> LockOk(sys', q, peer)
    requires sys'[peer].lock == FREE || 0 <= sys'[peer].lock < |sys|
    ensures Inv(sys')
  {
    forall r | 0 <= r < |sys| ensures ServerOk(sys', r) && WaiterOk(sys', r) {
      assert ServerOk(sys, r) && WaiterOk(sys, r);
      if r != peer { SameFlags(sys, sys', r); }
    }
    forall q, r | 0 <= q < |sys| && 0 <= r < |sys| ensures LockOk(sys', q, r) {
      assert LockOk(sys, q, r);
    }
  }

  predicate IsCall(sys: System, p: nat) {
    p < |sys| && sys[p].stage.Calling? && sys[p].stage.peer < |sys| && sys[p].stage.peer != p
  }

  /** A server that is still called has not been left. */
  lemma CalledServerWaits(sys: System, p: nat)
    requires Inv(sys) && IsCall(sys, p) && !sys[p].stage.step.Stored?
    ensures !sys[sys[p].stage.peer].stage.Left? && !sys[sys[p].stage.peer].stage.WaitDelete?
  {
    var peer := sys[p].stage.peer;
    assert WaiterOk(sys, peer);
    var flags := StoredFlags(sys, peer);
    CountBelow(flags, peer);
    assert !flags[p];
  }

  /** increment: taking the lock and loading. */
  lemma IncrementLoads(sys: System, p: nat)
    requires Inv(sys) && IsCall(sys, p) && sys[p].stage.step.Request? && Enabled(sys, p)
    ensures Inv(Next(sys, p))
  {
    var peer, sys' := sys[p].stage.peer, Next(sys, p);
    CalledServerWaits(sys, p);
    assert ServerOk(sys, peer) && WaiterOk(sys, peer);
    FlagsInOrder(sys, peer);
    SameFlags(sys, sys', peer);
    forall q | 0 <= q < |sys| ensures LockOk(sys', q, peer) {
      assert LockOk(sys, q, peer);
    }
    CallKeepsInv(sys, sys', p, peer);
  }

  lemma OneMoreStored(sys: System, p: nat)
    requires IsCall(sys, p) && sys[p].stage.step.Loaded?
    ensures var peer, sys' := sys[p].stage.peer, Next(sys, p);
            && Count(StoredFlags(sys', peer)) == Count(StoredFlags(sys, peer)) + 1
            && NotifiedFlags(sys', peer) == NotifiedFlags(sys, peer)
  {
    var peer, sys' := sys[p].stage.peer, Next(sys, p);
    assert StoredFlags(sys', peer) == StoredFlags(sys, peer)[p := true];
    CountSet(StoredFlags(sys, peer), p);
    assert NotifiedFlags(sys', peer) == NotifiedFlags(sys, peer);
  }

  lemma LockAfterCall(sys: System, p: nat, q: nat)
    requires Inv(sys) && IsCall(sys, p) && !sys[p].stage.step.Request? && q < |sys|
    ensures LockOk(Next(sys, p), q, sys[p].stage.peer)
  {
    assert LockOk(sys, q, sys[p].stage.peer) && LockOk(sys, p, sys[p].stage.peer);
    assert ServerOk(sys, sys[p].stage.peer);
  }

  /** increment: storing the count. */
  lemma IncrementStores(sys: System, p: nat)
    requires Inv(sys) && IsCall(sys, p) && sys[p].stage.step.Loaded?
    ensures Inv(Next(sys, p))
  {
    var peer, sys' := sys[p].stage.peer, Next(sys, p);
    CalledServerWaits(sys, p);
    assert ServerOk(sys, peer) && WaiterOk(sys, peer) && LockOk(sys, p, peer);
    OneMoreStored(sys, p);
    forall q: nat | q < |sys| ensures LockOk(sys', q, peer) {
      LockAfterCall(sys, p, q);
    }
    CallKeepsInv(sys, sys', p, peer);
  }

  lemma OneMoreNotified(sys: System, p: nat)
    requires IsCall(sys, p) && sys[p].stage.step.Stored?
    ensures var peer, sys' := sys[p].stage.peer, Next(sys, p);
            && Count(NotifiedFlags(sys', peer)) == Count(NotifiedFlags(sys, peer)) + 1
            && StoredFlags(sys', peer) == StoredFlags(sys, peer)
  {
    var peer, sys' := sys[p].stage.peer, Next(sys, p);
    assert StoredFlags(sys', peer) == StoredFlags(sys, peer);
    assert NotifiedFlags(sys', peer) == NotifiedFlags(sys, peer)[p := true];
    CountSet(NotifiedFlags(sys, peer), p);
  }

  /** increment: starting the goroutine that notifies, and releasing the lock. */
  lemma IncrementNotifies(sys: System, p: nat)
    requires Inv(sys) && IsCall(sys, p) && sys[p].stage.step.Stored?
    ensures Inv(Next(sys, p))
  {
    var peer, sys' := sys[p].stage.peer, Next(sys, p);
    assert ServerOk(sys, peer) && WaiterOk(sys, peer) && LockOk(sys, p, peer);
    OneMoreNotified(sys, p);
    forall q: nat | q < |sys| ensures LockOk(sys', q, peer) {
      LockAfterCall(sys, p, q);
    }
    CallKeepsInv(sys, sys', p, peer);
  }

  lemma StepKeepsInv(sys: System, p: nat)
    requires Inv(sys) && p < |sys| && Enabled(sys, p)
    ensures Inv(Next(sys, p)) && |Next(sys, p)| == |sys|
  {
    match sys[p].stage
    case Outside => QuietCall(sys, p);
    case Calling(peer, step) =>
      if peer >= |sys| || peer == p {
        QuietCall(sys, p);
      } else {
        match step
        case Request => IncrementLoads(sys, p);
        case Loaded(_, _) => IncrementStores(sys, p);
        case Stored(_) => IncrementNotifies(sys, p);
      }
    case WaitLoad => LoadOwn(sys, p);
    case WaitCheck(_) => CheckCount(sys, p);
    case WaitReceive(_, _) => TakeNotification(sys, p);
    case WaitDelete => DeleteCounter(sys, p);
  }
}
