/**
 Whole runs of the share exchange: safety in every interleaving, no deadlock, and a bound on the
 length of every run.
 */
module ExchangeRuns {
  import opened Exchange
  import opened ExchangeProofs
  import opened Sums

  // ---------- no deadlock ----------

  lemma {:induction false} SlowestParty(sys: System, m: nat) returns (p: nat)
    requires 0 < m <= |sys|
    ensures p < m && forall q :: 0 <= q < m ==> sys[p].Pc() <= sys[q].Pc()
  {
    p := 0;
    if m > 1 {
      p := SlowestParty(sys, m - 1);
      if sys[m - 1].Pc() < sys[p].Pc() { p := m - 1; }
    }
  }

  /** A party that has not sent what it owes, and is not behind, can send or start. */
  lemma OwingCanStep(prog: Program, sys: System, q: nat, p: nat)
    requires WellFormed(prog) && Inv(prog, sys) && q < |sys| && p < |sys| && sys[q].Pc() < |prog.code|
    requires Link(prog, sys[q].Pc(), q, p) && !HasSent(sys[q], sys[q].Pc(), p)
    ensures Enabled(prog, sys, q, Proceed) || Enabled(prog, sys, q, SendTo(p))
  {
  }

  lemma SlowestCanStep(prog: Program, sys: System, p: nat) returns (r: nat, a: Action)
    requires WellFormed(prog) && Inv(prog, sys) && p < |sys| && sys[p].Pc() < |prog.code|
    requires forall q :: 0 <= q < |sys| ==> sys[p].Pc() <= sys[q].Pc()
    ensures r < |sys| && Enabled(prog, sys, r, a)
  {
    var pt := sys[p];
    r, a := p, Proceed;
    if pt.phase.Sending? && pt.phase.pending != {} {
      var d :| d in pt.phase.pending;
      a := SendTo(d);
    } else if Waits(prog, p, pt) {
      Addresses(prog, p, pt);
      var q := Awaited(prog, pt).from;
      var e := if pt.phase.Receiving? then pt.phase.elem else 0;
      WaitsForLink(prog, p, pt);
      if HasSent(sys[q], pt.Pc(), p) {
        assert InFlight(prog, sys, q, p, pt.Pc(), e);
      } else {
        OwingCanStep(prog, sys, q, p);
        r := q;
        a := if Enabled(prog, sys, q, Proceed) then Proceed else SendTo(p);
      }
    }
  }

  lemma WaitsForLink(prog: Program, p: nat, pt: Party)
    requires WellFormed(prog) && p < prog.n && LocalOk(prog, p, pt) && Waits(prog, p, pt)
    ensures Awaited(prog, pt).from < prog.n && Link(prog, pt.Pc(), Awaited(prog, pt).from, p)
  {
  }

  /** While some party is unfinished, some party can take a step. */
  lemma NoDeadlock(prog: Program, sys: System, p: nat) returns (r: nat, a: Action)
    requires WellFormed(prog) && Inv(prog, sys) && p < |sys| && sys[p].Pc() < |prog.code|
    ensures r < |sys| && Enabled(prog, sys, r, a)
  {
    var slowest := SlowestParty(sys, |sys|);
    r, a := SlowestCanStep(prog, sys, slowest);
  }

  // ---------- progress ----------

  function RowsLeft(n: nat, width: nat, from: nat, elem: nat): int {
    (n - from) * (width + 1) - elem + 1
  }

  function InstrWork(prog: Program, instr: Instr): int {
    prog.n + 2 + RowsLeft(prog.n, |Slots(instr)|, 0, 0)
  }

  function WorkFrom(prog: Program, k: nat): int
    requires k <= |prog.code|
    decreases |prog.code| - k
  {
    if k == |prog.code| then 0 else InstrWork(prog, prog.code[k]) + WorkFrom(prog, k + 1)
  }

  function PhaseWork(prog: Program, width: nat, phase: Phase): int {
    match phase
    case Idle => prog.n + 2 + RowsLeft(prog.n, width, 0, 0)
    case Sending(pending) => |pending| + 1 + RowsLeft(prog.n, width, 0, 0)
    case Receiving(from, elem, _) => RowsLeft(prog.n, width, from, elem)
    case Awaiting => 1
  }

  /** The steps that a party may still take. */
  function Work(prog: Program, pt: Party): int {
    if pt.Pc() >= |prog.code| then 0
    else PhaseWork(prog, |Slots(prog.code[pt.Pc()])|, pt.phase) + WorkFrom(prog, pt.Pc() + 1)
  }

  function TotalWork(prog: Program, sys: System): int {
    Sum(seq(|sys|, p requires 0 <= p < |sys| => Work(prog, sys[p])), |sys|)
  }

  lemma RowsShrink(n: nat, width: nat, from: nat, elem: nat)
    requires from <= n && elem <= width && (from == n ==> elem == 0)
    ensures RowsLeft(n, width, from, elem) >= 1
    ensures RowsLeft(n, width, from + 1, 0) == RowsLeft(n, width, from, width) - 1
  {
    assert (n - from) * (width + 1) == (n - from - 1) * (width + 1) + (width + 1);
    if from < n { assert (n - from - 1) * (width + 1) >= 0; }
  }

  lemma {:induction false} WorkNonNegative(prog: Program, k: nat)
    requires k <= |prog.code|
    ensures WorkFrom(prog, k) >= 0
    decreases |prog.code| - k
  {
    if k < |prog.code| {
      WorkNonNegative(prog, k + 1);
      RowsShrink(prog.n, |Slots(prog.code[k])|, 0, 0);
    }
  }

  lemma PartyWorkNonNegative(prog: Program, p: nat, pt: Party)
    requires LocalOk(prog, p, pt)
    ensures Work(prog, pt) >= 0
  {
    if pt.Pc() < |prog.code| {
      WorkNonNegative(prog, pt.Pc() + 1);
      RowsShrink(prog.n, |Slots(prog.code[pt.Pc()])|, 0, 0);
      if pt.phase.Receiving? {
        RowsShrink(prog.n, |Slots(prog.code[pt.Pc()])|, pt.phase.from, pt.phase.elem);
      }
    }
  }

  lemma PartyProgress(prog: Program, p: nat, pt: Party)
    requires prog.sp < prog.n && p < prog.n && LocalOk(prog, p, pt) && pt.Pc() < |prog.code|
    requires pt.phase.Sending? ==> pt.phase.pending == {}
    requires Waits(prog, p, pt) ==> Awaited(prog, pt) in pt.box
    ensures Work(prog, Proceeded(prog, p, pt)) < Work(prog, pt)
  {
    var width := |Slots(prog.code[pt.Pc()])|;
    RowsShrink(prog.n, width, 0, 0);
    match pt.phase
    case Idle => BeginProgress(prog, p, pt);
    case Sending(_) =>
    case Receiving(from, elem, sums) => RowsShrink(prog.n, width, from, elem);
    case Awaiting =>
  }

  lemma OthersCount(n: nat, p: nat)
    requires p < n
    ensures |Others(n, p)| == n - 1
  {
  }

  lemma BeginProgress(prog: Program, p: nat, pt: Party)
    requires prog.sp < prog.n && p < prog.n && pt.phase.Idle? && pt.Pc() < |prog.code|
    ensures Work(prog, Begin(prog, p, pt)) < Work(prog, pt)
  {
    OthersCount(prog.n, p);
    RowsShrink(prog.n, |Slots(prog.code[pt.Pc()])|, 0, 0);
  }

  lemma TotalAfter(prog: Program, sys: System, sys': System, p: nat)
    requires |sys| == |sys'| && p < |sys| && Work(prog, sys'[p]) < Work(prog, sys[p])
    requires forall q :: 0 <= q < |sys| && q != p ==> Work(prog, sys'[q]) == Work(prog, sys[q])
    ensures TotalWork(prog, sys') < TotalWork(prog, sys)
  {
    SumReplaced(seq(|sys|, q requires 0 <= q < |sys| => Work(prog, sys[q])),
                seq(|sys'|, q requires 0 <= q < |sys'| => Work(prog, sys'[q])), p, |sys|);
  }

  lemma SendProgress(prog: Program, sys: System, p: nat, dest: nat)
    requires p < |sys| && Enabled(prog, sys, p, SendTo(dest)) && dest != p
    ensures var sys' := Apply(prog, sys, p, SendTo(dest));
            && |sys'| == |sys| && Work(prog, sys'[p]) < Work(prog, sys[p])
            && forall q :: 0 <= q < |sys| && q != p ==> Work(prog, sys'[q]) == Work(prog, sys[q])
  {
    SendState(prog, sys, p, dest);
  }

  /** Every step uses up work. */
  lemma StepProgress(prog: Program, sys: System, p: nat, a: Action)
    requires WellFormed(prog) && Inv(prog, sys) && p < |sys| && Enabled(prog, sys, p, a)
    ensures TotalWork(prog, Apply(prog, sys, p, a)) < TotalWork(prog, sys)
  {
    match a
    case Proceed => PartyProgress(prog, p, sys[p]); TotalAfter(prog, sys, Apply(prog, sys, p, a), p);
    case SendTo(dest) =>
      SendLink(prog, p, sys[p], dest);
      SendProgress(prog, sys, p, dest);
      TotalAfter(prog, sys, Apply(prog, sys, p, a), p);
  }

  // ---------- runs ----------

  ghost predicate IsStep(prog: Program, sys: System, sys': System) {
    exists p: nat, a: Action :: p < |sys| && Enabled(prog, sys, p, a) && sys' == Apply(prog, sys, p, a)
  }

  ghost predicate IsRun(prog: Program, run: seq<System>) {
    && |run| > 0 && run[0] == Initial(prog)
    && forall k :: 0 <= k < |run| - 1 ==> IsStep(prog, run[k], run[k + 1])
  }

  lemma StepFacts(prog: Program, sys: System, sys': System)
    requires WellFormed(prog) && Inv(prog, sys) && IsStep(prog, sys, sys')
    ensures Inv(prog, sys') && TotalWork(prog, sys') < TotalWork(prog, sys)
  {
    var p: nat, a: Action :| p < |sys| && Enabled(prog, sys, p, a) && sys' == Apply(prog, sys, p, a);
    StepKeepsInv(prog, sys, p, a);
    StepProgress(prog, sys, p, a);
  }

  lemma {:induction false} RunKeepsInv(prog: Program, run: seq<System>, k: nat)
    requires WellFormed(prog) && IsRun(prog, run) && k < |run|
    ensures Inv(prog, run[k])
    ensures k + TotalWork(prog, run[k]) <= TotalWork(prog, run[0])
  {
    if k == 0 {
      InitialInv(prog);
    } else {
      RunKeepsInv(prog, run, k - 1);
      StepFacts(prog, run[k - 1], run[k]);
    }
  }

  lemma TotalNonNegative(prog: Program, sys: System)
    requires forall p :: 0 <= p < |sys| ==> LocalOk(prog, p, sys[p])
    ensures TotalWork(prog, sys) >= 0
  {
    forall p | 0 <= p < |sys| ensures Work(prog, sys[p]) >= 0 {
      PartyWorkNonNegative(prog, p, sys[p]);
    }
    SumNonNegative(seq(|sys|, p requires 0 <= p < |sys| => Work(prog, sys[p])), |sys|);
  }

  /** No run is longer than the work of the initial state. */
  lemma RunsAreFinite(prog: Program, run: seq<System>)
    requires WellFormed(prog) && IsRun(prog, run)
    ensures |run| - 1 <= TotalWork(prog, Initial(prog))
  {
    RunKeepsInv(prog, run, |run| - 1);
    TotalNonNegative(prog, run[|run| - 1]);
  }

  /** In every interleaving the ids of a party depend on its position only, and its results on its name. */
  lemma RunIsLockstep(prog: Program, run: seq<System>, k: nat, p: nat)
    requires WellFormed(prog) && IsRun(prog, run) && k < |run| && p < prog.n
    ensures |run[k]| == prog.n && run[k][p].Pc() <= |prog.code|
    ensures run[k][p].history == Ideal(prog, p, run[k][p].Pc())
    ensures run[k][p].ids == IdsFrom(NO_IDS, prog.code, run[k][p].Pc(), false)
  {
    RunKeepsInv(prog, run, k);
    assert InStep(prog, run[k][p]);
  }

  lemma {:induction false} IdealAt(prog: Program, p: nat, k: nat, i: nat)
    requires i < k <= |prog.code|
    ensures Ideal(prog, p, k)[i] == IdealResult(prog, p, i)
  {
    if i < k - 1 { IdealAt(prog, p, k - 1, i); }
  }

  // ---------- what the exchanges compute ----------

  /** Every party has come to instruction i. */
  predicate AllReached(prog: Program, sys: System, i: nat) {
    |sys| == prog.n && forall q :: 0 <= q < prog.n ==> i <= sys[q].Pc()
  }

  /** What each party holds for the e-th share of instruction i, by its own history. */
  function HeldAt(prog: Program, sys: System, i: nat, e: nat): seq<int>
    requires AllReached(prog, sys, i)
  {
    seq(prog.n, q requires 0 <= q < prog.n => prog.value(q, sys[q].history[..i], e))
  }

  lemma {:induction false} IdealTake(prog: Program, p: nat, k: nat, i: nat)
    requires i <= k <= |prog.code|
    ensures Ideal(prog, p, k)[..i] == Ideal(prog, p, i)
  {
    if i < k {
      IdealTake(prog, p, k - 1, i);
      assert Ideal(prog, p, k)[..i] == Ideal(prog, p, k - 1)[..i];
    }
  }

  lemma {:induction false} TotalIsSum(prog: Program, k: nat, e: nat, held: seq<int>, m: nat)
    requires k <= |prog.code| && m <= |held| == prog.n
    requires forall q :: 0 <= q < prog.n ==> held[q] == prog.value(q, Ideal(prog, q, k), e)
    ensures Total(prog, k, e, m) == Sum(held, m)
  {
    if m > 0 { TotalIsSum(prog, k, e, held, m - 1); }
  }

  /** In a state of the invariant the lockstep total is the sum of what the parties hold. */
  lemma TotalOfHeld(prog: Program, sys: System, i: nat, e: nat)
    requires Inv(prog, sys) && AllReached(prog, sys, i) && i <= |prog.code|
    ensures Total(prog, i, e, prog.n) == Sum(HeldAt(prog, sys, i, e), prog.n)
  {
    var held := HeldAt(prog, sys, i, e);
    forall q | 0 <= q < prog.n ensures held[q] == prog.value(q, Ideal(prog, q, i), e) {
      assert LocalOk(prog, q, sys[q]);
      IdealTake(prog, q, sys[q].Pc(), i);
    }
    TotalIsSum(prog, i, e, held, prog.n);
  }

  /** A party that is past an instruction has read what the others have sent in it. */
  lemma ReachedByAll(prog: Program, sys: System, p: nat, i: nat)
    requires Inv(prog, sys) && p < prog.n && i < sys[p].Pc() <= |prog.code| && |Slots(prog.code[i])| > 0
    requires prog.code[i].Open? || (prog.code[i].Gather? && p == prog.sp)
    ensures AllReached(prog, sys, i)
  {
    forall q | 0 <= q < prog.n ensures i <= sys[q].Pc() {
      if q != p {
        assert Link(prog, i, q, p);
        assert Causal(prog, sys, q, p, i, 0);
      }
    }
  }

  /**
   Every party that is past an opening, at any time, has as its results the sums of what the n parties
   hold for the shares.
   */
  lemma OpeningsAgree(prog: Program, run: seq<System>, k: nat, p: nat, i: nat, e: nat)
    requires WellFormed(prog) && IsRun(prog, run) && k < |run| && p < prog.n
    requires i < |prog.code| && prog.code[i].Open? && e < |prog.code[i].slots|
    ensures |run[k]| == prog.n
    ensures i < run[k][p].Pc() ==>
              && AllReached(prog, run[k], i)
              && run[k][p].history[i].Values? && |run[k][p].history[i].values| == |prog.code[i].slots|
              && run[k][p].history[i].values[e] == Sum(HeldAt(prog, run[k], i, e), prog.n)
  {
    RunIsLockstep(prog, run, k, p);
    if i < run[k][p].Pc() {
      RunKeepsInv(prog, run, k);
      ReachedByAll(prog, run[k], p, i);
      IdealAt(prog, p, run[k][p].Pc(), i);
      TotalOfHeld(prog, run[k], i, e);
    }
  }

  /** Past a gathering, party sp has the sum of what the n parties hold for the share. */
  lemma GatheringsAgree(prog: Program, run: seq<System>, k: nat, i: nat)
    requires WellFormed(prog) && IsRun(prog, run) && k < |run| && i < |prog.code| && prog.code[i].Gather?
    ensures |run[k]| == prog.n
    ensures i < run[k][prog.sp].Pc() ==>
              && AllReached(prog, run[k], i)
              && run[k][prog.sp].history[i] == Values([Sum(HeldAt(prog, run[k], i, 0), prog.n)])
  {
    var p := prog.sp;
    RunIsLockstep(prog, run, k, p);
    if i < run[k][p].Pc() {
      RunKeepsInv(prog, run, k);
      ReachedByAll(prog, run[k], p, i);
      IdealAt(prog, p, run[k][p].Pc(), i);
      TotalOfHeld(prog, run[k], i, 0);
    }
  }

  /** The pieces of the first m parties add up to those that party sp has given away, and its own. */
  lemma {:induction false} DealtPieces(prog: Program, history: seq<Result>, dealt: seq<int>, m: nat)
    requires m <= |dealt| == prog.n && forall q :: 0 <= q < prog.n && q != prog.sp ==> dealt[q] == prog.value(prog.sp, history, q)
    ensures Sum(dealt, m) == Pieces(prog, history, m) + if prog.sp < m then dealt[prog.sp] else 0
  {
    if m > 0 { DealtPieces(prog, history, dealt, m - 1); }
  }

  /** One value at every party for instruction i. */
  predicate AllDealt(prog: Program, sys: System, i: nat) {
    |sys| == prog.n
    && forall q :: 0 <= q < prog.n ==>
         i < sys[q].Pc() && sys[q].history[i].Values? && |sys[q].history[i].values| == 1
  }

  function DealtAt(prog: Program, sys: System, i: nat): seq<int>
    requires AllDealt(prog, sys, i)
  {
    seq(prog.n, q requires 0 <= q < prog.n => sys[q].history[i].values[0])
  }

  /** Past a dealing, everybody has a piece from party sp, and the pieces sum to its secret. */
  lemma DealingSharesSecret(prog: Program, run: seq<System>, k: nat, i: nat)
    requires WellFormed(prog) && IsRun(prog, run) && k < |run| && i < |prog.code| && prog.code[i].Scatter?
    requires forall q :: 0 <= q < |run[k]| ==> i < run[k][q].Pc()
    ensures AllDealt(prog, run[k], i)
    ensures var history := run[k][prog.sp].history[..i];
            && (forall q :: 0 <= q < prog.n && q != prog.sp ==>
                  DealtAt(prog, run[k], i)[q] == prog.value(prog.sp, history, q))
            && Sum(DealtAt(prog, run[k], i), prog.n) == prog.value(prog.sp, history, prog.sp)
  {
    var sys := run[k];
    RunKeepsInv(prog, run, k);
    forall q | 0 <= q < prog.n ensures sys[q].history[i] == IdealResult(prog, q, i) {
      RunIsLockstep(prog, run, k, q);
      IdealAt(prog, q, sys[q].Pc(), i);
    }
    RunIsLockstep(prog, run, k, prog.sp);
    IdealTake(prog, prog.sp, sys[prog.sp].Pc(), i);
    DealtPieces(prog, sys[prog.sp].history[..i], DealtAt(prog, sys, i), prog.n);
  }

  ghost predicate Stuck(prog: Program, sys: System) {
    forall p: nat, a: Action :: p < |sys| ==> !Enabled(prog, sys, p, a)
  }

  lemma NothingInFlight(prog: Program, sys: System, p: nat, key: Key)
    requires forall q :: 0 <= q < |sys| ==> sys[q].Pc() >= |prog.code|
    ensures !Accounted(prog, sys, p, key)
  {
    forall i: nat, e: nat ensures !InFlight(prog, sys, key.from, p, i, e) {
    }
  }

  lemma StuckIsFinished(prog: Program, sys: System, p: nat)
    requires WellFormed(prog) && Inv(prog, sys) && Stuck(prog, sys) && p < |sys|
    ensures sys[p].Pc() == |prog.code|
  {
    if sys[p].Pc() < |prog.code| {
      var r, a := NoDeadlock(prog, sys, p);
    }
  }

  /** A run that cannot be continued has finished everywhere, with all mailboxes empty. */
  lemma MaximalRun(prog: Program, run: seq<System>, p: nat)
    requires WellFormed(prog) && IsRun(prog, run) && p < prog.n && Stuck(prog, run[|run| - 1])
    ensures |run[|run| - 1]| == prog.n
    ensures run[|run| - 1][p].history == Ideal(prog, p, |prog.code|)
    ensures run[|run| - 1][p].box == map[]
  {
    var last := run[|run| - 1];
    RunKeepsInv(prog, run, |run| - 1);
    forall q: nat | q < |last| ensures last[q].Pc() == |prog.code| {
      StuckIsFinished(prog, last, q);
    }
    forall key ensures key !in last[p].box {
      NothingInFlight(prog, last, p, key);
    }
  }
}
