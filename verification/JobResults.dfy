/**
 What a job of openings, dealings, inversions and bit sharings leaves behind once it has finished,
 call by call: Share/Share.hpp, lines 103-127 and 318-369, Share/Compare.cpp, lines 597-619, and
 Share/Networking.hpp, lines 61-147.
 */
module JobResults {
  import opened Sums
  import opened ShareIds
  import opened Exchange
  import opened ExchangeProofs
  import opened ExchangeRuns
  import opened SharingCode

  // ---------- results of one instruction, when all parties are past it ----------

  /** Every party has m results, each the sum of what all parties hold for that share. */
  predicate IsOpening(prog: Program, sys: System, i: nat, m: nat) {
    && AllReached(prog, sys, i)
    && forall p :: 0 <= p < prog.n ==>
         && i < sys[p].Pc() && sys[p].history[i].Values? && |sys[p].history[i].values| == m
         && forall e :: 0 <= e < m ==> sys[p].history[i].values[e] == Sum(HeldAt(prog, sys, i, e), prog.n)
  }

  /** Party sp has the sum of what all parties hold. */
  predicate IsGathering(prog: Program, sys: System, i: nat) {
    && AllReached(prog, sys, i) && prog.sp < prog.n && i < sys[prog.sp].Pc()
    && sys[prog.sp].history[i] == Values([Sum(HeldAt(prog, sys, i, 0), prog.n)])
  }

  /** Every other party has the piece that party sp gave it, and all pieces sum to the secret of sp. */
  predicate IsDealing(prog: Program, sys: System, i: nat) {
    && AllDealt(prog, sys, i) && prog.sp < prog.n
    && (forall q :: 0 <= q < prog.n && q != prog.sp ==>
          DealtAt(prog, sys, i)[q] == prog.value(prog.sp, sys[prog.sp].history[..i], q))
    && Sum(DealtAt(prog, sys, i), prog.n) == prog.value(prog.sp, sys[prog.sp].history[..i], prog.sp)
  }

  /** What a call leaves behind that begins at instruction start. */
  predicate CallResults(prog: Program, sys: System, start: nat, call: Call) {
    match call
    case Opening(_, slots) => IsOpening(prog, sys, start + 1, |slots|)
    case Sharizing => IsDealing(prog, sys, start + 1)
    case Inverting(_, de, _, _) =>
      IsOpening(prog, sys, start + 1, |de|) && IsGathering(prog, sys, start + 3) && IsDealing(prog, sys, start + 5)
    case BitSharing(bits) => forall b :: 0 <= b < bits ==> IsDealing(prog, sys, BitStart(start, b))
  }

  /** The dealing of the b-th bit of a bit sharing. */
  function BitStart(start: nat, b: nat): nat {
    start + 4 * b + 2
  }

  // ---------- finished runs ----------

  ghost predicate IsFinishedRun(prog: Program, run: seq<System>) {
    WellFormed(prog) && IsRun(prog, run) && Stuck(prog, run[|run| - 1])
  }

  lemma AllPast(prog: Program, run: seq<System>, i: nat)
    requires IsFinishedRun(prog, run) && i < |prog.code|
    ensures AllReached(prog, run[|run| - 1], i) && AllReached(prog, run[|run| - 1], i + 1)
  {
    var last := run[|run| - 1];
    RunIsLockstep(prog, run, |run| - 1, prog.sp);
    forall p | 0 <= p < prog.n ensures i + 1 <= last[p].Pc() {
      MaximalRun(prog, run, p);
    }
  }

  lemma OpeningDone(prog: Program, run: seq<System>, i: nat)
    requires IsFinishedRun(prog, run) && i < |prog.code| && prog.code[i].Open?
    ensures IsOpening(prog, run[|run| - 1], i, |prog.code[i].slots|)
  {
    var last, m := run[|run| - 1], |prog.code[i].slots|;
    AllPast(prog, run, i);
    forall p | 0 <= p < prog.n
      ensures last[p].history[i].Values? && |last[p].history[i].values| == m
      ensures forall e :: 0 <= e < m ==> last[p].history[i].values[e] == Sum(HeldAt(prog, last, i, e), prog.n)
    {
      RunIsLockstep(prog, run, |run| - 1, p);
      IdealAt(prog, p, last[p].Pc(), i);
      forall e | 0 <= e < m ensures last[p].history[i].values[e] == Sum(HeldAt(prog, last, i, e), prog.n) {
        OpeningsAgree(prog, run, |run| - 1, p, i, e);
      }
    }
  }

  lemma GatheringDone(prog: Program, run: seq<System>, i: nat)
    requires IsFinishedRun(prog, run) && i < |prog.code| && prog.code[i].Gather?
    ensures IsGathering(prog, run[|run| - 1], i)
  {
    AllPast(prog, run, i);
    GatheringsAgree(prog, run, |run| - 1, i);
  }

  lemma DealingDone(prog: Program, run: seq<System>, i: nat)
    requires IsFinishedRun(prog, run) && i < |prog.code| && prog.code[i].Scatter?
    ensures IsDealing(prog, run[|run| - 1], i)
  {
    AllPast(prog, run, i);
    DealingSharesSecret(prog, run, |run| - 1, i);
  }

  // ---------- where a call stands in the code of its job ----------

  /** A piece of code stands at position start. */
  predicate StandsAt(code: seq<Instr>, start: nat, piece: seq<Instr>) {
    start + |piece| <= |code| && forall i :: 0 <= i < |piece| ==> code[start + i] == piece[i]
  }

  lemma JobExtends(calls: seq<Call>)
    requires |calls| > 0
    ensures JobCode(calls[..|calls| - 1]) <= JobCode(calls)
  {
  }

  lemma {:induction false} JobPrefix(calls: seq<Call>, c: nat)
    requires c <= |calls|
    ensures JobCode(calls[..c]) <= JobCode(calls)
  {
    if c < |calls| {
      JobExtends(calls);
      JobPrefix(calls[..|calls| - 1], c);
      assert calls[..|calls| - 1][..c] == calls[..c];
    } else {
      assert calls[..c] == calls;
    }
  }

  lemma StandsAfter(front: seq<Instr>, piece: seq<Instr>, code: seq<Instr>)
    requires front + piece <= code
    ensures StandsAt(code, |front|, piece)
  {
    forall i | 0 <= i < |piece| ensures code[|front| + i] == piece[i] {
      assert (front + piece)[|front| + i] == piece[i];
    }
  }

  lemma CallInJob(calls: seq<Call>, c: nat)
    requires c < |calls|
    ensures var front := JobCode(calls[..c]);
            StandsAt(JobCode(calls), |front|, CallCode(After(NO_IDS, front), calls[c]))
  {
    var upTo := calls[..c + 1];
    assert upTo[..c] == calls[..c];
    JobPrefix(calls, c + 1);
    StandsAfter(JobCode(calls[..c]), CallCode(After(NO_IDS, JobCode(calls[..c])), calls[c]), JobCode(calls));
  }

  lemma {:induction false} BitDealing(v: nat, k: nat, bits: nat, b: nat)
    requires b < bits
    ensures var code := BitsCode(v, k, bits); |code| == 4 * bits && code[4 * b + 1].Scatter?
    decreases bits
  {
    var bit := OneBit(k, v + bits - 1);
    assert |bit| == 4 && bit[1].Scatter?;
    if bits > 1 {
      BitDealing(v, k + 3, bits - 1, if b > 0 then b - 1 else 0);
    } else {
      assert BitsCode(v, k + 3, 0) == [];
    }
  }

  lemma CallDone(prog: Program, run: seq<System>, start: nat, ids: Ids, call: Call)
    requires IsFinishedRun(prog, run) && StandsAt(prog.code, start, CallCode(ids, call)) && !call.BitSharing?
    ensures CallResults(prog, run[|run| - 1], start, call)
  {
    var piece := CallCode(ids, call);
    match call
    case Opening(events, slots) =>
      assert prog.code[start + 1] == piece[1] == Open(slots);
      OpeningDone(prog, run, start + 1);
    case Sharizing =>
      assert prog.code[start + 1] == piece[1];
      DealingDone(prog, run, start + 1);
    case Inverting(product, de, rest, u) =>
      assert prog.code[start + 1] == piece[1] == Open(de);
      assert prog.code[start + 3] == piece[3] == Gather(u);
      assert prog.code[start + 5] == piece[5] && piece[5].Scatter?;
      OpeningDone(prog, run, start + 1);
      GatheringDone(prog, run, start + 3);
      DealingDone(prog, run, start + 5);
  }

  lemma BitSharingDone(prog: Program, run: seq<System>, start: nat, ids: Ids, bits: nat)
    requires IsFinishedRun(prog, run) && StandsAt(prog.code, start, BitSharingCode(ids, bits))
    ensures CallResults(prog, run[|run| - 1], start, BitSharing(bits))
  {
    var piece := BitSharingCode(ids, bits);
    forall b | 0 <= b < bits ensures IsDealing(prog, run[|run| - 1], BitStart(start, b)) {
      BitDealing(|ids.held|, |ids.held| + bits, bits, b);
      assert prog.code[start + (4 * b + 2)] == piece[4 * b + 2];
      DealingDone(prog, run, BitStart(start, b));
    }
  }

  /** In every finished run of a job every call has done its exchanges, in whatever order the parties moved. */
  lemma JobComputes(prog: Program, calls: seq<Call>, run: seq<System>, c: nat)
    requires prog.sp < prog.n && IsJob(calls) && prog.code == JobCode(calls) && c < |calls|
    requires IsRun(prog, run) && Stuck(prog, run[|run| - 1])
    ensures CallResults(prog, run[|run| - 1], |JobCode(calls[..c])|, calls[c])
  {
    JobOk(calls);
    CallInJob(calls, c);
    var start, ids := |JobCode(calls[..c])|, After(NO_IDS, JobCode(calls[..c]));
    if calls[c].BitSharing? {
      BitSharingDone(prog, run, start, ids, calls[c].bits);
    } else {
      CallDone(prog, run, start, ids, calls[c]);
    }
  }
}
