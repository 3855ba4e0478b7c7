/**
 Jobs that decide from opened values what to do next, like the retry loops of subRBS
 (Share/Compare.cpp, lines 214-230) and getRandBitShare (Share/Share.hpp, lines 435-452) or the
 branches on an opened number in the comparison tests.  All parties open the same values, so they
 take the same decisions: every run of such a job is a run of one fixed program.
 */
module AdaptiveRuns {
  import opened Options
  import opened ShareIds
  import opened Exchange
  import opened ExchangeProofs
  import opened ExchangeRuns
  import opened SharingCode
  import opened JobResults

  /** The next call, from the values opened so far and the ids of the shares constructed so far. */
  datatype Strategy = Strategy(n: nat, sp: nat, choose: (seq<Result>, Ids) -> Option<Call>,
                               value: (nat, seq<Result>, nat) -> int)

  /** Whatever was opened, the next call exchanges shares that it constructs. */
  ghost predicate IsStrategy(s: Strategy) {
    && s.sp < s.n
    && forall known, ids :: Sound(ids) && s.choose(known, ids).Some? ==> IsCall(ids, s.choose(known, ids).value)
  }

  /** What a party may decide upon: the results of openings, which everybody has. */
  function Known(code: seq<Instr>, history: seq<Result>): seq<Result> {
    seq(|history|, i requires 0 <= i < |history| => if i < |code| && code[i].Open? then history[i] else Nothing)
  }

  /** The code with the next call, if there is one. */
  function Extended(s: Strategy, code: seq<Instr>, history: seq<Result>): seq<Instr> {
    if |code| != |history| then code
    else
      match s.choose(Known(code, history), After(NO_IDS, code))
      case None => code
      case Some(call) => code + CallCode(After(NO_IDS, code), call)
  }

  /** The instructions that a party with this history has decided upon. */
  function CodeOf(s: Strategy, history: seq<Result>): seq<Instr> {
    if |history| == 0 then Extended(s, [], [])
    else Extended(s, CodeOf(s, history[..|history| - 1]), history)
  }

  function Fixed(s: Strategy, code: seq<Instr>): Program {
    Program(s.n, s.sp, code, s.value)
  }

  /** The program as the party with this history sees it. */
  function View(s: Strategy, history: seq<Result>): Program {
    Fixed(s, CodeOf(s, history))
  }

  ghost predicate IsAdaptiveStep(s: Strategy, sys: System, sys': System) {
    exists p: nat, a: Action :: p < |sys| && Enabled(View(s, sys[p].history), sys, p, a)
                                && sys' == Apply(View(s, sys[p].history), sys, p, a)
  }

  ghost predicate IsAdaptiveRun(s: Strategy, run: seq<System>) {
    && |run| > 0 && run[0] == Initial(Fixed(s, []))
    && forall k :: 0 <= k < |run| - 1 ==> IsAdaptiveStep(s, run[k], run[k + 1])
  }

  // ---------- the program of the lockstep execution ----------

  /** The code after k instructions when all parties move together. */
  function LockCode(s: Strategy, k: nat): seq<Instr> {
    if k == 0 then Extended(s, [], [])
    else
      var code := LockCode(s, k - 1);
      if |code| < k then code else Extended(s, code, Ideal(Fixed(s, code), s.sp, k))
  }

  lemma {:induction false} LockCodeGrows(s: Strategy, j: nat, k: nat)
    requires j <= k
    ensures LockCode(s, j) <= LockCode(s, k)
    ensures |LockCode(s, j)| <= j ==> LockCode(s, k) == LockCode(s, j)
    decreases k
  {
    if j < k { LockCodeGrows(s, j, k - 1); }
  }

  lemma {:induction false} LockCodeOk(s: Strategy, k: nat)
    requires IsStrategy(s)
    ensures CodeOk(NO_IDS, LockCode(s, k)) && Sound(After(NO_IDS, LockCode(s, k)))
  {
    if k == 0 {
      NoCodeOk(NO_IDS);
      ExtendedOk(s, [], []);
    } else {
      LockCodeOk(s, k - 1);
      var code := LockCode(s, k - 1);
      if |code| >= k { ExtendedOk(s, code, Ideal(Fixed(s, code), s.sp, k)); }
    }
  }

  lemma ExtendedOk(s: Strategy, code: seq<Instr>, history: seq<Result>)
    requires IsStrategy(s) && CodeOk(NO_IDS, code) && Sound(After(NO_IDS, code))
    ensures CodeOk(NO_IDS, Extended(s, code, history)) && Sound(After(NO_IDS, Extended(s, code, history)))
  {
    var ids := After(NO_IDS, code);
    var next := s.choose(Known(code, history), ids);
    if |code| == |history| && next.Some? {
      CallOk(ids, next.value);
      CodeAppend(NO_IDS, code, CallCode(ids, next.value));
      IdsExtend(NO_IDS, code + CallCode(ids, next.value), 0, |code + CallCode(ids, next.value)|);
    }
  }

  // ---------- longer code changes nothing about the past ----------

  lemma {:induction false} IdealPrefix(s: Strategy, c: seq<Instr>, d: seq<Instr>, p: nat, k: nat)
    requires c <= d && k <= |c|
    ensures Ideal(Fixed(s, d), p, k) == Ideal(Fixed(s, c), p, k)
    decreases k, 0
  {
    if k > 0 {
      IdealPrefix(s, c, d, p, k - 1);
      IdealResultPrefix(s, c, d, p, k - 1);
    }
  }

  lemma {:induction false} TotalPrefix(s: Strategy, c: seq<Instr>, d: seq<Instr>, k: nat, e: nat, m: nat)
    requires c <= d && k <= |c|
    ensures Total(Fixed(s, d), k, e, m) == Total(Fixed(s, c), k, e, m)
    decreases k, 1, m
  {
    if m > 0 {
      TotalPrefix(s, c, d, k, e, m - 1);
      IdealPrefix(s, c, d, m - 1, k);
    }
  }

  lemma {:induction false} PiecesSame(s: Strategy, c: seq<Instr>, d: seq<Instr>, history: seq<Result>, m: nat)
    ensures Pieces(Fixed(s, d), history, m) == Pieces(Fixed(s, c), history, m)
  {
    if m > 0 { PiecesSame(s, c, d, history, m - 1); }
  }

  lemma IdealResultPrefix(s: Strategy, c: seq<Instr>, d: seq<Instr>, p: nat, k: nat)
    requires c <= d && k < |c|
    ensures IdealResult(Fixed(s, d), p, k) == IdealResult(Fixed(s, c), p, k)
    decreases k, 2
  {
    assert d[k] == c[k];
    match c[k]
    case New(_, _) =>
    case Open(slots) =>
      forall e: nat | e < |slots| ensures Total(Fixed(s, d), k, e, s.n) == Total(Fixed(s, c), k, e, s.n) {
        TotalPrefix(s, c, d, k, e, s.n);
      }
    case Gather(_) => TotalPrefix(s, c, d, k, 0, s.n);
    case Scatter(_) =>
      IdealPrefix(s, c, d, s.sp, k);
      PiecesSame(s, c, d, Ideal(Fixed(s, c), s.sp, k), s.n);
  }

  /** All parties know the same. */
  lemma KnownByAll(s: Strategy, code: seq<Instr>, p: nat, q: nat, k: nat)
    requires k <= |code|
    ensures Known(code, Ideal(Fixed(s, code), p, k)) == Known(code, Ideal(Fixed(s, code), q, k))
  {
    var prog := Fixed(s, code);
    forall i | 0 <= i < k && code[i].Open? ensures Ideal(prog, p, k)[i] == Ideal(prog, q, k)[i] {
      IdealAt(prog, p, k, i);
      IdealAt(prog, q, k, i);
    }
  }

  /** So every party decides upon the code of the lockstep execution. */
  lemma {:induction false} CodeOfIdeal(s: Strategy, m: nat, p: nat, i: nat)
    requires i <= m && i <= |LockCode(s, m)|
    ensures CodeOf(s, Ideal(Fixed(s, LockCode(s, m)), p, i)) == LockCode(s, i)
  {
    if i > 0 {
      var d, history := LockCode(s, m), Ideal(Fixed(s, LockCode(s, m)), p, i);
      assert history[..i - 1] == Ideal(Fixed(s, d), p, i - 1);
      CodeOfIdeal(s, m, p, i - 1);
      var c := LockCode(s, i - 1);
      LockCodeGrows(s, i - 1, m);
      if |c| >= i {
        IdealPrefix(s, c, d, p, i);
        KnownByAll(s, c, p, s.sp, i);
      }
    }
  }

  // ---------- every adaptive run is a run of that program ----------

  /** Two programs that agree on the instruction at hand, or that both have none. */
  ghost predicate SameNext(prog: Program, prog': Program, k: nat) {
    && prog.n == prog'.n && prog.sp == prog'.sp && prog.value == prog'.value
    && (k < |prog.code| <==> k < |prog'.code|) && (k < |prog.code| ==> prog.code[k] == prog'.code[k])
  }

  lemma SameEnabled(prog: Program, prog': Program, sys: System, p: nat, a: Action)
    requires p < |sys| && SameNext(prog, prog', sys[p].Pc())
    ensures Enabled(prog, sys, p, a) <==> Enabled(prog', sys, p, a)
  {
  }

  lemma SameReceive(prog: Program, prog': Program, p: nat, pt: Party)
    requires SameNext(prog, prog', pt.Pc()) && pt.Pc() < |prog.code| && pt.phase.Receiving?
    requires Waits(prog, p, pt) ==> Awaited(prog, pt) in pt.box
    ensures Receive(prog, p, pt) == Receive(prog', p, pt)
  {
  }

  lemma SamePieces(prog: Program, prog': Program, history: seq<Result>, m: nat)
    requires prog.sp == prog'.sp && prog.value == prog'.value
    ensures Pieces(prog, history, m) == Pieces(prog', history, m)
  {
    if m > 0 { SamePieces(prog, prog', history, m - 1); }
  }

  lemma SameProceeded(prog: Program, prog': Program, p: nat, pt: Party)
    requires SameNext(prog, prog', pt.Pc()) && pt.Pc() < |prog.code|
    requires Waits(prog, p, pt) ==> Awaited(prog, pt) in pt.box
    ensures Proceeded(prog, p, pt) == Proceeded(prog', p, pt)
  {
    if pt.phase.Receiving? { SameReceive(prog, prog', p, pt); }
    SamePieces(prog, prog', pt.history, prog.n);
  }

  lemma SameApply(prog: Program, prog': Program, sys: System, p: nat, a: Action)
    requires p < |sys| && SameNext(prog, prog', sys[p].Pc()) && Enabled(prog, sys, p, a)
    ensures Enabled(prog', sys, p, a) && Apply(prog, sys, p, a) == Apply(prog', sys, p, a)
  {
    SameEnabled(prog, prog', sys, p, a);
    match a
    case Proceed => SameProceeded(prog, prog', p, sys[p]);
    case SendTo(dest) =>
      assert MessageIds(prog, sys[p]) == MessageIds(prog', sys[p]);
      assert MessageValues(prog, p, sys[p], dest) == MessageValues(prog', p, sys[p], dest);
  }

  /** A party in step sees the program of the lockstep execution. */
  lemma ViewInStep(s: Strategy, m: nat, p: nat, history: seq<Result>)
    requires |history| <= m && |history| <= |LockCode(s, m)|
    requires history == Ideal(Fixed(s, LockCode(s, m)), p, |history|)
    ensures SameNext(View(s, history), Fixed(s, LockCode(s, m)), |history|)
    ensures CodeOf(s, history) == LockCode(s, |history|)
  {
    CodeOfIdeal(s, m, p, |history|);
    LockCodeGrows(s, |history|, m);
  }

  lemma StepMovesByOne(prog: Program, sys: System, p: nat, a: Action, q: nat)
    requires p < |sys| && q < |sys| && Enabled(prog, sys, p, a)
    ensures |Apply(prog, sys, p, a)| == |sys| && Apply(prog, sys, p, a)[q].Pc() <= sys[q].Pc() + 1
  {
  }

  /** n parties, none of which has finished more than k instructions. */
  predicate AtMost(sys: System, n: nat, k: nat) {
    |sys| == n && forall p :: 0 <= p < n ==> sys[p].Pc() <= k
  }

  lemma RunExtends(prog: Program, run: seq<System>, k: nat)
    requires k + 1 < |run| && IsRun(prog, run[..k + 1]) && IsStep(prog, run[k], run[k + 1])
    ensures IsRun(prog, run[..k + 2])
  {
    var longer := run[..k + 2];
    forall i | 0 <= i < |longer| - 1 ensures IsStep(prog, longer[i], longer[i + 1]) {
      if i < k {
        assert run[..k + 1][i] == longer[i] && run[..k + 1][i + 1] == longer[i + 1];
      }
    }
    assert longer[0] == run[..k + 1][0];
  }

  /** Before its m-th state an adaptive run is a run of the program decided upon by then. */
  lemma {:induction false} AdaptiveIsRun(s: Strategy, run: seq<System>, m: nat, k: nat)
    requires IsStrategy(s) && IsAdaptiveRun(s, run) && k < |run| && k <= m
    ensures IsRun(Fixed(s, LockCode(s, m)), run[..k + 1])
    ensures AtMost(run[k], s.n, k)
  {
    if k == 0 {
      assert Initial(Fixed(s, LockCode(s, m))) == Initial(Fixed(s, []));
    } else {
      AdaptiveIsRun(s, run, m, k - 1);
      AdaptiveStepIsStep(s, run, m, k - 1);
      RunExtends(Fixed(s, LockCode(s, m)), run, k - 1);
    }
  }

  lemma AdaptiveStepIsStep(s: Strategy, run: seq<System>, m: nat, k: nat)
    requires IsStrategy(s) && IsAdaptiveRun(s, run) && k + 1 < |run| && k < m
    requires IsRun(Fixed(s, LockCode(s, m)), run[..k + 1])
    requires AtMost(run[k], s.n, k)
    ensures IsStep(Fixed(s, LockCode(s, m)), run[k], run[k + 1])
    ensures AtMost(run[k + 1], s.n, k + 1)
  {
    var prog, sys := Fixed(s, LockCode(s, m)), run[k];
    LockCodeOk(s, m);
    var p: nat, a: Action :| p < |sys| && Enabled(View(s, sys[p].history), sys, p, a)
                             && run[k + 1] == Apply(View(s, sys[p].history), sys, p, a);
    RunIsLockstep(prog, run[..k + 1], k, p);
    ViewInStep(s, m, p, sys[p].history);
    SameApply(View(s, sys[p].history), prog, sys, p, a);
    var sys' := run[k + 1];
    StepMovesByOne(prog, sys, p, a, p);
    forall q | 0 <= q < s.n ensures sys'[q].Pc() <= k + 1 {
      StepMovesByOne(prog, sys, p, a, q);
    }
  }

  /** An adaptive run is a run of one fixed, well formed program. */
  lemma AdaptiveRunIsRun(s: Strategy, run: seq<System>, m: nat)
    requires IsStrategy(s) && IsAdaptiveRun(s, run) && |run| <= m + 1
    ensures WellFormed(Fixed(s, LockCode(s, m))) && IsRun(Fixed(s, LockCode(s, m)), run)
    ensures forall k :: 0 <= k < |run| ==> AtMost(run[k], s.n, k)
  {
    LockCodeOk(s, m);
    AdaptiveIsRun(s, run, m, |run| - 1);
    assert run[..|run|] == run;
    forall k | 0 <= k < |run| ensures AtMost(run[k], s.n, k) {
      AdaptiveIsRun(s, run, m, k);
    }
  }

  /**
   At every time of every adaptive run: the history and the ids of a party are those of the lockstep
   execution, and what it has decided to do depends on its position only.
   */
  lemma AdaptiveLockstep(s: Strategy, run: seq<System>, k: nat, p: nat)
    requires IsStrategy(s) && IsAdaptiveRun(s, run) && k < |run| && p < s.n
    ensures |run[k]| == s.n && run[k][p].Pc() <= |LockCode(s, |run|)|
    ensures var prog, pt := Fixed(s, LockCode(s, |run|)), run[k][p];
            && pt.history == Ideal(prog, p, pt.Pc()) && pt.ids == IdsFrom(NO_IDS, prog.code, pt.Pc(), false)
            && CodeOf(s, pt.history) == LockCode(s, pt.Pc())
  {
    AdaptiveRunIsRun(s, run, |run|);
    RunIsLockstep(Fixed(s, LockCode(s, |run|)), run, k, p);
    ViewInStep(s, |run|, p, run[k][p].history);
  }

  ghost predicate AdaptiveStuck(s: Strategy, sys: System) {
    forall p: nat, a: Action :: p < |sys| ==> !Enabled(View(s, sys[p].history), sys, p, a)
  }

  lemma StuckAsFixed(s: Strategy, run: seq<System>)
    requires IsStrategy(s) && IsAdaptiveRun(s, run) && AdaptiveStuck(s, run[|run| - 1])
    ensures Stuck(Fixed(s, LockCode(s, |run|)), run[|run| - 1])
  {
    var prog, last := Fixed(s, LockCode(s, |run|)), run[|run| - 1];
    AdaptiveRunIsRun(s, run, |run|);
    assert AtMost(last, s.n, |run| - 1);
    forall q: nat, a: Action | q < |last| ensures !Enabled(prog, last, q, a) {
      AdaptiveLockstep(s, run, |run| - 1, q);
      ViewInStep(s, |run|, q, last[q].history);
      SameEnabled(View(s, last[q].history), prog, last, q, a);
    }
  }

  /** A run that cannot be continued: everybody has done all it decided to do, and nothing is left over. */
  lemma AdaptiveMaximal(s: Strategy, run: seq<System>, p: nat)
    requires IsStrategy(s) && IsAdaptiveRun(s, run) && p < s.n && AdaptiveStuck(s, run[|run| - 1])
    ensures |run[|run| - 1]| == s.n
    ensures var pt := run[|run| - 1][p];
            && pt.Pc() == |CodeOf(s, pt.history)| && CodeOf(s, pt.history) == LockCode(s, |run|)
            && pt.history == Ideal(Fixed(s, LockCode(s, |run|)), p, pt.Pc()) && pt.box == map[]
  {
    var prog, last := Fixed(s, LockCode(s, |run|)), run[|run| - 1];
    AdaptiveRunIsRun(s, run, |run|);
    StuckAsFixed(s, run);
    MaximalRun(prog, run, p);
    AdaptiveLockstep(s, run, |run| - 1, p);
    LockCodeGrows(s, last[p].Pc(), |run|);
  }

  /** If the lockstep execution ends, every run does, within the work of its program. */
  lemma AdaptiveRunsAreFinite(s: Strategy, run: seq<System>, m: nat)
    requires IsStrategy(s) && IsAdaptiveRun(s, run) && |LockCode(s, m)| <= m
    ensures |run| - 1 <= TotalWork(Fixed(s, LockCode(s, m)), Initial(Fixed(s, LockCode(s, m))))
  {
    var bound := if m < |run| then |run| else m;
    LockCodeGrows(s, m, bound);
    AdaptiveRunIsRun(s, run, bound);
    RunsAreFinite(Fixed(s, LockCode(s, m)), run);
  }

  // ---------- the calls that are decided upon ----------

  /** What is chosen when exactly this code is done. */
  function Choice(s: Strategy, code: seq<Instr>): Option<Call> {
    s.choose(Known(code, Ideal(Fixed(s, code), s.sp, |code|)), After(NO_IDS, code))
  }

  /** Each call was chosen when those before it were done. */
  ghost predicate WereChosen(s: Strategy, calls: seq<Call>) {
    IsJob(calls) && forall c :: 0 <= c < |calls| ==> Choice(s, JobCode(calls[..c])) == Some(calls[c])
  }

  lemma ChosenNext(s: Strategy, calls: seq<Call>) returns (more: seq<Call>)
    requires IsStrategy(s) && WereChosen(s, calls)
    ensures WereChosen(s, more)
    ensures var code := JobCode(calls); JobCode(more) == Extended(s, code, Ideal(Fixed(s, code), s.sp, |code|))
  {
    JobOk(calls);
    match Choice(s, JobCode(calls))
    case None => more := calls;
    case Some(call) =>
      more := calls + [call];
      assert more[..|calls|] == calls;
      forall c | 0 <= c < |more| ensures Choice(s, JobCode(more[..c])) == Some(more[c]) {
        assert more[..c] == calls[..c];
      }
  }

  lemma ChosenFirst(s: Strategy) returns (calls: seq<Call>)
    requires IsStrategy(s)
    ensures WereChosen(s, calls)
    ensures JobCode(calls) == LockCode(s, 0)
  {
    calls := ChosenNext(s, []);
  }

  lemma ChosenMore(s: Strategy, k: nat, before: seq<Call>) returns (calls: seq<Call>)
    requires IsStrategy(s) && WereChosen(s, before) && k > 0 && JobCode(before) == LockCode(s, k - 1)
    ensures WereChosen(s, calls)
    ensures JobCode(calls) == LockCode(s, k)
  {
    if |JobCode(before)| == k {
      calls := ChosenNext(s, before);
    } else {
      calls := before;
    }
  }

  /** The code of the lockstep execution is that of a job. */
  lemma {:induction false} ChosenCalls(s: Strategy, k: nat) returns (calls: seq<Call>)
    requires IsStrategy(s)
    ensures WereChosen(s, calls)
    ensures JobCode(calls) == LockCode(s, k)
  {
    if k == 0 {
      calls := ChosenFirst(s);
    } else {
      var before := ChosenCalls(s, k - 1);
      calls := ChosenMore(s, k, before);
    }
  }

  lemma CallHasCode(ids: Ids, call: Call)
    ensures |CallCode(ids, call)| > 0
  {
  }

  /** Nothing more was chosen in the end. */
  lemma ChoiceEnds(s: Strategy, m: nat)
    requires |LockCode(s, m)| <= m
    ensures Choice(s, LockCode(s, m)).None?
  {
    var code := LockCode(s, m);
    EndOfCode(s, m);
    if Choice(s, code).Some? { CallHasCode(After(NO_IDS, code), Choice(s, code).value); }
  }

  lemma EndOfCode(s: Strategy, m: nat)
    requires |LockCode(s, m)| <= m
    ensures var code := LockCode(s, m); Extended(s, code, Ideal(Fixed(s, code), s.sp, |code|)) == code
  {
    var code := LockCode(s, m);
    var k := |code|;
    LockCodeGrows(s, k, m);
    if k > 0 {
      LockCodeGrows(s, k - 1, m);
      LockCodeGrows(s, k - 1, k);
    }
  }

  /** What this history decides after the first c calls: the next one, or to end after the last. */
  predicate Decides(s: Strategy, calls: seq<Call>, c: nat, history: seq<Result>)
    requires c <= |calls|
  {
    var front := JobCode(calls[..c]);
    |front| <= |history|
    && s.choose(Known(front, history[..|front|]), After(NO_IDS, front)) == if c < |calls| then Some(calls[c]) else None
  }

  predicate DecidesAll(s: Strategy, calls: seq<Call>, history: seq<Result>) {
    forall c :: 0 <= c <= |calls| ==> Decides(s, calls, c, history)
  }

  lemma ChoicesOfParty(s: Strategy, calls: seq<Call>, p: nat)
    requires WereChosen(s, calls) && Choice(s, JobCode(calls)).None?
    ensures DecidesAll(s, calls, Ideal(Fixed(s, JobCode(calls)), p, |JobCode(calls)|))
  {
    var code := JobCode(calls);
    forall c | 0 <= c <= |calls| ensures Decides(s, calls, c, Ideal(Fixed(s, code), p, |code|)) {
      var front := JobCode(calls[..c]);
      JobPrefix(calls, c);
      IdealTake(Fixed(s, code), p, |code|, |front|);
      IdealPrefix(s, front, code, p, |front|);
      KnownByAll(s, front, p, s.sp, |front|);
      if c == |calls| { assert calls[..c] == calls; }
    }
  }

  /**
   A finished adaptive run has done the calls of one job: by every party's own history each of them
   was chosen from what had been opened before it, nothing more was chosen after the last, and each
   has done its exchanges.
   */
  lemma AdaptiveComputes(s: Strategy, run: seq<System>) returns (calls: seq<Call>)
    requires IsStrategy(s) && IsAdaptiveRun(s, run) && AdaptiveStuck(s, run[|run| - 1])
    ensures |run[|run| - 1]| == s.n
    ensures var last := run[|run| - 1]; forall p :: 0 <= p < s.n ==> DecidesAll(s, calls, last[p].history)
    ensures forall c :: 0 <= c < |calls| ==>
              CallResults(Fixed(s, JobCode(calls)), run[|run| - 1], |JobCode(calls[..c])|, calls[c])
  {
    var last := run[|run| - 1];
    calls := ChosenCalls(s, |run|);
    AdaptiveRunIsRun(s, run, |run|);
    AdaptiveMaximal(s, run, s.sp);
    assert AtMost(last, s.n, |run| - 1);
    ChoiceEnds(s, |run|);
    forall p | 0 <= p < s.n ensures DecidesAll(s, calls, last[p].history) {
      AdaptiveMaximal(s, run, p);
      ChoicesOfParty(s, calls, p);
    }
    StuckAsFixed(s, run);
    forall c | 0 <= c < |calls|
      ensures CallResults(Fixed(s, JobCode(calls)), last, |JobCode(calls[..c])|, calls[c])
    {
      JobComputes(Fixed(s, LockCode(s, |run|)), calls, run, c);
    }
  }

  // ---------- a retry loop ----------

  /** Construct a share and open it, until what is opened is not zero. */
  function Retry(known: seq<Result>, ids: Ids): Option<Call> {
    if |known| > 0 && known[|known| - 1] != Values([0]) then None
    else Some(Opening([FromValue], [|ids.held|]))
  }

  lemma RetryIsStrategy(s: Strategy)
    requires s.sp < s.n && s.choose == Retry
    ensures IsStrategy(s)
  {
    forall known, ids | Sound(ids) && s.choose(known, ids).Some? ensures IsCall(ids, s.choose(known, ids).value) {
      ExecOne(ids, FromValue);
    }
  }

  /** Whatever is opened, each round ends with the opening of one share. */
  lemma {:induction false} RetryCode(s: Strategy, k: nat)
    requires s.choose == Retry
    ensures var code := LockCode(s, k);
            |code| > 0 && code[|code| - 1].Open? && |code[|code| - 1].slots| == 1
  {
    if k > 0 { RetryCode(s, k - 1); }
  }

  /** A party that has nothing left to do has opened something other than zero. */
  lemma RetryStops(s: Strategy, history: seq<Result>)
    requires s.choose == Retry && |history| == |CodeOf(s, history)| > 0 && CodeOf(s, history)[|history| - 1].Open?
    ensures history[|history| - 1] != Values([0])
  {
    var before := CodeOf(s, history[..|history| - 1]);
    assert CodeOf(s, history) == before;
    assert Known(before, history)[|history| - 1] == history[|history| - 1];
  }

  /** Every party leaves the loop in the same round, with the same value that is not zero. */
  lemma RetryEndsForAll(s: Strategy, run: seq<System>, p: nat, q: nat)
    requires s.sp < s.n && s.choose == Retry && IsAdaptiveRun(s, run) && AdaptiveStuck(s, run[|run| - 1])
    requires p < s.n && q < s.n
    ensures |run[|run| - 1]| == s.n
    ensures var a, b := run[|run| - 1][p].history, run[|run| - 1][q].history;
            |a| == |b| > 0 && a[|a| - 1] == b[|b| - 1] != Values([0])
  {
    RetryIsStrategy(s);
    AdaptiveMaximal(s, run, p);
    AdaptiveMaximal(s, run, q);
    RetryCode(s, |run|);
    var prog := Fixed(s, LockCode(s, |run|));
    var last := |prog.code| - 1;
    RetryStops(s, run[|run| - 1][p].history);
    IdealAt(prog, p, |prog.code|, last);
    IdealAt(prog, q, |prog.code|, last);
  }
}
