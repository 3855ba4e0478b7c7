/**
 What every interleaving of the share exchange keeps: id counters in lockstep, mailboxes that
 hold exactly the messages in flight, and results equal to those of the lockstep execution.  No
 message overwrites another, no unfinished state is stuck, and every run is finite.
 */
module ExchangeProofs {
  import opened Exchange
  import opened ShareIds

  /** The id under which the e-th share of instruction i travels. */
  function Id(prog: Program, i: nat, e: nat): nat
    requires i < |prog.code| && e < |Slots(prog.code[i])|
  {
    Address(NO_IDS, prog.code, i, e)
  }

  function Addressed(prog: Program, i: nat): seq<nat>
    requires i < |prog.code|
  {
    seq(|Slots(prog.code[i])|, e requires 0 <= e < |Slots(prog.code[i])| => Id(prog, i, e))
  }

  // ---------- the invariant ----------

  predicate HasSent(pt: Party, i: nat, p: nat) {
    pt.Pc() > i || (pt.Pc() == i && (pt.phase.Receiving? || (pt.phase.Sending? && p !in pt.phase.pending)))
  }

  predicate Expects(pt: Party, i: nat, q: nat, e: nat) {
    pt.Pc() < i
    || (pt.Pc() == i && (pt.phase.Receiving? ==> q > pt.phase.from || (q == pt.phase.from && e >= pt.phase.elem)))
  }

  /** The e-th share of instruction i is on its way from q to p. */
  predicate InFlight(prog: Program, sys: System, q: nat, p: nat, i: nat, e: nat) {
    && q < |sys| && p < |sys| && i < |prog.code| && Link(prog, i, q, p)
    && e < |Slots(prog.code[i])| && HasSent(sys[q], i, p) && Expects(sys[p], i, q, e)
  }

  function Message(prog: Program, q: nat, p: nat, i: nat, e: nat): int
    requires i < |prog.code|
  {
    Contribution(prog, q, Ideal(prog, q, i), prog.code[i], p, e)
  }

  predicate SumsUpTo(prog: Program, k: nat, width: nat, ph: Phase)
    requires ph.Receiving? && k <= |prog.code|
  {
    && ph.from <= prog.n && ph.elem <= width == |ph.sums| && (ph.from == prog.n ==> ph.elem == 0)
    && forall e :: 0 <= e < width ==> ph.sums[e] == Total(prog, k, e, ph.from + if e < ph.elem then 1 else 0)
  }

  predicate PhaseOk(prog: Program, p: nat, pt: Party)
    requires pt.Pc() <= |prog.code|
  {
    pt.phase.Idle?
    || (pt.Pc() < |prog.code|
        && match prog.code[pt.Pc()]
           case New(_, _) => false
           case Open(slots) =>
             (pt.phase.Sending? && pt.phase.pending <= Others(prog.n, p))
             || (pt.phase.Receiving? && SumsUpTo(prog, pt.Pc(), |slots|, pt.phase))
           case Gather(_) =>
             if p == prog.sp then pt.phase.Receiving? && SumsUpTo(prog, pt.Pc(), 1, pt.phase)
             else pt.phase.Sending? && pt.phase.pending <= {prog.sp}
           case Scatter(_) =>
             if p == prog.sp then pt.phase.Sending? && pt.phase.pending <= Others(prog.n, p)
             else pt.phase.Awaiting?)
  }

  /** The ids of a party are the lockstep ones, whatever branch it took. */
  predicate InStep(prog: Program, pt: Party) {
    pt.Pc() <= |prog.code| && pt.ids == IdsFrom(NO_IDS, prog.code, pt.Pc(), false)
  }

  /** Results are the lockstep ones. */
  predicate LocalOk(prog: Program, p: nat, pt: Party) {
    && pt.Pc() <= |prog.code|
    && pt.history == Ideal(prog, p, pt.Pc())
    && PhaseOk(prog, p, pt)
  }

  ghost predicate Delivered(prog: Program, sys: System) {
    forall q: nat, p: nat, i: nat, e: nat :: InFlight(prog, sys, q, p, i, e) ==>
      && Key(q, Id(prog, i, e)) in sys[p].box
      && sys[p].box[Key(q, Id(prog, i, e))] == Message(prog, q, p, i, e)
  }

  ghost predicate Accounted(prog: Program, sys: System, p: nat, key: Key) {
    exists i: nat, e: nat :: InFlight(prog, sys, key.from, p, i, e) && Uses(NO_IDS, prog.code, i, e, key.id)
  }

  /** Nothing is read before it is sent. */
  predicate Causal(prog: Program, sys: System, q: nat, p: nat, i: nat, e: nat) {
    q < |sys| && p < |sys| && i < |prog.code| && Link(prog, i, q, p) && e < |Slots(prog.code[i])| ==>
      HasSent(sys[q], i, p) || Expects(sys[p], i, q, e)
  }

  ghost predicate Inv(prog: Program, sys: System) {
    && |sys| == prog.n
    && (forall q: nat, p: nat, i: nat, e: nat :: Causal(prog, sys, q, p, i, e))
    && (forall p :: 0 <= p < |sys| ==> LocalOk(prog, p, sys[p]))
    && (forall p {:trigger InStep(prog, sys[p])} :: 0 <= p < |sys| ==> InStep(prog, sys[p]))
    && Delivered(prog, sys)
    && forall p, key :: 0 <= p < |sys| && key in sys[p].box ==> Accounted(prog, sys, p, key)
  }

  lemma InitialInv(prog: Program)
    requires WellFormed(prog)
    ensures Inv(prog, Initial(prog))
  {
  }

  // ---------- local facts ----------

  /** Every party addresses the shares of the current instruction by the same ids. */
  lemma Addresses(prog: Program, p: nat, pt: Party)
    requires WellFormed(prog) && LocalOk(prog, p, pt) && InStep(prog, pt) && pt.Pc() < |prog.code|
    ensures MessageIds(prog, pt) == Addressed(prog, pt.Pc())
    ensures Waits(prog, p, pt) ==>
              Awaited(prog, pt) == Key(if pt.phase.Receiving? then pt.phase.from else prog.sp,
                                       Id(prog, pt.Pc(), if pt.phase.Receiving? then pt.phase.elem else 0))
  {
  }

  /** The branches of a New leave the same ids. */
  lemma BranchesAgree(prog: Program, k: nat, isSp: bool)
    requires WellFormed(prog) && k < |prog.code|
    ensures Exec(IdsFrom(NO_IDS, prog.code, k, false), Events(prog.code[k], isSp))
         == IdsFrom(NO_IDS, prog.code, k + 1, false)
  {
    assert IdsFrom(NO_IDS, prog.code, k, true) == IdsFrom(NO_IDS, prog.code, k, false);
    assert IdsFrom(NO_IDS, prog.code, k + 1, true) == IdsFrom(NO_IDS, prog.code, k + 1, false);
  }

  /** Only a New touches the ids, and only the end of an instruction moves the party on. */
  lemma ProceededIds(prog: Program, p: nat, pt: Party)
    requires LocalOk(prog, p, pt) && pt.Pc() < |prog.code| && (Waits(prog, p, pt) ==> Awaited(prog, pt) in pt.box)
    ensures var pt', instr := Proceeded(prog, p, pt), prog.code[pt.Pc()];
            || (pt'.ids == pt.ids && pt'.Pc() == pt.Pc())
            || (pt'.ids == Exec(pt.ids, Events(instr, p == prog.sp)) && pt'.Pc() == pt.Pc() + 1)
  {
  }

  lemma KeepsInStep(prog: Program, p: nat, pt: Party)
    requires WellFormed(prog) && LocalOk(prog, p, pt) && InStep(prog, pt) && pt.Pc() < |prog.code|
    requires Waits(prog, p, pt) ==> Awaited(prog, pt) in pt.box
    ensures InStep(prog, Proceeded(prog, p, pt))
  {
    ProceededIds(prog, p, pt);
    BranchesAgree(prog, pt.Pc(), p == prog.sp);
  }

  /** Finishing an instruction with the lockstep result. */
  lemma Finished(prog: Program, p: nat, pt: Party, r: Result)
    requires LocalOk(prog, p, pt) && pt.Pc() < |prog.code| && !prog.code[pt.Pc()].New?
    requires r == IdealResult(prog, p, pt.Pc())
    ensures LocalOk(prog, p, pt.Finish(r))
  {
  }

  lemma BeginOk(prog: Program, p: nat, pt: Party)
    requires WellFormed(prog) && p < prog.n && LocalOk(prog, p, pt) && pt.phase.Idle? && pt.Pc() < |prog.code|
    ensures LocalOk(prog, p, Begin(prog, p, pt))
  {
  }

  lemma AfterSendsOk(prog: Program, p: nat, pt: Party)
    requires prog.sp < prog.n && p < prog.n && LocalOk(prog, p, pt) && pt.Pc() < |prog.code|
    requires pt.phase.Sending? && pt.phase.pending == {}
    ensures LocalOk(prog, p, AfterSends(prog, pt))
  {
  }

  lemma AddValueOk(prog: Program, k: nat, width: nat, ph: Phase, v: int)
    requires k <= |prog.code| && ph.Receiving? && SumsUpTo(prog, k, width, ph)
    requires ph.from < prog.n && ph.elem < width && v == prog.value(ph.from, Ideal(prog, ph.from, k), ph.elem)
    ensures SumsUpTo(prog, k, width, AddValue(ph, v))
  {
    var ph' := AddValue(ph, v);
    forall e | 0 <= e < width
      ensures ph'.sums[e] == Total(prog, k, e, ph'.from + if e < ph'.elem then 1 else 0)
    {
      if e == ph.elem {
        assert Total(prog, k, e, ph.from + 1) == Total(prog, k, e, ph.from) + v;
      }
    }
  }

  lemma SumsComplete(prog: Program, p: nat, pt: Party)
    requires prog.sp < prog.n && p < prog.n && LocalOk(prog, p, pt) && pt.Pc() < |prog.code|
    requires pt.phase.Receiving? && pt.phase.from >= prog.n
    ensures Values(pt.phase.sums) == IdealResult(prog, p, pt.Pc())
  {
    if prog.code[pt.Pc()].Open? {
      var sums := pt.phase.sums;
      assert sums == seq(|sums|, e requires 0 <= e => Total(prog, pt.Pc(), e, prog.n));
    }
  }

  // ---------- steps that leave the mailboxes alone ----------

  /** Nothing changes about what party p has sent and still expects. */
  ghost predicate SameTraffic(prog: Program, p: nat, pt: Party, pt': Party) {
    && (forall i: nat, d: nat :: i < |prog.code| && Link(prog, i, p, d) ==> (HasSent(pt', i, d) <==> HasSent(pt, i, d)))
    && forall i: nat, q: nat, e: nat :: i < |prog.code| && Link(prog, i, q, p) && e < |Slots(prog.code[i])| ==>
         (Expects(pt', i, q, e) <==> Expects(pt, i, q, e))
  }

  lemma Unaffected(prog: Program, sys: System, p: nat, pt': Party)
    requires Inv(prog, sys) && p < |sys| && LocalOk(prog, p, pt') && InStep(prog, pt') && pt'.box == sys[p].box
    requires SameTraffic(prog, p, sys[p], pt')
    ensures Inv(prog, sys[p := pt'])
  {
    var sys' := sys[p := pt'];
    forall q: nat, r: nat, i: nat, e: nat
      ensures InFlight(prog, sys', q, r, i, e) <==> InFlight(prog, sys, q, r, i, e)
      ensures Causal(prog, sys', q, r, i, e)
    {
      assert Causal(prog, sys, q, r, i, e);
    }
    forall r, key | 0 <= r < |sys'| && key in sys'[r].box ensures Accounted(prog, sys', r, key) {
      assert Accounted(prog, sys, r, key);
      var i: nat, e: nat :| InFlight(prog, sys, key.from, r, i, e) && Uses(NO_IDS, prog.code, i, e, key.id);
      assert InFlight(prog, sys', key.from, r, i, e);
    }
  }

  lemma BeginTraffic(prog: Program, p: nat, pt: Party)
    requires p < prog.n && pt.phase.Idle? && pt.Pc() < |prog.code|
    ensures SameTraffic(prog, p, pt, Begin(prog, p, pt))
  {
  }

  lemma AfterSendsTraffic(prog: Program, p: nat, pt: Party)
    requires p < prog.n && LocalOk(prog, p, pt) && pt.Pc() < |prog.code|
    requires pt.phase.Sending? && pt.phase.pending == {}
    ensures SameTraffic(prog, p, pt, AfterSends(prog, pt))
  {
  }

  lemma ReceiveOwn(prog: Program, p: nat, pt: Party)
    requires prog.sp < prog.n && p < prog.n && LocalOk(prog, p, pt) && pt.Pc() < |prog.code|
    requires pt.phase.Receiving? && !Waits(prog, p, pt)
    ensures LocalOk(prog, p, Receive(prog, p, pt)) && SameTraffic(prog, p, pt, Receive(prog, p, pt))
  {
    var ph := pt.phase;
    if ph.from >= prog.n {
      SumsComplete(prog, p, pt);
    } else if ph.elem >= |Slots(prog.code[pt.Pc()])| {
    } else {
      AddValueOk(prog, pt.Pc(), |Slots(prog.code[pt.Pc()])|, ph,
                 Contribution(prog, p, pt.history, prog.code[pt.Pc()], p, ph.elem));
    }
  }

  // ---------- reading a message ----------

  /** Party p no longer expects the e-th share of instruction k from q, and nothing else changes. */
  ghost predicate TookOne(prog: Program, p: nat, pt: Party, pt': Party, k: nat, q: nat, e: nat) {
    && (forall i: nat, d: nat :: i < |prog.code| && Link(prog, i, p, d) ==> (HasSent(pt', i, d) <==> HasSent(pt, i, d)))
    && forall i: nat, r: nat, f: nat :: i < |prog.code| && Link(prog, i, r, p) && f < |Slots(prog.code[i])| ==>
         (Expects(pt', i, r, f) <==> Expects(pt, i, r, f) && !(i == k && r == q && f == e))
  }

  /** Exactly one message fewer is in flight. */
  ghost predicate OneFewer(prog: Program, sys: System, sys': System, p: nat, k: nat, q: nat, e: nat) {
    forall q': nat, r: nat, i: nat, f: nat :: InFlight(prog, sys', q', r, i, f)
      <==> InFlight(prog, sys, q', r, i, f) && !(r == p && i == k && q' == q && f == e)
  }

  lemma StillAccounted(prog: Program, sys: System, sys': System, p: nat, k: nat, q: nat, e: nat, r: nat, key: Key)
    requires OneFewer(prog, sys, sys', p, k, q, e) && Accounted(prog, sys, r, key) && k < |prog.code|
    requires e < |Slots(prog.code[k])| && (r != p || key != Key(q, Id(prog, k, e)))
    ensures Accounted(prog, sys', r, key)
  {
    var i: nat, f: nat :| InFlight(prog, sys, key.from, r, i, f) && Uses(NO_IDS, prog.code, i, f, key.id);
    assert InFlight(prog, sys', key.from, r, i, f);
  }

  lemma StillDelivered(prog: Program, sys: System, sys': System, p: nat, k: nat, q: nat, e: nat,
                       q': nat, r: nat, i: nat, f: nat)
    requires WellFormed(prog) && Delivered(prog, sys) && OneFewer(prog, sys, sys', p, k, q, e)
    requires k < |prog.code| && e < |Slots(prog.code[k])| && InFlight(prog, sys', q', r, i, f) && r < |sys|
    requires sys'[r].box == if r == p then sys[r].box - {Key(q, Id(prog, k, e))} else sys[r].box
    ensures Key(q', Id(prog, i, f)) in sys'[r].box
    ensures sys'[r].box[Key(q', Id(prog, i, f))] == Message(prog, q', r, i, f)
  {
    assert InFlight(prog, sys, q', r, i, f);
    assert Uses(NO_IDS, prog.code, k, e, Id(prog, k, e)) && Uses(NO_IDS, prog.code, i, f, Id(prog, i, f));
  }

  lemma MessageTaken(prog: Program, sys: System, p: nat, pt': Party, k: nat, q: nat, e: nat)
    requires WellFormed(prog) && Inv(prog, sys) && p < |sys| && LocalOk(prog, p, pt') && InStep(prog, pt')
    requires InFlight(prog, sys, q, p, k, e) && TookOne(prog, p, sys[p], pt', k, q, e)
    requires pt'.box == sys[p].box - {Key(q, Id(prog, k, e))}
    ensures Inv(prog, sys[p := pt'])
  {
    var sys' := sys[p := pt'];
    FlightsTaken(prog, sys, p, pt', k, q, e);
    forall q': nat, r: nat, i: nat, f: nat ensures Causal(prog, sys', q', r, i, f) {
      assert Causal(prog, sys, q', r, i, f);
    }
    forall q': nat, r: nat, i: nat, f: nat | InFlight(prog, sys', q', r, i, f)
      ensures Key(q', Id(prog, i, f)) in sys'[r].box
              && sys'[r].box[Key(q', Id(prog, i, f))] == Message(prog, q', r, i, f)
    {
      StillDelivered(prog, sys, sys', p, k, q, e, q', r, i, f);
    }
    forall r, key | 0 <= r < |sys'| && key in sys'[r].box ensures Accounted(prog, sys', r, key) {
      StillAccounted(prog, sys, sys', p, k, q, e, r, key);
    }
  }

  lemma FlightsTaken(prog: Program, sys: System, p: nat, pt': Party, k: nat, q: nat, e: nat)
    requires p < |sys| && k < |prog.code| && e < |Slots(prog.code[k])| && TookOne(prog, p, sys[p], pt', k, q, e)
    ensures OneFewer(prog, sys, sys[p := pt'], p, k, q, e)
  {
  }

  /** A message that is waited for and present comes from the instruction that waits for it. */
  lemma WaitedMessage(prog: Program, sys: System, p: nat)
    requires WellFormed(prog) && Inv(prog, sys) && p < |sys| && Waits(prog, p, sys[p])
    requires Awaited(prog, sys[p]) in sys[p].box
    ensures var e := if sys[p].phase.Receiving? then sys[p].phase.elem else 0;
            var q := Awaited(prog, sys[p]).from;
            && InFlight(prog, sys, q, p, sys[p].Pc(), e)
            && Awaited(prog, sys[p]) == Key(q, Id(prog, sys[p].Pc(), e))
            && sys[p].box[Awaited(prog, sys[p])] == Message(prog, q, p, sys[p].Pc(), e)
  {
    Addresses(prog, p, sys[p]);
    var key := Awaited(prog, sys[p]);
    assert Accounted(prog, sys, p, key);
  }

  lemma ReceiveMessage(prog: Program, sys: System, p: nat)
    requires WellFormed(prog) && Inv(prog, sys) && p < |sys| && Waits(prog, p, sys[p])
    requires Awaited(prog, sys[p]) in sys[p].box
    ensures Inv(prog, sys[p := Proceeded(prog, p, sys[p])])
  {
    var pt := sys[p];
    WaitedMessage(prog, sys, p);
    assert InStep(prog, pt);
    KeepsInStep(prog, p, pt);
    ReadOk(prog, p, pt);
    MessageTaken(prog, sys, p, Proceeded(prog, p, pt), pt.Pc(), Awaited(prog, pt).from,
                 if pt.phase.Receiving? then pt.phase.elem else 0);
  }

  /** Reading the value of the lockstep execution keeps the party in step. */
  lemma ReadOk(prog: Program, p: nat, pt: Party)
    requires WellFormed(prog) && p < prog.n && LocalOk(prog, p, pt) && Waits(prog, p, pt)
    requires Awaited(prog, pt) in pt.box
    requires pt.box[Awaited(prog, pt)]
          == Message(prog, Awaited(prog, pt).from, p, pt.Pc(), if pt.phase.Receiving? then pt.phase.elem else 0)
    ensures var pt' := Proceeded(prog, p, pt);
            && LocalOk(prog, p, pt') && pt'.box == pt.box - {Awaited(prog, pt)}
            && TookOne(prog, p, pt, pt', pt.Pc(), Awaited(prog, pt).from,
                       if pt.phase.Receiving? then pt.phase.elem else 0)
  {
    if pt.phase.Receiving? {
      AddValueOk(prog, pt.Pc(), |Slots(prog.code[pt.Pc()])|, pt.phase, pt.box[Awaited(prog, pt)]);
    }
  }

  // ---------- sending a message ----------

  lemma NotAccounted(prog: Program, sys: System, p: nat, dest: nat, key: Key)
    requires WellFormed(prog) && Inv(prog, sys) && p < |sys| && Enabled(prog, sys, p, SendTo(dest))
    requires key.from == p && key.id in Addressed(prog, sys[p].Pc())
    ensures !Accounted(prog, sys, dest, key)
  {
    var k := sys[p].Pc();
    var e: nat :| e < |Slots(prog.code[k])| && Id(prog, k, e) == key.id;
    assert Uses(NO_IDS, prog.code, k, e, key.id);
    forall i: nat, f: nat ensures !(InFlight(prog, sys, p, dest, i, f) && Uses(NO_IDS, prog.code, i, f, key.id)) {
    }
  }

  /** The receiver's mailbox holds none of the addresses: nothing is overwritten. */
  lemma NoOverwrite(prog: Program, sys: System, p: nat, dest: nat, key: Key)
    requires WellFormed(prog) && Inv(prog, sys) && p < |sys| && Enabled(prog, sys, p, SendTo(dest))
    requires key.from == p && key.id in MessageIds(prog, sys[p])
    ensures key !in sys[dest].box
  {
    Addresses(prog, p, sys[p]);
    NotAccounted(prog, sys, p, dest, key);
  }

  /** Exactly the shares of one instruction join the flight, from p to dest. */
  ghost predicate OneMore(prog: Program, sys: System, sys': System, p: nat, k: nat, dest: nat) {
    forall q: nat, r: nat, i: nat, f: nat :: InFlight(prog, sys', q, r, i, f)
      <==> InFlight(prog, sys, q, r, i, f)
           || (q == p && r == dest && i == k && k < |prog.code| && f < |Slots(prog.code[k])|)
  }

  /** The state after the message: p has one destination less, dest has the message. */
  predicate SentState(prog: Program, sys: System, sys': System, p: nat, dest: nat)
    requires p < |sys| && Enabled(prog, sys, p, SendTo(dest))
  {
    && |sys'| == |sys|
    && forall r :: 0 <= r < |sys| ==>
         sys'[r] == sys[r].(
           phase := if r == p then Sending(sys[p].phase.pending - {dest}) else sys[r].phase,
           box := if r == dest then Posted(sys[dest].box, p, MessageIds(prog, sys[p]), MessageValues(prog, p, sys[p], dest))
                  else sys[r].box)
  }

  lemma SendState(prog: Program, sys: System, p: nat, dest: nat)
    requires p < |sys| && Enabled(prog, sys, p, SendTo(dest)) && dest != p
    ensures SentState(prog, sys, Apply(prog, sys, p, SendTo(dest)), p, dest)
  {
  }

  lemma FlightSent(prog: Program, sys: System, sys': System, p: nat, dest: nat, q: nat, r: nat, i: nat, f: nat)
    requires p < |sys| && Enabled(prog, sys, p, SendTo(dest)) && SentState(prog, sys, sys', p, dest)
    requires Link(prog, sys[p].Pc(), p, dest) && Causal(prog, sys, q, r, i, f)
    ensures InFlight(prog, sys', q, r, i, f)
        <==> InFlight(prog, sys, q, r, i, f)
             || (q == p && r == dest && i == sys[p].Pc() && f < |Slots(prog.code[sys[p].Pc()])|)
    ensures Causal(prog, sys', q, r, i, f)
  {
    if q < |sys| && i < |prog.code| {
      assert HasSent(sys'[q], i, r) <==> HasSent(sys[q], i, r) || (q == p && r == dest && i == sys[p].Pc());
    }
    if r < |sys| {
      assert Expects(sys'[r], i, q, f) <==> Expects(sys[r], i, q, f);
    }
  }

  lemma FlightsSent(prog: Program, sys: System, sys': System, p: nat, dest: nat)
    requires p < |sys| && Enabled(prog, sys, p, SendTo(dest)) && SentState(prog, sys, sys', p, dest)
    requires Link(prog, sys[p].Pc(), p, dest)
    requires forall q: nat, r: nat, i: nat, f: nat :: Causal(prog, sys, q, r, i, f)
    ensures OneMore(prog, sys, sys', p, sys[p].Pc(), dest)
    ensures forall q: nat, r: nat, i: nat, f: nat :: Causal(prog, sys', q, r, i, f)
  {
    forall q: nat, r: nat, i: nat, f: nat
      ensures InFlight(prog, sys', q, r, i, f)
        <==> InFlight(prog, sys, q, r, i, f)
             || (q == p && r == dest && i == sys[p].Pc() && f < |Slots(prog.code[sys[p].Pc()])|)
      ensures Causal(prog, sys', q, r, i, f)
    {
      FlightSent(prog, sys, sys', p, dest, q, r, i, f);
    }
  }

  lemma SentAccounted(prog: Program, sys: System, sys': System, p: nat, k: nat, dest: nat, r: nat, key: Key)
    requires OneMore(prog, sys, sys', p, k, dest) && k < |prog.code|
    requires Accounted(prog, sys, r, key) || (r == dest && key.from == p && key.id in Addressed(prog, k))
    ensures Accounted(prog, sys', r, key)
  {
    if Accounted(prog, sys, r, key) {
      var i: nat, f: nat :| InFlight(prog, sys, key.from, r, i, f) && Uses(NO_IDS, prog.code, i, f, key.id);
      assert InFlight(prog, sys', key.from, r, i, f);
    } else {
      var f: nat :| f < |Slots(prog.code[k])| && Id(prog, k, f) == key.id;
      assert InFlight(prog, sys', p, dest, k, f) && Uses(NO_IDS, prog.code, k, f, key.id);
    }
  }

  /** The mailbox of dest after the message: the new values, and the old ones untouched. */
  lemma SentDelivered(prog: Program, sys: System, p: nat, dest: nat, q: nat, i: nat, f: nat)
    requires WellFormed(prog) && Inv(prog, sys) && p < |sys| && Enabled(prog, sys, p, SendTo(dest))
    requires InFlight(prog, sys, q, dest, i, f)
             || (q == p && i == sys[p].Pc() && f < |Slots(prog.code[sys[p].Pc()])|)
    ensures var key := Key(q, Id(prog, i, f));
            var box := Posted(sys[dest].box, p, MessageIds(prog, sys[p]), MessageValues(prog, p, sys[p], dest));
            key in box && box[key] == Message(prog, q, dest, i, f)
  {
    var ids, values := MessageIds(prog, sys[p]), MessageValues(prog, p, sys[p], dest);
    Addresses(prog, p, sys[p]);
    var key := Key(q, Id(prog, i, f));
    if InFlight(prog, sys, q, dest, i, f) {
      if q == p && key.id in ids { NotAccounted(prog, sys, p, dest, key); }
      PostedKeys(sys[dest].box, p, ids, values, key);
    } else {
      DistinctSlots(prog, i);
      PostedValue(sys[dest].box, p, ids, values, f);
    }
  }

  lemma DistinctSlots(prog: Program, i: nat)
    requires WellFormed(prog) && i < |prog.code|
    ensures forall f, g :: 0 <= f < g < |Slots(prog.code[i])| ==> Id(prog, i, f) != Id(prog, i, g)
  {
    forall f, g | 0 <= f < g < |Slots(prog.code[i])| ensures Id(prog, i, f) != Id(prog, i, g) {
      assert Uses(NO_IDS, prog.code, i, f, Id(prog, i, f)) && Uses(NO_IDS, prog.code, i, g, Id(prog, i, g));
    }
  }

  lemma SendOk(prog: Program, p: nat, pt: Party, dest: nat)
    requires LocalOk(prog, p, pt) && pt.Pc() < |prog.code| && pt.phase.Sending?
    ensures LocalOk(prog, p, pt.(phase := Sending(pt.phase.pending - {dest})))
  {
  }

  lemma SendLink(prog: Program, p: nat, pt: Party, dest: nat)
    requires WellFormed(prog) && p < prog.n && dest < prog.n && LocalOk(prog, p, pt) && pt.Pc() < |prog.code|
    requires pt.phase.Sending? && dest in pt.phase.pending
    ensures Link(prog, pt.Pc(), p, dest)
  {
  }

  lemma DeliveredAfterSend(prog: Program, sys: System, sys': System, p: nat, dest: nat)
    requires WellFormed(prog) && Inv(prog, sys) && p < |sys| && Enabled(prog, sys, p, SendTo(dest))
    requires SentState(prog, sys, sys', p, dest) && OneMore(prog, sys, sys', p, sys[p].Pc(), dest)
    ensures Delivered(prog, sys')
  {
    forall q: nat, r: nat, i: nat, f: nat | InFlight(prog, sys', q, r, i, f)
      ensures Key(q, Id(prog, i, f)) in sys'[r].box
              && sys'[r].box[Key(q, Id(prog, i, f))] == Message(prog, q, r, i, f)
    {
      if r == dest { SentDelivered(prog, sys, p, dest, q, i, f); }
    }
  }

  lemma AccountedAfterSend(prog: Program, sys: System, sys': System, p: nat, dest: nat, r: nat, key: Key)
    requires WellFormed(prog) && Inv(prog, sys) && p < |sys| && Enabled(prog, sys, p, SendTo(dest))
    requires SentState(prog, sys, sys', p, dest) && OneMore(prog, sys, sys', p, sys[p].Pc(), dest)
    requires r < |sys'| && key in sys'[r].box
    ensures Accounted(prog, sys', r, key)
  {
    Addresses(prog, p, sys[p]);
    PostedKeys(sys[dest].box, p, MessageIds(prog, sys[p]), MessageValues(prog, p, sys[p], dest), key);
    SentAccounted(prog, sys, sys', p, sys[p].Pc(), dest, r, key);
  }

  lemma MessageSent(prog: Program, sys: System, p: nat, dest: nat)
    requires WellFormed(prog) && Inv(prog, sys) && p < |sys| && Enabled(prog, sys, p, SendTo(dest))
    ensures Inv(prog, Apply(prog, sys, p, SendTo(dest)))
  {
    var sys' := Apply(prog, sys, p, SendTo(dest));
    SendLink(prog, p, sys[p], dest);
    SendState(prog, sys, p, dest);
    FlightsSent(prog, sys, sys', p, dest);
    DeliveredAfterSend(prog, sys, sys', p, dest);
    forall r: nat, key | r < |sys'| && key in sys'[r].box ensures Accounted(prog, sys', r, key) {
      AccountedAfterSend(prog, sys, sys', p, dest, r, key);
    }
    forall r | 0 <= r < |sys'| ensures InStep(prog, sys'[r]) {
      assert InStep(prog, sys[r]);
    }
    forall r | 0 <= r < |sys'| ensures LocalOk(prog, r, sys'[r]) {
      LocalAfterSend(prog, sys, sys', p, dest, r);
    }
  }

  lemma LocalAfterSend(prog: Program, sys: System, sys': System, p: nat, dest: nat, r: nat)
    requires p < |sys| && r < |sys| && Enabled(prog, sys, p, SendTo(dest)) && SentState(prog, sys, sys', p, dest)
    requires LocalOk(prog, r, sys[r])
    ensures LocalOk(prog, r, sys'[r])
  {
    if r == p { SendOk(prog, p, sys[p], dest); }
  }

  // ---------- every step ----------

  lemma StepKeepsInv(prog: Program, sys: System, p: nat, a: Action)
    requires WellFormed(prog) && Inv(prog, sys) && p < |sys| && Enabled(prog, sys, p, a)
    ensures Inv(prog, Apply(prog, sys, p, a))
  {
    var pt := sys[p];
    match a
    case SendTo(dest) => MessageSent(prog, sys, p, dest);
    case Proceed =>
      if Waits(prog, p, pt) {
        ReceiveMessage(prog, sys, p);
      } else {
        ProceedAlone(prog, sys, p);
      }
  }

  lemma BeginAlone(prog: Program, sys: System, p: nat)
    requires WellFormed(prog) && Inv(prog, sys) && p < |sys| && sys[p].Pc() < |prog.code| && sys[p].phase.Idle?
    ensures Inv(prog, sys[p := Begin(prog, p, sys[p])])
  {
    assert InStep(prog, sys[p]);
    KeepsInStep(prog, p, sys[p]);
    BeginOk(prog, p, sys[p]);
    BeginTraffic(prog, p, sys[p]);
    Unaffected(prog, sys, p, Begin(prog, p, sys[p]));
  }

  lemma AfterSendsAlone(prog: Program, sys: System, p: nat)
    requires WellFormed(prog) && Inv(prog, sys) && p < |sys| && sys[p].Pc() < |prog.code|
    requires sys[p].phase.Sending? && sys[p].phase.pending == {}
    ensures Inv(prog, sys[p := AfterSends(prog, sys[p])])
  {
    assert InStep(prog, sys[p]);
    KeepsInStep(prog, p, sys[p]);
    AfterSendsOk(prog, p, sys[p]);
    AfterSendsTraffic(prog, p, sys[p]);
    Unaffected(prog, sys, p, AfterSends(prog, sys[p]));
  }

  lemma ReceiveAlone(prog: Program, sys: System, p: nat)
    requires WellFormed(prog) && Inv(prog, sys) && p < |sys| && sys[p].Pc() < |prog.code|
    requires sys[p].phase.Receiving? && !Waits(prog, p, sys[p])
    ensures Inv(prog, sys[p := Receive(prog, p, sys[p])])
  {
    assert InStep(prog, sys[p]);
    KeepsInStep(prog, p, sys[p]);
    ReceiveOwn(prog, p, sys[p]);
    OwnReceiptKeepsBox(prog, p, sys[p]);
    Unaffected(prog, sys, p, Receive(prog, p, sys[p]));
  }

  lemma OwnReceiptKeepsBox(prog: Program, p: nat, pt: Party)
    requires pt.Pc() < |prog.code| && pt.phase.Receiving? && !Waits(prog, p, pt) && LocalOk(prog, p, pt)
    ensures Receive(prog, p, pt).box == pt.box
  {
  }

  lemma ProceedAlone(prog: Program, sys: System, p: nat)
    requires WellFormed(prog) && Inv(prog, sys) && p < |sys| && Enabled(prog, sys, p, Proceed)
    requires !Waits(prog, p, sys[p])
    ensures Inv(prog, sys[p := Proceeded(prog, p, sys[p])])
  {
    match sys[p].phase
    case Idle => BeginAlone(prog, sys, p);
    case Sending(_) => AfterSendsAlone(prog, sys, p);
    case Receiving(_, _, _) => ReceiveAlone(prog, sys, p);
    case Awaiting =>
  }
}
