/**
 The share exchange as a step machine: Share/Networking.hpp, Share/AddressId.hpp, the asymmetric
 steps of Share/Share.hpp (sharize and getInv), and the keyed mailbox of Server.cpp.  n parties
 run the same program, each at its own pace; a message is put into the receiver's mailbox under
 the sender and the share id, and is erased when it is read.
 */
module Exchange {
  import opened ShareIds

  /**
   What a party does: construct, copy, move and assign shares, in the branch of party sp or in that
   of the others; open shares to everybody and reconstruct them; send a share to party sp, which
   reconstructs it; or deal out a secret of party sp.  Shares are named by the order of their
   construction.
   */
  datatype Instr =
    | New(sp: seq<Event>, other: seq<Event>)
    | Open(slots: seq<nat>)
    | Gather(slot: nat)
    | Scatter(slot: nat)

  datatype Result = Nothing | Values(values: seq<int>)

  /**
   value(p, history, e) is what party p holds, after the given results, for the e-th share of the
   next instruction; for Scatter, what party sp gives to party e, and under e = sp its secret.
   */
  datatype Program = Program(n: nat, sp: nat, code: seq<Instr>, value: (nat, seq<Result>, nat) -> int)

  function Slots(instr: Instr): seq<nat> {
    match instr
    case New(_, _) => []
    case Open(slots) => slots
    case Gather(slot) => [slot]
    case Scatter(slot) => [slot]
  }

  /** The branch of one role. */
  function Events(instr: Instr, isSp: bool): seq<Event> {
    if !instr.New? then [] else if isSp then instr.sp else instr.other
  }

  /** The ids of a party in one role after k instructions. */
  function IdsFrom(s: Ids, code: seq<Instr>, k: nat, isSp: bool): Ids
    requires k <= |code|
  {
    if k == 0 then s else Exec(IdsFrom(s, code, k - 1, isSp), Events(code[k - 1], isSp))
  }

  /** The id of the e-th share that instruction i exchanges. */
  function Address(s: Ids, code: seq<Instr>, i: nat, e: nat): nat
    requires i < |code| && e < |Slots(code[i])|
  {
    IdAt(IdsFrom(s, code, i, false), Slots(code[i])[e])
  }

  function IdAt(s: Ids, slot: nat): nat {
    if slot < |s.held| then s.held[slot] else 0
  }

  const NO_IDS := Ids(0, [])

  /** The e-th share of instruction i goes under this id. */
  predicate Uses(s: Ids, code: seq<Instr>, i: nat, e: nat, id: nat) {
    i < |code| && e < |Slots(code[i])| && Address(s, code, i, e) == id
  }

  /** Both branches leave every object with the same id, in the same order. */
  predicate Balanced(s: Ids, code: seq<Instr>) {
    forall k :: 0 <= k <= |code| ==> IdsFrom(s, code, k, true) == IdsFrom(s, code, k, false)
  }

  /** Shares are exchanged after they are constructed, under an id drawn in this piece of code. */
  ghost predicate Constructed(s: Ids, code: seq<Instr>) {
    forall i: nat, e: nat, id: nat :: Uses(s, code, i, e, id) ==>
      Slots(code[i])[e] < |IdsFrom(s, code, i, false).held| && s.next <= id
  }

  /** No id is used for two exchanges. */
  ghost predicate Distinct(s: Ids, code: seq<Instr>) {
    forall i: nat, e: nat, j: nat, f: nat, id: nat ::
      Uses(s, code, i, e, id) && Uses(s, code, j, f, id) ==> i == j && e == f
  }

  ghost predicate CodeOk(s: Ids, code: seq<Instr>) {
    Balanced(s, code) && Constructed(s, code) && Distinct(s, code)
  }

  ghost predicate WellFormed(prog: Program) {
    prog.sp < prog.n && CodeOk(NO_IDS, prog.code)
  }

  // ---------- the mailbox ----------

  datatype Key = Key(from: nat, id: nat)

  type Mailbox = map<Key, int>

  /** ExchangeShares: the values go in under their ids, one after the other. */
  function Posted(box: Mailbox, from: nat, ids: seq<nat>, values: seq<int>): Mailbox
    requires |ids| == |values|
  {
    if |ids| == 0 then box
    else Posted(box, from, ids[..|ids| - 1], values[..|ids| - 1])[Key(from, ids[|ids| - 1]) := values[|ids| - 1]]
  }

  lemma {:induction false} PostedKeys(box: Mailbox, from: nat, ids: seq<nat>, values: seq<int>, key: Key)
    requires |ids| == |values|
    ensures key in Posted(box, from, ids, values) <==> key in box || (key.from == from && key.id in ids)
    ensures key.from != from || key.id !in ids ==>
              (key in box ==> Posted(box, from, ids, values)[key] == box[key])
  {
    if |ids| > 0 {
      PostedKeys(box, from, ids[..|ids| - 1], values[..|ids| - 1], key);
      assert ids == ids[..|ids| - 1] + [ids[|ids| - 1]];
    }
  }

  lemma {:induction false} PostedValue(box: Mailbox, from: nat, ids: seq<nat>, values: seq<int>, e: nat)
    requires e < |ids| == |values| && forall f, g :: 0 <= f < g < |ids| ==> ids[f] != ids[g]
    ensures Key(from, ids[e]) in Posted(box, from, ids, values)
    ensures Posted(box, from, ids, values)[Key(from, ids[e])] == values[e]
  {
    var last := |ids| - 1;
    if e < last {
      PostedValue(box, from, ids[..last], values[..last], e);
      assert ids[e] == ids[..last][e];
    }
  }

  /** The server of one party. */
  class Server {
    var shares: Mailbox

    constructor ()
      ensures shares == map[]
    {
      shares := map[];
    }

    method ExchangeShare(from: nat, id: nat, value: int)
      modifies this
      ensures shares == Posted(old(shares), from, [id], [value])
    {
      shares := shares[Key(from, id) := value];
      assert Posted(old(shares), from, [id][..0], [value][..0]) == old(shares);
    }

    method ExchangeShares(from: nat, ids: seq<nat>, values: seq<int>)
      requires |ids| == |values|
      modifies this
      ensures shares == Posted(old(shares), from, ids, values)
    {
      for i := 0 to |ids|
        invariant shares == Posted(old(shares), from, ids[..i], values[..i])
      {
        shares := shares[Key(from, ids[i]) := values[i]];
        assert ids[..i + 1][..i] == ids[..i] && values[..i + 1][..i] == values[..i];
      }
      assert ids[..|ids|] == ids && values[..|ids|] == values;
    }

    /** Runs once the condition variable has seen the key. */
    method GetShare(from: nat, id: nat) returns (value: int)
      requires Key(from, id) in shares
      modifies this
      ensures value == old(shares)[Key(from, id)] && shares == old(shares) - {Key(from, id)}
    {
      value := shares[Key(from, id)];
      shares := shares - {Key(from, id)};
    }
  }

  // ---------- the parties ----------

  /** Receiving: the shares of the parties before `from`, and its first elem shares, are added up. */
  datatype Phase = Idle | Sending(pending: set<nat>) | Receiving(from: nat, elem: nat, sums: seq<int>) | Awaiting

  datatype Party = Party(history: seq<Result>, ids: Ids, phase: Phase, box: Mailbox) {
    function Pc(): nat { |history| }

    function Finish(r: Result): Party {
      this.(history := history + [r], phase := Idle)
    }
  }

  type System = seq<Party>

  function Everyone(n: nat): (s: set<nat>)
    ensures forall q: nat :: q in s <==> q < n
    ensures |s| == n
  {
    if n == 0 then {} else
      var rest := Everyone(n - 1);
      assert n - 1 !in rest;
      rest + {n - 1}
  }

  function Others(n: nat, p: nat): set<nat> {
    Everyone(n) - {p}
  }

  /** Party q sends to party p in instruction i. */
  predicate Link(prog: Program, i: nat, q: nat, p: nat)
    requires i < |prog.code|
  {
    q < prog.n && p < prog.n && q != p
    && match prog.code[i]
       case New(_, _) => false
       case Open(_) => true
       case Gather(_) => p == prog.sp
       case Scatter(_) => q == prog.sp
  }

  /** What party p, with these results, sends to party dest for the e-th share of the instruction. */
  function Contribution(prog: Program, p: nat, history: seq<Result>, instr: Instr, dest: nat, e: nat): int {
    prog.value(p, history, if instr.Scatter? then dest else e)
  }

  /** The pieces that party sp gives to the first m parties. */
  function Pieces(prog: Program, history: seq<Result>, m: nat): int {
    if m == 0 then 0
    else Pieces(prog, history, m - 1) + if m - 1 == prog.sp then 0 else prog.value(prog.sp, history, m - 1)
  }

  /** Starting the next instruction. */
  function Begin(prog: Program, p: nat, pt: Party): Party
    requires pt.Pc() < |prog.code|
  {
    match prog.code[pt.Pc()]
    case New(_, _) => pt.(ids := Exec(pt.ids, Events(prog.code[pt.Pc()], p == prog.sp))).Finish(Nothing)
    case Open(_) => pt.(phase := Sending(Others(prog.n, p)))
    case Gather(_) => pt.(phase := if p == prog.sp then Receiving(0, 0, [0]) else Sending({prog.sp}))
    case Scatter(_) => pt.(phase := if p == prog.sp then Sending(Others(prog.n, p)) else Awaiting)
  }

  /** All sends are joined. */
  function AfterSends(prog: Program, pt: Party): Party
    requires pt.Pc() < |prog.code|
  {
    match prog.code[pt.Pc()]
    case New(_, _) => pt
    case Open(slots) => pt.(phase := Receiving(0, 0, seq(|slots|, e => 0)))
    case Gather(_) => pt.Finish(Nothing)
    case Scatter(_) =>
      pt.Finish(Values([prog.value(prog.sp, pt.history, prog.sp) - Pieces(prog, pt.history, prog.n)]))
  }

  datatype Action = Proceed | SendTo(dest: nat)

  /** The address that the receiving party waits for. */
  function Awaited(prog: Program, pt: Party): Key
    requires pt.Pc() < |prog.code| && |Slots(prog.code[pt.Pc()])| > 0
    requires pt.phase.Awaiting? || (pt.phase.Receiving? && pt.phase.elem < |Slots(prog.code[pt.Pc()])|)
  {
    var e := if pt.phase.Receiving? then pt.phase.elem else 0;
    Key(if pt.phase.Receiving? then pt.phase.from else prog.sp, IdAt(pt.ids, Slots(prog.code[pt.Pc()])[e]))
  }

  /** The next step of party p needs a message that another party has to send. */
  predicate Waits(prog: Program, p: nat, pt: Party) {
    && pt.Pc() < |prog.code| && |Slots(prog.code[pt.Pc()])| > 0
    && (pt.phase.Awaiting?
        || (pt.phase.Receiving? && pt.phase.from < prog.n && pt.phase.from != p
            && pt.phase.elem < |Slots(prog.code[pt.Pc()])|))
  }

  predicate Enabled(prog: Program, sys: System, p: nat, a: Action)
    requires p < |sys|
  {
    var pt := sys[p];
    && pt.Pc() < |prog.code|
    && match a
       case SendTo(dest) => pt.phase.Sending? && dest in pt.phase.pending && dest < |sys|
       case Proceed =>
         && (pt.phase.Sending? ==> pt.phase.pending == {})
         && (Waits(prog, p, pt) ==> Awaited(prog, pt) in pt.box)
  }

  /** One value more, from party `from`. */
  function AddValue(ph: Phase, v: int): Phase
    requires ph.Receiving? && ph.elem < |ph.sums|
  {
    Receiving(ph.from, ph.elem + 1, ph.sums[ph.elem := ph.sums[ph.elem] + v])
  }

  function Receive(prog: Program, p: nat, pt: Party): Party
    requires pt.phase.Receiving? && pt.Pc() < |prog.code|
    requires Waits(prog, p, pt) ==> Awaited(prog, pt) in pt.box
  {
    var ph := pt.phase;
    if ph.from >= prog.n then pt.Finish(Values(ph.sums))
    else if ph.elem >= |Slots(prog.code[pt.Pc()])| || ph.elem >= |ph.sums| then
      pt.(phase := Receiving(ph.from + 1, 0, ph.sums))
    else if ph.from == p then
      pt.(phase := AddValue(ph, Contribution(prog, p, pt.history, prog.code[pt.Pc()], p, ph.elem)))
    else
      var key := Awaited(prog, pt);
      pt.(phase := AddValue(ph, pt.box[key]), box := pt.box - {key})
  }

  function Await(prog: Program, p: nat, pt: Party): Party
    requires Waits(prog, p, pt) && pt.phase.Awaiting? && Awaited(prog, pt) in pt.box
  {
    var key := Awaited(prog, pt);
    pt.(box := pt.box - {key}).Finish(Values([pt.box[key]]))
  }

  function Proceeded(prog: Program, p: nat, pt: Party): Party
    requires pt.Pc() < |prog.code|
    requires Waits(prog, p, pt) ==> Awaited(prog, pt) in pt.box
  {
    match pt.phase
    case Idle => Begin(prog, p, pt)
    case Sending(_) => AfterSends(prog, pt)
    case Receiving(_, _, _) => Receive(prog, p, pt)
    case Awaiting => if Waits(prog, p, pt) then Await(prog, p, pt) else pt
  }

  /** The ids and values of one message. */
  function MessageIds(prog: Program, pt: Party): seq<nat>
    requires pt.Pc() < |prog.code|
  {
    var slots := Slots(prog.code[pt.Pc()]);
    seq(|slots|, e requires 0 <= e < |slots| => IdAt(pt.ids, slots[e]))
  }

  function MessageValues(prog: Program, p: nat, pt: Party, dest: nat): seq<int>
    requires pt.Pc() < |prog.code|
  {
    seq(|Slots(prog.code[pt.Pc()])|, e requires 0 <= e => Contribution(prog, p, pt.history, prog.code[pt.Pc()], dest, e))
  }

  function Apply(prog: Program, sys: System, p: nat, a: Action): System
    requires p < |sys| && Enabled(prog, sys, p, a)
  {
    var pt := sys[p];
    match a
    case Proceed => sys[p := Proceeded(prog, p, pt)]
    case SendTo(dest) =>
      var sys' := sys[p := pt.(phase := Sending(pt.phase.pending - {dest}))];
      sys'[dest := sys'[dest].(box :=
        Posted(sys'[dest].box, p, MessageIds(prog, pt), MessageValues(prog, p, pt, dest)))]
  }

  function Initial(prog: Program): System {
    seq(prog.n, p => Party([], NO_IDS, Idle, map[]))
  }

  // ---------- the lockstep execution ----------

  /** The results of party p after k instructions when all parties move together. */
  function Ideal(prog: Program, p: nat, k: nat): seq<Result>
    requires k <= |prog.code|
    ensures |Ideal(prog, p, k)| == k
    decreases k, 0
  {
    if k == 0 then [] else Ideal(prog, p, k - 1) + [IdealResult(prog, p, k - 1)]
  }

  /** What the first m parties hold for the e-th share of instruction k, added up. */
  function Total(prog: Program, k: nat, e: nat, m: nat): int
    requires k <= |prog.code|
    decreases k, 1, m
  {
    if m == 0 then 0 else Total(prog, k, e, m - 1) + prog.value(m - 1, Ideal(prog, m - 1, k), e)
  }

  /** Reconstruction gives the sum over all parties; dealing gives pieces that sum to the secret. */
  function IdealResult(prog: Program, p: nat, k: nat): Result
    requires k < |prog.code|
    decreases k, 2
  {
    match prog.code[k]
    case New(_, _) => Nothing
    case Open(slots) => Values(seq(|slots|, e requires 0 <= e => Total(prog, k, e, prog.n)))
    case Gather(_) => if p == prog.sp then Values([Total(prog, k, 0, prog.n)]) else Nothing
    case Scatter(_) =>
      var history := Ideal(prog, prog.sp, k);
      if p == prog.sp then Values([prog.value(p, history, p) - Pieces(prog, history, prog.n)])
      else Values([prog.value(prog.sp, history, p)])
  }
}
