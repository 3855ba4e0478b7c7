/**
 The protocols of Share/Share.hpp (lines 103-127 and 318-369) and Share/Compare.cpp (lines 597-619)
 as programs of the share exchange, with the objects that each branch constructs.  Party sp and the
 others construct different objects, but draw as many ids in the same order, so a job made of these
 calls is well formed and runs in lockstep.
 */
module SharingCode {
  import opened ShareIds
  import opened Exchange

  // ---------- joining pieces of code ----------

  lemma {:induction false} IdsAppend(s: Ids, a: seq<Instr>, b: seq<Instr>, k: nat, isSp: bool)
    requires k <= |a| + |b|
    ensures IdsFrom(s, a + b, k, isSp)
         == if k <= |a| then IdsFrom(s, a, k, isSp) else IdsFrom(IdsFrom(s, a, |a|, isSp), b, k - |a|, isSp)
  {
    if k > 0 {
      IdsAppend(s, a, b, k - 1, isSp);
      assert (a + b)[k - 1] == if k <= |a| then a[k - 1] else b[k - 1 - |a|];
    }
  }

  lemma {:induction false} IdsExtend(s: Ids, code: seq<Instr>, k: nat, m: nat)
    requires Sound(s) && k <= m <= |code|
    ensures Sound(IdsFrom(s, code, m, false)) && Extends(IdsFrom(s, code, k, false), IdsFrom(s, code, m, false))
    decreases m
  {
    if m > 0 {
      IdsExtend(s, code, if k < m then k else m - 1, m - 1);
      ExecExtends(IdsFrom(s, code, m - 1, false), Events(code[m - 1], false));
    }
  }

  function After(s: Ids, code: seq<Instr>): Ids {
    IdsFrom(s, code, |code|, false)
  }

  lemma BalancedAppend(s: Ids, a: seq<Instr>, b: seq<Instr>)
    requires Balanced(s, a) && Balanced(After(s, a), b)
    ensures Balanced(s, a + b)
  {
    forall k | 0 <= k <= |a + b| ensures IdsFrom(s, a + b, k, true) == IdsFrom(s, a + b, k, false) {
      IdsAppend(s, a, b, k, true);
      IdsAppend(s, a, b, k, false);
      assert IdsFrom(s, a, |a|, true) == IdsFrom(s, a, |a|, false);
    }
  }

  /** A use in joined code is a use in one of the pieces, and the ids of the pieces do not meet. */
  lemma UsesAppend(s: Ids, a: seq<Instr>, b: seq<Instr>, i: nat, e: nat, id: nat)
    requires Sound(s) && CodeOk(s, a) && CodeOk(After(s, a), b) && Uses(s, a + b, i, e, id)
    ensures if i < |a| then Uses(s, a, i, e, id) && s.next <= id < After(s, a).next
            else Uses(After(s, a), b, i - |a|, e, id) && After(s, a).next <= id
    ensures s.next <= id && Slots((a + b)[i])[e] < |IdsFrom(s, a + b, i, false).held|
  {
    IdsAppend(s, a, b, i, false);
    IdsExtend(s, a, 0, |a|);
    if i < |a| {
      assert Uses(s, a, i, e, id);
      IdsExtend(s, a, i, |a|);
      var held := IdsFrom(s, a, i, false).held;
      assert held[Slots(a[i])[e]] == After(s, a).held[Slots(a[i])[e]];
    } else {
      assert Uses(After(s, a), b, i - |a|, e, id);
    }
  }

  lemma CodeAppend(s: Ids, a: seq<Instr>, b: seq<Instr>)
    requires Sound(s) && CodeOk(s, a) && CodeOk(After(s, a), b)
    ensures CodeOk(s, a + b) && After(s, a + b) == After(After(s, a), b)
  {
    BalancedAppend(s, a, b);
    IdsAppend(s, a, b, |a + b|, false);
    forall i: nat, e: nat, id: nat | Uses(s, a + b, i, e, id)
      ensures Slots((a + b)[i])[e] < |IdsFrom(s, a + b, i, false).held| && s.next <= id
    {
      UsesAppend(s, a, b, i, e, id);
    }
    forall i: nat, e: nat, j: nat, f: nat, id: nat | Uses(s, a + b, i, e, id) && Uses(s, a + b, j, f, id)
      ensures i == j && e == f
    {
      UsesAppend(s, a, b, i, e, id);
      UsesAppend(s, a, b, j, f, id);
    }
  }

  // ---------- the protocols ----------

  /** The same construction in either branch. */
  function Both(events: seq<Event>): Instr {
    New(events, events)
  }

  lemma {:induction false} BothBalanced(s: Ids, code: seq<Instr>, k: nat)
    requires k <= |code| && forall i :: 0 <= i < |code| && code[i].New? ==> code[i].sp == code[i].other
    ensures IdsFrom(s, code, k, true) == IdsFrom(s, code, k, false)
  {
    if k > 0 { BothBalanced(s, code, k - 1); }
  }

  /**
   sharize, with k objects constructed before: Share s; the dealing under its id; the assignment of
   a value in either branch; and the move out of the function.
   */
  function SharizeCode(k: nat): seq<Instr> {
    [Both([Default]), Scatter(k), Both([Assign(k), Move(k)])]
  }

  lemma SharizeOk(s: Ids)
    requires Sound(s)
    ensures CodeOk(s, SharizeCode(|s.held|))
    ensures After(s, SharizeCode(|s.held|)) == Ids(s.next + 1, s.held + [s.next, s.next])
  {
    var k, code := |s.held|, SharizeCode(|s.held|);
    var t := Ids(s.next + 1, s.held + [s.next]);
    ExecOne(s, Default);
    assert IdsFrom(s, code, 1, false) == t && IdsFrom(s, code, 2, false) == t;
    ExecTwo(t, Assign(k), Move(k));
    assert t.held + [s.next] == s.held + [s.next, s.next];
    forall m | 0 <= m <= |code| ensures IdsFrom(s, code, m, true) == IdsFrom(s, code, m, false) {
      BothBalanced(s, code, m);
    }
    forall i: nat, e: nat, id: nat | Uses(s, code, i, e, id) ensures i == 1 && e == 0 && id == s.next {
    }
  }

  /** The branches of PFtoBS for one bit: a share from a value, or a copy of the sharized share. */
  function BitBranches(k: nat, target: nat): Instr {
    New([FromValue, Assign(target)], [Copy(k + 1), Assign(target)])
  }

  lemma BranchesOk(s: Ids, k: nat, target: nat)
    ensures CodeOk(s, [BitBranches(k, target)])
    ensures After(s, [BitBranches(k, target)]) == Ids(s.next + 1, s.held + [s.next])
  {
    var code := [BitBranches(k, target)];
    var t := Ids(s.next + 1, s.held + [s.next]);
    ExecTwo(s, FromValue, Assign(target));
    ExecTwo(s, Copy(k + 1), Assign(target));
    assert IdsFrom(s, code, 1, true) == IdsFrom(s, code, 1, false) == t;
  }

  /** The loop of PFtoBS over the bits below i: k objects exist, and the vector starts at v. */
  function BitsCode(v: nat, k: nat, i: nat): seq<Instr>
    decreases i
  {
    if i == 0 then [] else OneBit(k, v + i - 1) + BitsCode(v, k + 3, i - 1)
  }

  function OneBit(k: nat, target: nat): seq<Instr> {
    SharizeCode(k) + [BitBranches(k, target)]
  }

  lemma OneBitOk(s: Ids, target: nat)
    requires Sound(s)
    ensures CodeOk(s, OneBit(|s.held|, target))
    ensures After(s, OneBit(|s.held|, target)) == Ids(s.next + 2, s.held + [s.next, s.next, s.next + 1])
  {
    var k := |s.held|;
    SharizeOk(s);
    var t := After(s, SharizeCode(k));
    BranchesOk(t, k, target);
    CodeAppend(s, SharizeCode(k), [BitBranches(k, target)]);
    assert t.held + [t.next] == s.held + [s.next, s.next, s.next + 1];
  }

  lemma {:induction false} BitsOk(s: Ids, v: nat, i: nat)
    requires Sound(s)
    ensures CodeOk(s, BitsCode(v, |s.held|, i)) && Extends(s, After(s, BitsCode(v, |s.held|, i)))
    ensures After(s, BitsCode(v, |s.held|, i)).next == s.next + 2 * i
    decreases i
  {
    if i > 0 {
      var bit := OneBit(|s.held|, v + i - 1);
      OneBitOk(s, v + i - 1);
      BitsOk(After(s, bit), v, i - 1);
      CodeAppend(s, bit, BitsCode(v, |s.held| + 3, i - 1));
    } else {
      NoCodeOk(s);
    }
  }

  lemma NoCodeOk(s: Ids)
    ensures CodeOk(s, []) && After(s, []) == s
  {
  }

  /** PFtoBS: a vector of default-constructed shares, and the loop. */
  function BitSharingCode(s: Ids, bits: nat): seq<Instr> {
    [Both(Defaults(bits))] + BitsCode(|s.held|, |s.held| + bits, bits)
  }

  lemma LocalOnlyOk(s: Ids, events: seq<Event>)
    ensures CodeOk(s, [Both(events)]) && After(s, [Both(events)]) == Exec(s, events)
  {
    var code := [Both(events)];
    assert IdsFrom(s, code, 1, false) == Exec(IdsFrom(s, code, 0, false), events);
    forall m | 0 <= m <= |code| ensures IdsFrom(s, code, m, true) == IdsFrom(s, code, m, false) {
      BothBalanced(s, code, m);
    }
  }

  /** The first n ids from the state s on are those of the objects from there on. */
  predicate InOrder(s: Ids, t: Ids, n: nat) {
    |s.held| + n <= |t.held| && forall j :: |s.held| <= j < |s.held| + n ==> t.held[j] == s.next + (j - |s.held|)
  }

  lemma DefaultsInOrder(s: Ids, n: nat)
    requires Sound(s)
    ensures var u := Exec(s, Defaults(n));
            Sound(u) && InOrder(s, u, n) && u.next == s.next + n && |u.held| == |s.held| + n
  {
    ExecDefaults(s, n);
    ExecExtends(s, Defaults(n));
  }

  lemma OrderKept(s: Ids, u: Ids, t: Ids, n: nat)
    requires InOrder(s, u, n) && Extends(u, t)
    ensures InOrder(s, t, n)
  {
    forall j | |s.held| <= j < |s.held| + n ensures t.held[j] == s.next + (j - |s.held|) {
      assert t.held[j] == u.held[j];
    }
  }

  /** In either role PFtoBS draws 3 ids per bit, and the bit shares carry the first of them in order. */
  lemma BitSharingOk(s: Ids, bits: nat)
    requires Sound(s)
    ensures CodeOk(s, BitSharingCode(s, bits))
    ensures var t := After(s, BitSharingCode(s, bits)); t.next == s.next + 3 * bits && InOrder(s, t, bits)
  {
    LocalOnlyOk(s, Defaults(bits));
    DefaultsInOrder(s, bits);
    var u, loop := Exec(s, Defaults(bits)), BitsCode(|s.held|, |s.held| + bits, bits);
    BitsOk(u, |s.held|, bits);
    CodeAppend(s, [Both(Defaults(bits))], loop);
    OrderKept(s, u, After(u, loop), bits);
  }

  /** The shares to be exchanged were constructed by these events, each under an id of its own. */
  predicate Fresh(s: Ids, events: seq<Event>, slots: seq<nat>) {
    var t := Exec(s, events);
    && (forall e :: 0 <= e < |slots| ==> slots[e] < |t.held| && s.next <= t.held[slots[e]])
    && forall e, f :: 0 <= e < f < |slots| ==> t.held[slots[e]] != t.held[slots[f]]
  }

  /** Constructing shares and opening some of them, as operator*= does with d and e. */
  function OpeningCode(events: seq<Event>, slots: seq<nat>): seq<Instr> {
    [Both(events), Open(slots)]
  }

  lemma OpeningOk(s: Ids, events: seq<Event>, slots: seq<nat>)
    requires Fresh(s, events, slots)
    ensures CodeOk(s, OpeningCode(events, slots)) && After(s, OpeningCode(events, slots)) == Exec(s, events)
  {
    var code := OpeningCode(events, slots);
    assert IdsFrom(s, code, 1, false) == Exec(IdsFrom(s, code, 0, false), events);
    forall m | 0 <= m <= |code| ensures IdsFrom(s, code, m, true) == IdsFrom(s, code, m, false) {
      BothBalanced(s, code, m);
    }
    forall i: nat, e: nat, id: nat | Uses(s, code, i, e, id)
      ensures i == 1 && e < |slots| && id == Exec(s, events).held[slots[e]]
    {
    }
  }

  /** The multiplication inside getInv, and its product u gathered by party sp. */
  function GatheringCode(product: seq<Event>, de: seq<nat>, rest: seq<Event>, u: nat): seq<Instr> {
    [Both(product), Open(de), Both(rest + [Default]), Gather(u)]
  }

  lemma GatheringOk(s: Ids, product: seq<Event>, de: seq<nat>, rest: seq<Event>, u: nat)
    requires Sound(s) && Fresh(s, product, de + [u])
    ensures var code := GatheringCode(product, de, rest, u);
            CodeOk(s, code) && After(s, code) == Exec(Exec(s, product), rest + [Default])
  {
    var code, t := GatheringCode(product, de, rest, u), Exec(s, product);
    ExecExtends(s, product);
    ExecExtends(t, rest + [Default]);
    assert IdsFrom(s, code, 1, false) == Exec(IdsFrom(s, code, 0, false), product);
    assert IdsFrom(s, code, 2, false) == t;
    assert IdsFrom(s, code, 3, false) == Exec(t, rest + [Default]);
    assert IdsFrom(s, code, 4, false) == Exec(t, rest + [Default]);
    forall m | 0 <= m <= |code| ensures IdsFrom(s, code, m, true) == IdsFrom(s, code, m, false) {
      BothBalanced(s, code, m);
    }
    forall i: nat, e: nat, id: nat | Uses(s, code, i, e, id)
      ensures (i == 1 && e < |de|) || (i == 3 && e == 0)
      ensures var slot := if i == 1 then e else |de|;
              id == t.held[(de + [u])[slot]] && Slots(code[i])[e] < |IdsFrom(s, code, i, false).held|
    {
      if i == 1 { assert (de + [u])[e] == de[e]; } else { assert (de + [u])[|de|] == u; }
    }
  }

  /**
   getInv: the events that construct r and the product u = s * r, whose differences are opened; the
   rest of the multiplication and the default-constructed result; u gathered by party sp; sharize in
   either branch; and the assignment of its result.
   */
  function InvertingCode(s: Ids, product: seq<Event>, de: seq<nat>, rest: seq<Event>, u: nat): seq<Instr> {
    var k := |Exec(Exec(s, product), rest + [Default]).held|;
    GatheringCode(product, de, rest, u) + SharizeCode(k) + [Both([Assign(k)])]
  }

  lemma InvertingOk(s: Ids, product: seq<Event>, de: seq<nat>, rest: seq<Event>, u: nat)
    requires Sound(s) && Fresh(s, product, de + [u])
    ensures CodeOk(s, InvertingCode(s, product, de, rest, u))
  {
    var gathering, t := GatheringCode(product, de, rest, u), Exec(Exec(s, product), rest + [Default]);
    ExecExtends(s, product);
    ExecExtends(Exec(s, product), rest + [Default]);
    GatheringOk(s, product, de, rest, u);
    SharizeOk(t);
    CodeAppend(s, gathering, SharizeCode(|t.held|));
    LocalOnlyOk(After(t, SharizeCode(|t.held|)), [Assign(|t.held|)]);
    CodeAppend(s, gathering + SharizeCode(|t.held|), [Both([Assign(|t.held|)])]);
  }

  // ---------- jobs ----------

  /** What a job calls; events that are the same for all parties are left open. */
  datatype Call =
    | Opening(events: seq<Event>, slots: seq<nat>)
    | Sharizing
    | Inverting(product: seq<Event>, de: seq<nat>, rest: seq<Event>, u: nat)
    | BitSharing(bits: nat)

  predicate IsCall(s: Ids, call: Call) {
    match call
    case Opening(events, slots) => Fresh(s, events, slots)
    case Inverting(product, de, rest, u) => Fresh(s, product, de + [u])
    case _ => true
  }

  function CallCode(s: Ids, call: Call): seq<Instr> {
    match call
    case Opening(events, slots) => OpeningCode(events, slots)
    case Sharizing => SharizeCode(|s.held|)
    case Inverting(product, de, rest, u) => InvertingCode(s, product, de, rest, u)
    case BitSharing(bits) => BitSharingCode(s, bits)
  }

  lemma CallOk(s: Ids, call: Call)
    requires Sound(s) && IsCall(s, call)
    ensures CodeOk(s, CallCode(s, call))
  {
    match call
    case Opening(events, slots) => OpeningOk(s, events, slots);
    case Sharizing => SharizeOk(s);
    case Inverting(product, de, rest, u) => InvertingOk(s, product, de, rest, u);
    case BitSharing(bits) => BitSharingOk(s, bits);
  }

  function JobCode(calls: seq<Call>): seq<Instr> {
    if |calls| == 0 then []
    else
      var front := JobCode(calls[..|calls| - 1]);
      front + CallCode(After(NO_IDS, front), calls[|calls| - 1])
  }

  predicate IsJob(calls: seq<Call>) {
    |calls| == 0
    || (IsJob(calls[..|calls| - 1]) && IsCall(After(NO_IDS, JobCode(calls[..|calls| - 1])), calls[|calls| - 1]))
  }

  lemma {:induction false} JobOk(calls: seq<Call>)
    requires IsJob(calls)
    ensures CodeOk(NO_IDS, JobCode(calls)) && Sound(After(NO_IDS, JobCode(calls)))
  {
    if |calls| == 0 {
      NoCodeOk(NO_IDS);
    } else {
      var front, last := JobCode(calls[..|calls| - 1]), calls[|calls| - 1];
      JobOk(calls[..|calls| - 1]);
      CallOk(After(NO_IDS, front), last);
      CodeAppend(NO_IDS, front, CallCode(After(NO_IDS, front), last));
      IdsExtend(NO_IDS, JobCode(calls), 0, |JobCode(calls)|);
    }
  }

  /** Every job of these calls is well formed, for any number of parties, any party sp and any values. */
  lemma JobIsWellFormed(n: nat, sp: nat, calls: seq<Call>, value: (nat, seq<Result>, nat) -> int)
    requires sp < n && IsJob(calls)
    ensures WellFormed(Program(n, sp, JobCode(calls), value))
  {
    JobOk(calls);
  }
}
