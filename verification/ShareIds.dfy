/**
 Share/AddressId.hpp, lines 19-31, and Share/Share.hpp, lines 33-53: how share objects come by the
 ids under which they are exchanged.  Constructing one by default, from a value or as a copy draws
 a new id; a moved-to object takes over the id; an assignment changes the value only.
 */
module ShareIds {
  /** Objects are named by the order of their construction. */
  datatype Event = Default | FromValue | Copy(src: nat) | Move(src: nat) | Assign(dst: nat)

  /** The next id of the generator, and the ids of the objects constructed so far. */
  datatype Ids = Ids(next: nat, held: seq<nat>)

  function Step(s: Ids, e: Event): Ids {
    match e
    case Default => Ids(s.next + 1, s.held + [s.next])
    case FromValue => Ids(s.next + 1, s.held + [s.next])
    case Copy(_) => Ids(s.next + 1, s.held + [s.next])
    case Move(src) => if src < |s.held| then s.(held := s.held + [s.held[src]]) else s
    case Assign(_) => s
  }

  function Exec(s: Ids, events: seq<Event>): Ids {
    if |events| == 0 then s else Step(Exec(s, events[..|events| - 1]), events[|events| - 1])
  }

  /** Only ids that were drawn are held. */
  predicate Sound(s: Ids) {
    forall j :: 0 <= j < |s.held| ==> s.held[j] < s.next
  }

  /** No object ever changes its id, and no id is taken back. */
  predicate Extends(s: Ids, t: Ids) {
    s.next <= t.next && s.held <= t.held
  }

  lemma {:induction false} ExecExtends(s: Ids, events: seq<Event>)
    requires Sound(s)
    ensures Sound(Exec(s, events)) && Extends(s, Exec(s, events))
  {
    if |events| > 0 { ExecExtends(s, events[..|events| - 1]); }
  }

  lemma ExecOne(s: Ids, e: Event)
    ensures Exec(s, [e]) == Step(s, e)
  {
    assert [e][..0] == [];
  }

  lemma ExecTwo(s: Ids, d: Event, e: Event)
    ensures Exec(s, [d, e]) == Step(Step(s, d), e)
  {
    assert [d, e][..1] == [d];
    ExecOne(s, d);
  }

  /** A vector of n default-constructed shares. */
  function Defaults(n: nat): seq<Event> {
    seq(n, i => Default)
  }

  lemma {:induction false} ExecDefaults(s: Ids, n: nat)
    ensures Exec(s, Defaults(n)) == Ids(s.next + n, s.held + seq(n, i => s.next + i))
  {
    if n > 0 {
      ExecDefaults(s, n - 1);
      assert Defaults(n)[..n - 1] == Defaults(n - 1);
      assert seq(n, i => s.next + i) == seq(n - 1, i => s.next + i) + [s.next + (n - 1)];
    } else {
      assert s.held + seq(0, i => s.next + i) == s.held;
    }
  }
}
