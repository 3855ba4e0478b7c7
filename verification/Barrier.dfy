/**
 The barrier of the management containers: Cond_count.go and Client.Sync.  Every party calls
 all others, whose servers count the calls, and then waits until its own server has counted all
 of its peers.  The machine follows one sync id that every party uses once; load, store and the
 start of the notifying goroutine are separate steps.
 */
module Barrier {
  /** counter: the count, and the channel on which the waiter is notified. */
  datatype Entry = Absent | Present(count: nat, ch: nat)

  /** Where the handler of one call stands. */
  datatype CallStep = Request | Loaded(count: nat, ch: nat) | Stored(ch: nat)

  datatype Stage =
    | Outside
    | Calling(peer: nat, step: CallStep)
    | WaitLoad
    | WaitCheck(ch: nat)
    | WaitReceive(ch: nat, seen: nat)
    | WaitDelete
    | Left

  /**
   A party with its server: the entry of count_map, the holder of mu_inc, the blocked senders of
   every channel made so far, and how many notifications the waiter has taken.
   */
  datatype Party = Party(stage: Stage, entry: Entry, lock: int, channels: seq<nat>, taken: nat)

  type System = seq<Party>

  const FREE := -1

  /** load: makes the counter, with a channel of its own, when there is none. */
  function Load(pt: Party): (r: Party)
    ensures r.entry.Present? && r.stage == pt.stage && r.lock == pt.lock && r.taken == pt.taken
  {
    if pt.entry.Present? then pt
    else pt.(entry := Present(0, |pt.channels|), channels := pt.channels + [0])
  }

  // ---------- steps ----------

  predicate Enabled(sys: System, p: nat)
    requires p < |sys|
  {
    match sys[p].stage
    case Calling(peer, step) =>
      peer < |sys| && peer != p && step.Request? ==> sys[peer].lock == FREE
    case WaitReceive(ch, _) => ch < |sys[p].channels| && sys[p].channels[ch] > 0
    case Left => false
    case _ => true
  }

  function CallStepped(sys: System, p: nat): System
    requires p < |sys| && sys[p].stage.Calling?
  {
    var peer, step := sys[p].stage.peer, sys[p].stage.step;
    if peer >= |sys| then
      sys[p := sys[p].(stage := WaitLoad)]
    else if peer == p then
      sys[p := sys[p].(stage := Calling(peer + 1, Request))]
    else
      match step
      case Request =>
        var loaded := Load(sys[peer]);
        sys[peer := loaded.(lock := p)]
           [p := sys[p].(stage := Calling(peer, Loaded(loaded.entry.count, loaded.entry.ch)))]
      case Loaded(count, ch) =>
        sys[peer := sys[peer].(entry := Present(count + 1, ch))]
           [p := sys[p].(stage := Calling(peer, Stored(ch)))]
      case Stored(ch) =>
        var channels := sys[peer].channels;
        sys[peer := sys[peer].(lock := FREE,
                               channels := if ch < |channels| then channels[ch := channels[ch] + 1] else channels)]
           [p := sys[p].(stage := Calling(peer + 1, Request))]
  }

  function Next(sys: System, p: nat): System
    requires p < |sys| && Enabled(sys, p)
  {
    var pt := sys[p];
    match pt.stage
    case Outside => sys[p := pt.(stage := Calling(0, Request))]
    case Calling(_, _) => CallStepped(sys, p)
    case WaitLoad => var loaded := Load(pt); sys[p := loaded.(stage := WaitCheck(loaded.entry.ch))]
    case WaitCheck(ch) =>
      var loaded := Load(pt);
      sys[p := loaded.(stage := if loaded.entry.count < |sys| - 1 then WaitReceive(ch, loaded.entry.count)
                                else WaitDelete)]
    case WaitReceive(ch, _) =>
      sys[p := pt.(stage := WaitCheck(ch), channels := pt.channels[ch := pt.channels[ch] - 1], taken := pt.taken + 1)]
    case WaitDelete => sys[p := pt.(stage := Left, entry := Absent)]
    case Left => sys
  }

  function Initial(n: nat): System {
    seq(n, p => Party(Outside, Absent, FREE, [], 0))
  }
}
