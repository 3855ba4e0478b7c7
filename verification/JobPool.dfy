/**
 Job/JobManager.hpp and TransactionQueue/TransactionQueue.hpp on the party that triggers the jobs:
 the pool of five job ids, the queue of requests, the dispatching loop and the job threads.
 */
module JobPool {
  const MAX_JOB_NUM: nat := 5
  const MAX_SIZE: nat := 5000

  /** A bounded queue; its preconditions are what the condition variables wait for. */
  class TransactionQueue<T> {
    var q: seq<T>

    constructor ()
      ensures q == []
    {
      q := [];
    }

    method Pop() returns (ret: T)
      requires q != []
      modifies this
      ensures old(q) == [ret] + q
    {
      ret := q[0];
      q := q[1..];
    }

    method Push(x: T)
      requires |q| < MAX_SIZE
      modifies this
      ensures q == old(q) + [x] && |q| <= MAX_SIZE
    {
      q := q + [x];
    }
  }

  /** The constructor of JobManager. */
  method FreshPool() returns (pool: TransactionQueue<nat>)
    ensures fresh(pool) && pool.q == [1, 2, 3, 4, 5]
  {
    pool := new TransactionQueue<nat>();
    for jobId := 1 to MAX_JOB_NUM + 1
      invariant fresh(pool) && pool.q == [1, 2, 3, 4, 5][..jobId - 1]
    {
      pool.Push(jobId);
    }
  }

  /** What the dispatching loop holds: a request, then its id, then how many parties were told. */
  datatype Manager<R> = Polling | HasRequest(req: R) | Dispatching(req: R, id: nat, told: nat)

  /** How a job thread can end; it returns its id in every case. */
  datatype Outcome = Finished | Threw | UnknownMethod

  /** What a party is told: the id and the request of a job. */
  datatype Order<R> = Order(id: nat, req: R)

  /** A job thread, with its number in the order in which jobs begin. */
  datatype Job<R> = Job(no: nat, order: Order<R>)

  /**
   Besides the queues, the loop and the job threads a state records all requests in the order in which
   they arrived, the ids taken for them, what each party was told, and which jobs have ended.
   */
  datatype State<R> = State(ids: seq<nat>, requests: seq<R>, manager: Manager<R>, running: seq<Job<R>>,
                            arrived: seq<R>, taken: seq<nat>, orders: seq<seq<Order<R>>>, ended: set<nat>)

  datatype Action<R> = PushRequest(req: R) | PopRequest | PopId | Tell | End(job: nat, outcome: Outcome)

  /** There are n parties. */
  function Initial<R>(n: nat): State<R> {
    State([1, 2, 3, 4, 5], [], Polling, [], [], [], seq(n, q => []), {})
  }

  predicate Enabled<R>(s: State<R>, a: Action<R>) {
    match a
    case PushRequest(_) => |s.requests| < MAX_SIZE
    case PopRequest => s.manager.Polling? && s.requests != []
    case PopId => s.manager.HasRequest? && s.ids != []
    case Tell => s.manager.Dispatching? && s.manager.told < |s.orders|
    case End(job, _) => job < |s.running| && |s.ids| < MAX_SIZE
  }

  /** Party `trigger` (counted from zero) runs this manager, and its job threads are the running ones. */
  function Next<R>(trigger: nat, s: State<R>, a: Action<R>): State<R>
    requires Enabled(s, a)
  {
    match a
    case PushRequest(req) => s.(requests := s.requests + [req], arrived := s.arrived + [req])
    case PopRequest => s.(requests := s.requests[1..], manager := HasRequest(s.requests[0]))
    case PopId =>
      s.(ids := s.ids[1..], manager := Dispatching(s.manager.req, s.ids[0], 0), taken := s.taken + [s.ids[0]])
    case Tell =>
      var m := s.manager;
      var order := Order(m.id, m.req);
      s.(manager := if m.told + 1 == |s.orders| then Polling else Dispatching(m.req, m.id, m.told + 1),
         orders := s.orders[m.told := s.orders[m.told] + [order]],
         running := if m.told == trigger then s.running + [Job(|s.orders[trigger]|, order)] else s.running)
    case End(job, _) =>
      var ending := s.running[job];
      s.(running := s.running[..job] + s.running[job + 1..], ids := s.ids + [ending.order.id],
         ended := s.ended + {ending.no})
  }

  // ---------- the invariant ----------

  /** How often an id is in the queue. */
  function Free(ids: seq<nat>, id: nat): nat {
    if ids == [] then 0 else Free(ids[..|ids| - 1], id) + if ids[|ids| - 1] == id then 1 else 0
  }

  /** How many running jobs hold an id. */
  function Held<R>(running: seq<Job<R>>, id: nat): nat {
    if running == [] then 0 else Held(running[..|running| - 1], id) + if running[|running| - 1].order.id == id then 1 else 0
  }

  /** Whether the id was taken for a job that has not begun on this party. */
  function Taken<R>(trigger: nat, m: Manager<R>, id: nat): nat {
    if m.Dispatching? && m.told <= trigger && m.id == id then 1 else 0
  }

  /** The id is in exactly one place when it is one of 1 to 5, and nowhere otherwise. */
  predicate Conserved<R>(trigger: nat, s: State<R>, id: nat) {
    Free(s.ids, id) + Taken(trigger, s.manager, id) + Held(s.running, id) == if 1 <= id <= MAX_JOB_NUM then 1 else 0
  }

  /** The queue holds the latest requests; the one in hand came before them, and has the last id taken. */
  ghost predicate Queued<R>(s: State<R>) {
    var next := |s.arrived| - |s.requests|;
    && 0 <= next && s.requests == s.arrived[next..]
    && match s.manager
       case Polling => |s.taken| == next
       case HasRequest(req) => |s.taken| + 1 == next && req == s.arrived[next - 1]
       case Dispatching(req, id, told) =>
         |s.taken| == next > 0 && req == s.arrived[next - 1] && id == s.taken[next - 1] && told < |s.orders|
  }

  /** Party q has been told of this many jobs. */
  function Told<R>(s: State<R>, q: nat): int {
    if s.manager.Dispatching? && s.manager.told <= q then |s.taken| - 1 else |s.taken|
  }

  /** Every party is told of the requests in the order in which they arrived, each with the id taken for it. */
  ghost predicate ToldInOrder<R>(s: State<R>) {
    |s.taken| <= |s.arrived|
    && forall q :: 0 <= q < |s.orders| ==>
         |s.orders[q]| == Told(s, q)
         && forall k :: 0 <= k < |s.orders[q]| ==> s.orders[q][k] == Order(s.taken[k], s.arrived[k])
  }

  /** The running jobs, in order, are those that were begun and have not ended. */
  ghost predicate RunsTheBegun<R>(trigger: nat, s: State<R>)
    requires trigger < |s.orders|
  {
    var begun := s.orders[trigger];
    && Ordered(s.running)
    && (forall i :: 0 <= i < |s.running| ==>
          s.running[i].no < |begun| && s.running[i].no !in s.ended && s.running[i].order == begun[s.running[i].no])
    && (forall no :: no in s.ended ==> no < |begun|)
    && (forall no :: 0 <= no < |begun| && no !in s.ended ==> IsRunning(s, no))
  }

  predicate Ordered<R>(running: seq<Job<R>>) {
    forall i, j :: 0 <= i < j < |running| ==> running[i].no < running[j].no
  }

  predicate IsRunning<R>(s: State<R>, no: nat) {
    exists i :: 0 <= i < |s.running| && s.running[i].no == no
  }

  /** Ids are conserved, no request is lost or overtaken, and every party learns the same. */
  ghost predicate Inv<R>(n: nat, trigger: nat, s: State<R>) {
    && trigger < n == |s.orders|
    && (forall id :: Conserved(trigger, s, id))
    && Queued(s) && ToldInOrder(s) && RunsTheBegun(trigger, s)
  }

  lemma InitialInv<R>(n: nat, trigger: nat)
    requires trigger < n
    ensures Inv(n, trigger, Initial<R>(n))
  {
    forall id: nat ensures Conserved(trigger, Initial<R>(n), id) {
      FreeOfFive(id);
    }
  }

  lemma FreeOfFive(id: nat)
    ensures Free([1, 2, 3, 4, 5], id) == if 1 <= id <= MAX_JOB_NUM then 1 else 0
  {
    assert [] + [1] == [1] && [1] + [2] == [1, 2] && [1, 2] + [3] == [1, 2, 3];
    assert [1, 2, 3] + [4] == [1, 2, 3, 4] && [1, 2, 3, 4] + [5] == [1, 2, 3, 4, 5];
    FreeAppend([], 1, id);
    FreeAppend([1], 2, id);
    FreeAppend([1, 2], 3, id);
    FreeAppend([1, 2, 3], 4, id);
    FreeAppend([1, 2, 3, 4], 5, id);
  }

  lemma FreeAppend(ids: seq<nat>, last: nat, id: nat)
    ensures Free(ids + [last], id) == Free(ids, id) + if last == id then 1 else 0
  {
    assert (ids + [last])[..|ids|] == ids;
  }

  lemma {:induction false} FreeFirst(ids: seq<nat>, id: nat)
    requires ids != []
    ensures Free(ids, id) == Free(ids[1..], id) + if ids[0] == id then 1 else 0
  {
    if |ids| > 1 {
      FreeFirst(ids[..|ids| - 1], id);
      assert ids[..|ids| - 1][1..] == ids[1..][..|ids| - 2];
    } else {
      assert ids[..0] == ids[1..] == [];
    }
  }

  lemma HeldAppend<R>(running: seq<Job<R>>, job: Job<R>, id: nat)
    ensures Held(running + [job], id) == Held(running, id) + if job.order.id == id then 1 else 0
  {
    assert (running + [job])[..|running|] == running;
  }

  /** Ending a job takes its id, and no other, out of the running ones. */
  lemma {:induction false} HeldWithout<R>(running: seq<Job<R>>, job: nat, id: nat)
    requires job < |running|
    ensures Held(running, id) == Held(running[..job] + running[job + 1..], id) + if running[job].order.id == id then 1 else 0
  {
    var last := |running| - 1;
    var rest := running[..job] + running[job + 1..];
    if job < last {
      HeldWithout(running[..last], job, id);
      assert rest == (running[..last][..job] + running[..last][job + 1..]) + [running[last]];
      HeldAppend(running[..last][..job] + running[..last][job + 1..], running[last], id);
    } else {
      assert rest == running[..last];
    }
  }

  lemma StepConserves<R>(trigger: nat, s: State<R>, a: Action<R>, id: nat)
    requires trigger < |s.orders| && Conserved(trigger, s, id) && Enabled(s, a)
    ensures Conserved(trigger, Next(trigger, s, a), id)
  {
    match a
    case PushRequest(_) =>
    case PopRequest =>
    case PopId => FreeFirst(s.ids, id);
    case Tell => HeldAppend(s.running, Job(|s.orders[trigger]|, Order(s.manager.id, s.manager.req)), id);
    case End(job, _) => HeldWithout(s.running, job, id); FreeAppend(s.ids, s.running[job].order.id, id);
  }

  lemma StepKeepsQueue<R>(trigger: nat, s: State<R>, a: Action<R>)
    requires |s.orders| > 0 && Queued(s) && Enabled(s, a)
    ensures Queued(Next(trigger, s, a))
  {
    var s', next := Next(trigger, s, a), |s.arrived| - |s.requests|;
    match a
    case PushRequest(req) => assert s'.arrived[next..] == s.arrived[next..] + [req];
    case PopRequest =>
      assert s.requests[0] == s.arrived[next];
      assert s.arrived[next..][1..] == s.arrived[next + 1..];
    case _ =>
  }

  lemma StepKeepsTold<R>(trigger: nat, s: State<R>, a: Action<R>)
    requires Queued(s) && ToldInOrder(s) && Enabled(s, a)
    ensures ToldInOrder(Next(trigger, s, a))
  {
    var s' := Next(trigger, s, a);
    forall q | 0 <= q < |s.orders|
      ensures |s'.orders[q]| == Told(s', q)
      ensures forall k :: 0 <= k < |s'.orders[q]| ==> s'.orders[q][k] == Order(s'.taken[k], s'.arrived[k])
    {
      assert |s.orders[q]| == Told(s, q);
    }
  }

  lemma StepKeepsRunning<R>(trigger: nat, s: State<R>, a: Action<R>)
    requires trigger < |s.orders| && RunsTheBegun(trigger, s) && Enabled(s, a)
    ensures RunsTheBegun(trigger, Next(trigger, s, a))
  {
    var s' := Next(trigger, s, a);
    match a
    case PushRequest(_) => SameRunning(trigger, s, s');
    case PopRequest => SameRunning(trigger, s, s');
    case PopId => SameRunning(trigger, s, s');
    case Tell =>
      if s.manager.told == trigger { BeginsOne(trigger, s, s'); } else { SameRunning(trigger, s, s'); }
    case End(job, _) => EndsOne(trigger, s, s', job);
  }

  lemma SameRunning<R>(trigger: nat, s: State<R>, s': State<R>)
    requires trigger < |s.orders| == |s'.orders| && RunsTheBegun(trigger, s)
    requires s'.running == s.running && s'.ended == s.ended && s'.orders[trigger] == s.orders[trigger]
    ensures RunsTheBegun(trigger, s')
  {
    forall no | 0 <= no < |s'.orders[trigger]| && no !in s'.ended ensures IsRunning(s', no) {
      assert IsRunning(s, no);
    }
  }

  lemma BeginsOne<R>(trigger: nat, s: State<R>, s': State<R>)
    requires trigger < |s.orders| == |s'.orders| && RunsTheBegun(trigger, s) && s'.ended == s.ended
    requires |s'.orders[trigger]| == |s.orders[trigger]| + 1 && s'.orders[trigger][..|s.orders[trigger]|] == s.orders[trigger]
    requires s'.running == s.running + [Job(|s.orders[trigger]|, s'.orders[trigger][|s.orders[trigger]|])]
    ensures RunsTheBegun(trigger, s')
  {
    var begun, begun' := s.orders[trigger], s'.orders[trigger];
    assert forall k :: 0 <= k < |begun| ==> begun'[k] == begun[k];
    forall no | 0 <= no < |begun'| && no !in s'.ended ensures IsRunning(s', no) {
      if no < |begun| {
        assert IsRunning(s, no);
        var i :| 0 <= i < |s.running| && s.running[i].no == no;
        assert s'.running[i].no == no;
      } else {
        assert s'.running[|s.running|].no == no;
      }
    }
  }

  lemma EndsOne<R>(trigger: nat, s: State<R>, s': State<R>, job: nat)
    requires trigger < |s.orders| && RunsTheBegun(trigger, s) && job < |s.running|
    requires s'.orders == s.orders && s'.ended == s.ended + {s.running[job].no}
    requires s'.running == s.running[..job] + s.running[job + 1..]
    ensures RunsTheBegun(trigger, s')
  {
    Without(s.running, job);
    forall no | 0 <= no < |s'.orders[trigger]| && no !in s'.ended ensures IsRunning(s', no) {
      StillRuns(s, s', job, no);
    }
  }

  /** Taking out one job keeps the others, in order. */
  lemma Without<R>(running: seq<Job<R>>, job: nat)
    requires Ordered(running) && job < |running|
    ensures var rest := running[..job] + running[job + 1..];
            && Ordered(rest)
            && forall i :: 0 <= i < |rest| ==> rest[i] in running && rest[i].no != running[job].no
  {
    var rest := running[..job] + running[job + 1..];
    forall i | 0 <= i < |rest| ensures rest[i] == running[if i < job then i else i + 1] {
    }
  }

  lemma StillRuns<R>(s: State<R>, s': State<R>, job: nat, no: nat)
    requires job < |s.running| && IsRunning(s, no) && s.running[job].no != no
    requires s'.running == s.running[..job] + s.running[job + 1..]
    ensures IsRunning(s', no)
  {
    var i :| 0 <= i < |s.running| && s.running[i].no == no;
    assert s'.running[if i < job then i else i - 1].no == no;
  }

  lemma StepKeepsInv<R>(n: nat, trigger: nat, s: State<R>, a: Action<R>)
    requires Inv(n, trigger, s) && Enabled(s, a)
    ensures Inv(n, trigger, Next(trigger, s, a))
  {
    StepKeepsQueue(trigger, s, a);
    StepKeepsTold(trigger, s, a);
    StepKeepsRunning(trigger, s, a);
    forall id: nat ensures Conserved(trigger, Next(trigger, s, a), id) {
      StepConserves(trigger, s, a, id);
    }
  }

  // ---------- what the invariant means ----------

  lemma {:induction false} FreeOf(ids: seq<nat>, i: nat)
    requires i < |ids|
    ensures Free(ids, ids[i]) > 0
  {
    if i < |ids| - 1 { FreeOf(ids[..|ids| - 1], i); }
  }

  lemma {:induction false} HeldOf<R>(running: seq<Job<R>>, i: nat)
    requires i < |running|
    ensures Held(running, running[i].order.id) > 0
  {
    if i < |running| - 1 { HeldOf(running[..|running| - 1], i); }
  }

  lemma {:induction false} FreeTotal(ids: seq<nat>)
    requires forall i :: 0 <= i < |ids| ==> 1 <= ids[i] <= MAX_JOB_NUM
    ensures Free(ids, 1) + Free(ids, 2) + Free(ids, 3) + Free(ids, 4) + Free(ids, 5) == |ids|
  {
    if ids != [] { FreeTotal(ids[..|ids| - 1]); }
  }

  lemma {:induction false} HeldTotal<R>(running: seq<Job<R>>)
    requires forall i :: 0 <= i < |running| ==> 1 <= running[i].order.id <= MAX_JOB_NUM
    ensures Held(running, 1) + Held(running, 2) + Held(running, 3) + Held(running, 4) + Held(running, 5) == |running|
  {
    if running != [] { HeldTotal(running[..|running| - 1]); }
  }

  lemma IdsInRange<R>(n: nat, trigger: nat, s: State<R>)
    requires Inv(n, trigger, s)
    ensures forall i :: 0 <= i < |s.ids| ==> 1 <= s.ids[i] <= MAX_JOB_NUM
    ensures forall i :: 0 <= i < |s.running| ==> 1 <= s.running[i].order.id <= MAX_JOB_NUM
  {
    forall i: nat | i < |s.ids| ensures 1 <= s.ids[i] <= MAX_JOB_NUM {
      FreeOf(s.ids, i);
      assert Conserved(trigger, s, s.ids[i]);
    }
    forall i: nat | i < |s.running| ensures 1 <= s.running[i].order.id <= MAX_JOB_NUM {
      HeldOf(s.running, i);
      assert Conserved(trigger, s, s.running[i].order.id);
    }
  }

  /** At most five jobs run, a returned id always finds room, and the loop waits for an id only while five jobs run. */
  lemma PoolBounds<R>(n: nat, trigger: nat, s: State<R>)
    requires Inv(n, trigger, s)
    ensures |s.ids| + |s.running| <= MAX_JOB_NUM
    ensures forall job: nat, outcome: Outcome :: job < |s.running| ==> Enabled(s, Action<R>.End(job, outcome))
    ensures s.manager.HasRequest? && s.ids == [] ==> |s.running| == MAX_JOB_NUM
  {
    IdsInRange(n, trigger, s);
    FreeTotal(s.ids);
    HeldTotal(s.running);
    assert Conserved(trigger, s, 1) && Conserved(trigger, s, 2) && Conserved(trigger, s, 3);
    assert Conserved(trigger, s, 4) && Conserved(trigger, s, 5);
  }

  /** No two jobs that run have the same id, and no running job's id is free. */
  lemma IdsAreUnique<R>(n: nat, trigger: nat, s: State<R>, i: nat, j: nat)
    requires Inv(n, trigger, s) && i < |s.running|
    ensures j < |s.running| && i != j ==> s.running[i].order.id != s.running[j].order.id
    ensures j < |s.ids| ==> s.running[i].order.id != s.ids[j]
  {
    var id := s.running[i].order.id;
    assert Conserved(trigger, s, id);
    HeldWithout(s.running, i, id);
    if j < |s.ids| { FreeOf(s.ids, j); }
    if j < |s.running| && i != j {
      HeldOf(s.running[..i] + s.running[i + 1..], if j < i then j else j - 1);
    }
  }

  // ---------- progress ----------

  /** An action that the pool takes by itself. */
  predicate IsInner<R>(a: Action<R>) {
    !a.PushRequest?
  }

  /** While a request waits or is in hand the loop can go on, unless five jobs run, and those can end. */
  lemma LoopProgress<R>(n: nat, trigger: nat, s: State<R>)
    requires Inv(n, trigger, s) && (s.requests != [] || !s.manager.Polling?)
    ensures Enabled(s, PopRequest) || Enabled(s, PopId) || Enabled(s, Tell)
            || (|s.running| == MAX_JOB_NUM && forall job, outcome :: 0 <= job < MAX_JOB_NUM ==> Enabled(s, End(job, outcome)))
  {
    PoolBounds(n, trigger, s);
  }

  /** Every running job can end next, in whatever way; then it has ended, and its id is free again. */
  lemma AnyJobEnds<R>(n: nat, trigger: nat, s: State<R>, job: nat, outcome: Outcome)
    requires Inv(n, trigger, s) && job < |s.running|
    ensures Enabled(s, End(job, outcome))
    ensures var s' := Next(trigger, s, End(job, outcome));
            && s.running[job].no in s'.ended && !IsRunning(s', s.running[job].no)
            && s.running[job].order.id in s'.ids && s'.orders == s.orders
  {
    PoolBounds(n, trigger, s);
    assert Enabled(s, End(job, outcome));
    var s' := Next(trigger, s, End(job, outcome));
    StepKeepsRunning(trigger, s, End(job, outcome));
    assert s'.ids[|s.ids|] == s.running[job].order.id;
  }

  /** When only new requests can go on, every party was told of all of them and every job has ended. */
  lemma QuietIsDone<R(!new)>(n: nat, trigger: nat, s: State<R>)
    requires Inv(n, trigger, s) && forall a: Action<R> :: IsInner(a) ==> !Enabled(s, a)
    ensures |s.arrived| == |s.taken| && s.running == []
    ensures forall q :: 0 <= q < n ==> |s.orders[q]| == |s.arrived|
    ensures forall no :: 0 <= no < |s.arrived| ==> no in s.ended
    ensures |s.ids| == MAX_JOB_NUM
  {
    PoolBounds(n, trigger, s);
    assert !Enabled(s, Action<R>.End(0, Finished)) && !Enabled(s, Action<R>.PopRequest);
    assert !Enabled(s, Action<R>.PopId) && !Enabled(s, Action<R>.Tell);
    forall no | 0 <= no < |s.arrived| ensures no in s.ended {
      assert no !in s.ended ==> IsRunning(s, no);
    }
    AllIdsSomewhere(n, trigger, s);
  }

  lemma AllIdsSomewhere<R>(n: nat, trigger: nat, s: State<R>)
    requires Inv(n, trigger, s) && !s.manager.Dispatching?
    ensures |s.ids| + |s.running| == MAX_JOB_NUM
  {
    IdsInRange(n, trigger, s);
    FreeTotal(s.ids);
    HeldTotal(s.running);
    assert Conserved(trigger, s, 1) && Conserved(trigger, s, 2) && Conserved(trigger, s, 3);
    assert Conserved(trigger, s, 4) && Conserved(trigger, s, 5);
  }

  /** The steps left for the requests that have arrived: a request takes n + 3 after its arrival. */
  function Work<R>(trigger: nat, s: State<R>): nat {
    var n := |s.orders|;
    (n + 3) * |s.requests| + ManagerWork(n, trigger, s.manager) + |s.running|
  }

  function ManagerWork<R>(n: nat, trigger: nat, m: Manager<R>): nat {
    match m
    case Polling => 0
    case HasRequest(_) => n + 2
    case Dispatching(_, _, told) => (if told <= n then n - told else 0) + if told <= trigger then 1 else 0
  }

  lemma StepWorks<R>(n: nat, trigger: nat, s: State<R>, a: Action<R>)
    requires Inv(n, trigger, s) && Enabled(s, a)
    ensures Work(trigger, Next(trigger, s, a)) == Work(trigger, s) + if IsInner(a) then -1 else n + 3
  {
    var s' := Next(trigger, s, a);
    var more := |s'.requests| - |s.requests|;
    assert (n + 3) * |s'.requests| == (n + 3) * |s.requests| + (n + 3) * more;
    assert more == 0 || more == 1 || more == -1;
  }

  // ---------- runs ----------

  ghost predicate IsRun<R(!new)>(n: nat, trigger: nat, run: seq<State<R>>) {
    && |run| > 0 && run[0] == Initial(n)
    && forall k :: 0 <= k < |run| - 1 ==> IsStep(trigger, run[k], run[k + 1])
  }

  ghost predicate IsStep<R(!new)>(trigger: nat, s: State<R>, s': State<R>) {
    exists a: Action<R> :: Enabled(s, a) && s' == Next(trigger, s, a)
  }

  /**
   At every time of every run: ids are conserved; the requests are dispatched to every party in the
   order in which they arrived, each with the id taken for it; and the jobs that run are those begun
   and not ended.
   */
  lemma {:induction false} RunKeepsInv<R(!new)>(n: nat, trigger: nat, run: seq<State<R>>, k: nat)
    requires trigger < n && IsRun(n, trigger, run) && k < |run|
    ensures Inv(n, trigger, run[k])
  {
    if k == 0 {
      InitialInv<R>(n, trigger);
    } else {
      RunKeepsInv(n, trigger, run, k - 1);
      assert IsStep(trigger, run[k - 1], run[k]);
      var a: Action<R> :| Enabled(run[k - 1], a) && run[k] == Next(trigger, run[k - 1], a);
      StepKeepsInv(n, trigger, run[k - 1], a);
    }
  }

  lemma LengthStep<R>(n: nat, trigger: nat, s: State<R>, a: Action<R>, k: nat)
    requires Inv(n, trigger, s) && Enabled(s, a) && k + Work(trigger, s) == (n + 4) * |s.arrived|
    ensures var s' := Next(trigger, s, a); k + 1 + Work(trigger, s') == (n + 4) * |s'.arrived|
  {
    StepWorks(n, trigger, s, a);
    assert (n + 4) * (|s.arrived| + 1) == (n + 4) * |s.arrived| + n + 4;
  }

  /** Each request takes n + 4 steps: so many steps have been taken, or are left. */
  lemma {:induction false} RunLength<R(!new)>(n: nat, trigger: nat, run: seq<State<R>>, k: nat)
    requires trigger < n && IsRun(n, trigger, run) && k < |run|
    ensures k + Work(trigger, run[k]) == (n + 4) * |run[k].arrived|
  {
    if k > 0 {
      RunLength(n, trigger, run, k - 1);
      RunKeepsInv(n, trigger, run, k - 1);
      assert IsStep(trigger, run[k - 1], run[k]);
      var a: Action<R> :| Enabled(run[k - 1], a) && run[k] == Next(trigger, run[k - 1], a);
      LengthStep(n, trigger, run[k - 1], a, k - 1);
    }
  }

  /** What was pushed by these actions, in order. */
  function Pushed<R>(actions: seq<Action<R>>): seq<R> {
    if actions == [] then []
    else
      var last := actions[|actions| - 1];
      Pushed(actions[..|actions| - 1]) + if last.PushRequest? then [last.req] else []
  }

  /** A run with its actions. */
  ghost predicate IsTrace<R(!new)>(n: nat, trigger: nat, run: seq<State<R>>, actions: seq<Action<R>>) {
    && |run| == |actions| + 1 && run[0] == Initial(n)
    && forall k :: 0 <= k < |actions| ==> Enabled(run[k], actions[k]) && run[k + 1] == Next(trigger, run[k], actions[k])
  }

  lemma {:induction false} ArrivedIsPushed<R(!new)>(n: nat, trigger: nat, run: seq<State<R>>, actions: seq<Action<R>>,
                                                    k: nat)
    requires trigger < n && IsTrace(n, trigger, run, actions) && k <= |actions|
    ensures Inv(n, trigger, run[k]) && run[k].arrived == Pushed(actions[..k])
  {
    if k == 0 {
      InitialInv<R>(n, trigger);
    } else {
      ArrivedIsPushed(n, trigger, run, actions, k - 1);
      StepKeepsInv(n, trigger, run[k - 1], actions[k - 1]);
      assert actions[..k][..k - 1] == actions[..k - 1];
    }
  }

  /** Every party is told of the requests that were pushed, in that order, as many as have an id. */
  lemma TellsWhatIsPushed<R(!new)>(n: nat, trigger: nat, run: seq<State<R>>, actions: seq<Action<R>>, k: nat, q: nat)
    requires trigger < n && IsTrace(n, trigger, run, actions) && k <= |actions| && q < n
    ensures |run[k].orders| == n
    ensures var told, pushed := run[k].orders[q], Pushed(actions[..k]);
            && |told| <= |run[k].taken| <= |pushed|
            && forall i :: 0 <= i < |told| ==> told[i] == Order(run[k].taken[i], pushed[i])
  {
    ArrivedIsPushed(n, trigger, run, actions, k);
    assert |run[k].orders[q]| == Told(run[k], q);
  }
}
