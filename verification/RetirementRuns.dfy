/** Safety of retirement over whole runs, and the mailbox and task-queue sizes the protocol needs. */
module RetirementRuns {
  import opened Attempts
  import opened Generations
  import opened Retirement
  import opened Arith

  predicate Runs(s: Plane, steps: seq<Step>, s': Plane)
    decreases |steps|
  {
    if steps == [] then s == s' else Enabled(s, steps[0]) && Runs(Apply(s, steps[0]), steps[1..], s')
  }

  // ---------------------------------------------------------------- how full the mailbox can be

  function Queued(mailbox: seq<Event>, v: nat): nat {
    if mailbox == [] then 0 else One(mailbox[0].version == v) + Queued(mailbox[1..], v)
  }

  /** The mailbox with the events of one version taken out. */
  function Without(mailbox: seq<Event>, v: nat): seq<Event> {
    if mailbox == [] then []
    else if mailbox[0].version == v then Without(mailbox[1..], v)
    else [mailbox[0]] + Without(mailbox[1..], v)
  }

  lemma {:induction false} QueuedByKind(mailbox: seq<Event>, v: nat)
    ensures Queued(mailbox, v) == multiset(mailbox)[Event(LastRequestLeaseReleased, v)]
                                  + multiset(mailbox)[Event(WorkerBalancesReturned, v)]
                                  + multiset(mailbox)[Event(ReaperFinished, v)]
  {
    if mailbox != [] {
      QueuedByKind(mailbox[1..], v);
      assert mailbox == [mailbox[0]] + mailbox[1..];
      var e := mailbox[0];
      assert e == Event(e.kind, e.version);
      match e.kind { case LastRequestLeaseReleased => case WorkerBalancesReturned => case ReaperFinished => }
    }
  }

  lemma {:induction false} WithoutKeeps(mailbox: seq<Event>, v: nat, u: nat)
    ensures |mailbox| == |Without(mailbox, v)| + Queued(mailbox, v)
    ensures u != v ==> Queued(Without(mailbox, v), u) == Queued(mailbox, u)
    ensures forall i :: 0 <= i < |Without(mailbox, v)| ==> Without(mailbox, v)[i].version != v
    ensures forall e :: e in Without(mailbox, v) ==> e in mailbox
  {
    if mailbox != [] {
      WithoutKeeps(mailbox[1..], v, u);
      var rest := Without(mailbox[1..], v);
      if mailbox[0].version != v {
        assert ([mailbox[0]] + rest)[1..] == rest;
      }
    }
  }

  /** Events of versions in `versions`, at most `most` of each, fill at most |versions| * most slots. */
  lemma {:induction false} Fill(mailbox: seq<Event>, versions: set<nat>, most: nat)
    requires forall e :: e in mailbox ==> e.version in versions
    requires forall v :: v in versions ==> Queued(mailbox, v) <= most
    ensures |mailbox| <= most * |versions|
    decreases versions
  {
    assert mailbox != [] ==> mailbox[0].version in versions;
    if versions != {} {
      var v :| v in versions;
      WithoutKeeps(mailbox, v, v);
      var rest, others := Without(mailbox, v), versions - {v};
      forall u | u in others ensures Queued(rest, u) <= most { WithoutKeeps(mailbox, v, u); }
      forall e | e in rest ensures e.version in others {
      }
      Fill(rest, others, most);
      assert |versions| == |others| + 1;
      MulSplit(most, |others|, 1);
    }
  }

  lemma QueuedEvents(s: Plane, v: nat)
    requires v < |s.generations| && Sound(Of(s, v), s.workers) && s.workers > 0
    ensures Queued(s.mailbox, v) <= s.workers
    ensures v in s.notifying || v in s.reaping ==> Queued(s.mailbox, v) == 0 && v in s.retiring
    ensures TasksOf(s.tasks, v) != {} ==> Queued(s.mailbox, v) < s.workers && v in s.retiring
    ensures v !in s.retiring ==> Queued(s.mailbox, v) == 0
  {
    QueuedByKind(s.mailbox, v);
  }

  lemma {:induction false} QueuedMember(mailbox: seq<Event>, i: nat)
    requires i < |mailbox|
    ensures Queued(mailbox, mailbox[i].version) > 0
  {
    if i > 0 { QueuedMember(mailbox[1..], i - 1); }
  }

  lemma OnlyRetiring(s: Plane)
    requires Inv(s)
    ensures forall e :: e in s.mailbox ==> e.version in s.retiring.Keys
    ensures forall v :: v in s.retiring.Keys ==> Queued(s.mailbox, v) <= s.workers
  {
    forall e | e in s.mailbox ensures e.version in s.retiring.Keys {
      var i :| 0 <= i < |s.mailbox| && s.mailbox[i] == e;
      assert Sound(Of(s, e.version), s.workers);
      QueuedEvents(s, e.version);
      QueuedMember(s.mailbox, i);
    }
    forall v | v in s.retiring.Keys ensures Queued(s.mailbox, v) <= s.workers {
      assert Sound(Of(s, v), s.workers);
      QueuedEvents(s, v);
    }
  }

  /** Queued lifecycle events never exceed workers times retiring generations. */
  lemma QueueBound(s: Plane)
    requires Inv(s)
    ensures |s.mailbox| <= s.workers * |s.retiring| && |s.retiring| <= MAX_RETIRING
  {
    OnlyRetiring(s);
    Fill(s.mailbox, s.retiring.Keys, s.workers);
  }

  /** A version with a post still to come has left room for it. */
  lemma RoomToPost(s: Plane, v: nat)
    requires Inv(s)
    requires v in s.notifying || v in s.reaping || TasksOf(s.tasks, v) != {}
    ensures |s.mailbox| < s.workers * MAX_RETIRING
  {
    if TasksOf(s.tasks, v) != {} {
      var w :| w in TasksOf(s.tasks, v);
      assert (w, v) in s.tasks;
    }
    assert Sound(Of(s, v), s.workers);
    QueuedEvents(s, v);
    OnlyRetiring(s);
    var rest, others := Without(s.mailbox, v), s.retiring.Keys - {v};
    WithoutKeeps(s.mailbox, v, v);
    forall u | u in others ensures Queued(rest, u) <= s.workers { WithoutKeeps(s.mailbox, v, u); }
    forall e | e in rest ensures e.version in others {
    }
    Fill(rest, others, s.workers);
    OneOther(s.workers, |others|);
  }

  lemma OneOther(workers: nat, n: nat)
    requires n < MAX_RETIRING
    ensures workers * n <= workers
  {
    assert n == 0 || n == 1;
  }

  /** When the control loop hands out a task, the worker has at most its hand-overs and the return task
      of the other retiring version in its queue. */
  lemma LoadBound(s: Plane)
    requires Inv(s) && s.queues.posting.Some?
    ensures Load(s, s.queues.posting.value.1) <= s.queues.backlog + MAX_RETIRING - 1
  {
    var (v, worker) := s.queues.posting.value;
    var queued := QueuedOn(s.tasks, s.queues, worker);
    OwesRetiring(s, worker, v);
    forall u | u in queued ensures u in s.retiring.Keys - {v} { OwesRetiring(s, worker, u); }
    Within(queued, s.retiring.Keys - {v});
    assert Times(s.queues.waiting, worker) <= s.queues.backlog;
  }

  lemma OwesRetiring(s: Plane, worker: nat, v: nat)
    requires Inv(s) && (worker, v) in s.tasks
    ensures v in s.retiring
  {
    assert worker in TasksOf(s.tasks, v);
    assert Sound(Of(s, v), s.workers);
    QueuedEvents(s, v);
  }

  lemma {:induction false} Within(a: set<nat>, b: set<nat>)
    requires a <= b
    ensures |a| <= |b|
    decreases a
  {
    if a != {} {
      var x :| x in a;
      Within(a - {x}, b - {x});
    }
  }

  // ---------------------------------------------------------------- every run is safe

  lemma InitHolds(workers: nat, capacity: nat, limit: nat, backlog: nat)
    requires workers > 0
    ensures Inv(Init(workers, capacity, limit, backlog))
  {
    var s := Init(workers, capacity, limit, backlog);
    assert HoldersOf(s.requests, 0) == {} && TasksOf(s.tasks, 0) == {};
    assert Serving(Of(s, 0));
  }

  /** The mailbox is full and too small for the workers. */
  predicate MailboxFull(s: Plane) { s.capacity <= |s.mailbox| && s.capacity < s.workers * MAX_RETIRING }

  /** The worker to be handed a return task has a full queue, too small for the backlog. */
  predicate QueueFull(s: Plane) {
    && s.queues.posting.Some? && s.queues.limit <= Load(s, s.queues.posting.value.1)
    && s.queues.limit < s.queues.backlog + MAX_RETIRING
  }

  /** The program as a refused post left it: aborted in a sound state. */
  ghost predicate Aborted(m: Plane, s: Plane) {
    && Inv(m) && (MailboxFull(s) || QueueFull(s)) && s.balances <= m.balances
    && s == m.(terminated := true, notifying := s.notifying, tasks := s.tasks, balances := s.balances, reaping := s.reaping)
  }

  ghost predicate Sane(s: Plane) { Inv(s) || exists m :: Aborted(m, s) }

  /** Every step keeps the invariant, except a post that finds the mailbox or a worker's queue full. */
  lemma StepKeeps(s: Plane, step: Step)
    requires Inv(s) && Enabled(s, step)
    ensures Inv(Apply(s, step)) || Aborted(s, Apply(s, step))
  {
    match step
    case LoadGeneration(r, worker) => KeepsLoad(s, r, worker);
    case AcquireLease(r) => KeepsAcquire(s, r);
    case Admit(r) => KeepsAdmit(s, r);
    case ReleaseLease(r) => KeepsRelease(s, r);
    case Publish => KeepsPublish(s);
    case Retire => KeepsRetire(s);
    case Drain => KeepsDrain(s);
    case Handle => KeepsHandle(s);
    case PostTask => TaskKeeps(s);
    case HandOver(worker) => KeepsHandOver(s, worker);
    case TakeOver(worker) => KeepsTakeOver(s, worker);
    case _ => PostKeeps(s, step);
  }

  lemma TaskKeeps(s: Plane)
    requires Inv(s) && Enabled(s, PostTask)
    ensures if Load(s, s.queues.posting.value.1) < s.queues.limit then Inv(ApplyPostTask(s)) else Aborted(s, ApplyPostTask(s))
  {
    LoadBound(s);
    if Load(s, s.queues.posting.value.1) < s.queues.limit { KeepsPostTask(s); }
  }

  lemma PostKeeps(s: Plane, step: Step)
    requires Inv(s) && Enabled(s, step) && (step.PostNotice? || step.RunTask? || step.FinishReap?)
    ensures if |s.mailbox| < s.capacity then Inv(Apply(s, step)) else Aborted(s, Apply(s, step))
  {
    if step.RunTask? { assert step.worker in TasksOf(s.tasks, step.version); }
    RoomToPost(s, step.version);
    if |s.mailbox| < s.capacity {
      match step
      case PostNotice(v) => KeepsPostNotice(s, v);
      case RunTask(worker, v) => KeepsRunTask(s, worker, v);
      case FinishReap(v) => KeepsFinishReap(s, v);
    }
  }

  predicate SameSizes(s: Plane, s': Plane) {
    && s'.workers == s.workers && s'.capacity == s.capacity
    && s'.queues.limit == s.queues.limit && s'.queues.backlog == s.queues.backlog
  }

  lemma StepSizes(s: Plane, step: Step)
    requires Enabled(s, step)
    ensures SameSizes(s, Apply(s, step)) && |Apply(s, step).generations| >= |s.generations|
  {
    if step == Handle { HandleSizes(s); }
  }

  lemma HandleSizes(s: Plane)
    requires Enabled(s, Handle)
    ensures SameSizes(s, ApplyHandle(s)) && |ApplyHandle(s).generations| == |s.generations|
  {
  }

  lemma {:induction false} RunKeeps(s: Plane, steps: seq<Step>, s': Plane)
    requires Sane(s) && Runs(s, steps, s')
    ensures Sane(s') && SameSizes(s, s')
    decreases |steps|
  {
    if steps != [] {
      StepKeeps(s, steps[0]);
      StepSizes(s, steps[0]);
      RunKeeps(Apply(s, steps[0]), steps[1..], s');
    }
  }

  /** One step moves a version's state only forward, grants a lease only while it is active, and
      starts a reaper only when no lease is held and every worker gave its balance back. */
  ghost predicate Forward(p: Progress, p': Progress, workers: nat) {
    && Rank(p.g.state) <= Rank(p'.g.state)
    && (p'.g.leases > p.g.leases ==> p.g.state.Active? && p'.g.state.Active?)
    && (p'.notices > p.notices ==> p'.notices == p.notices + 1 && p'.g.leases == 0 && p'.g.state.Retiring?)
    && (p'.reaps > p.reaps
        ==> p'.reaps == p.reaps + 1 && p.g.leases == 0 && p'.back == Some(workers) && p.tasks == 0 && p.kept == {})
  }

  lemma RequestForward(s: Plane, step: Step, v: nat)
    requires Inv(s) && Enabled(s, step) && v < |s.generations|
    requires step.LoadGeneration? || step.AcquireLease? || step.Admit? || step.ReleaseLease?
    ensures v < |Apply(s, step).generations|
    ensures Forward(Of(s, v), Of(Apply(s, step), v), s.workers)
  {
    match step
    case LoadGeneration(r, worker) => HoldersChange(s.requests, r, 0);
    case AcquireLease(r) => AcquireForward(s, r, v);
    case Admit(r) =>
    case ReleaseLease(r) => ReleaseForward(s, r, v);
  }

  lemma AcquireForward(s: Plane, r: nat, v: nat)
    requires Enabled(s, AcquireLease(r)) && v < |s.generations|
    ensures v < |ApplyAcquire(s, r).generations|
    ensures Forward(Of(s, v), Of(ApplyAcquire(s, r), v), s.workers)
  {
    AcquireMoves(s, r, v);
  }

  lemma ReleaseForward(s: Plane, r: nat, v: nat)
    requires Inv(s) && Enabled(s, ReleaseLease(r)) && v < |s.generations|
    ensures v < |ApplyRelease(s, r).generations|
    ensures Forward(Of(s, v), Of(ApplyRelease(s, r), v), s.workers)
  {
    ReleaseReady(s, r);
    ReleaseMoves(s, r, v);
    if v == s.requests[r].version { AfterReleaseForward(Of(s, v), s.workers); }
  }

  lemma AfterReleaseForward(p: Progress, workers: nat)
    requires p.g.leases > 0 && p.holders > 0
    ensures Forward(p, AfterRelease(p), workers)
  {
  }

  lemma ControlForward(s: Plane, step: Step, v: nat)
    requires Inv(s) && Enabled(s, step) && v < |s.generations|
    requires step == Publish || step == Retire || step == Drain
    ensures v < |Apply(s, step).generations|
    ensures Forward(Of(s, v), Of(Apply(s, step), v), s.workers)
  {
    assert Sound(Of(s, v), s.workers);
    match step
    case Publish => PublishMoves(s, v);
    case Retire => RetireReady(s); RetireMoves(s, v);
    case Drain =>
  }

  lemma StepForward(s: Plane, step: Step, v: nat)
    requires Inv(s) && Enabled(s, step) && v < |s.generations|
    ensures v < |Apply(s, step).generations|
    ensures Forward(Of(s, v), Of(Apply(s, step), v), s.workers)
  {
    match step
    case Handle => HandleForward(s, v);
    case Publish | Retire | Drain => ControlForward(s, step, v);
    case PostNotice(_) | RunTask(_, _) | FinishReap(_) => PostForward(s, step, v);
    case PostTask | HandOver(_) | TakeOver(_) => QueueForward(s, step, v);
    case _ => RequestForward(s, step, v);
  }

  /** A post, accepted or refused, changes neither generations nor counts. */
  lemma PostForward(s: Plane, step: Step, v: nat)
    requires Enabled(s, step) && v < |s.generations| && (step.PostNotice? || step.RunTask? || step.FinishReap?)
    ensures v < |Apply(s, step).generations|
    ensures Forward(Of(s, v), Of(Apply(s, step), v), s.workers)
  {
    PostSame(s, step);
    SameForward(s, Apply(s, step), v);
  }

  /** Nor does a step on a worker's queue. */
  lemma QueueForward(s: Plane, step: Step, v: nat)
    requires Enabled(s, step) && v < |s.generations| && (step.PostTask? || step.HandOver? || step.TakeOver?)
    ensures v < |Apply(s, step).generations|
    ensures Forward(Of(s, v), Of(Apply(s, step), v), s.workers)
  {
    SameForward(s, Apply(s, step), v);
  }

  lemma PostSame(s: Plane, step: Step)
    requires Enabled(s, step) && (step.PostNotice? || step.RunTask? || step.FinishReap?)
    ensures Apply(s, step).generations == s.generations
    ensures Apply(s, step).notices == s.notices && Apply(s, step).reaps == s.reaps
  {
  }

  lemma SameForward(s: Plane, s': Plane, v: nat)
    requires s'.generations == s.generations && s'.notices == s.notices && s'.reaps == s.reaps && v < |s.generations|
    ensures Forward(Of(s, v), Of(s', v), s.workers)
  {
  }

  lemma RetireReady(s: Plane)
    requires Inv(s) && Enabled(s, Retire)
    ensures s.replaced.value !in s.retiring && s.replaced.value !in s.notifying
    ensures s.replaced.value < |s.generations| - 1 && s.generations[s.replaced.value].state.Active?
  {
    assert Sound(Of(s, s.replaced.value), s.workers) && Of(s, s.replaced.value).live;
  }

  lemma HandleForward(s: Plane, v: nat)
    requires Inv(s) && Enabled(s, Handle) && v < |s.generations|
    ensures v < |Apply(s, Handle).generations|
    ensures Forward(Of(s, v), Of(Apply(s, Handle), v), s.workers)
  {
    HandleSizes(s);
    assert s.batch[0].version < |s.generations|;
    if v != s.batch[0].version {
      HandleMoves(s, v);
    } else {
      assert Sound(Of(s, v), s.workers);
      EventStage(s, Of(s, v));
      HandleHere(s);
    }
  }

  lemma HandleHere(s: Plane)
    requires Enabled(s, Handle) && s.batch[0].version < |s.generations|
    requires Sound(Of(s, s.batch[0].version), s.workers)
    ensures |ApplyHandle(s).generations| == |s.generations|
    ensures Forward(Of(s, s.batch[0].version), Of(ApplyHandle(s), s.batch[0].version), s.workers)
  {
    var v := s.batch[0].version;
    HandleSizes(s);
    if s.batch[0].kind == WorkerBalancesReturned {
      ReturnedIs(s, v);
    } else {
      EventStage(s, Of(s, v));
      assert ApplyHandle(s).generations[v].leases == s.generations[v].leases;
    }
  }

  /** The state only moves forward and, once retirement began, the leases only go down. */
  predicate NoReturn(g: Generation, g': Generation) {
    Rank(g.state) <= Rank(g'.state) && (!g.state.Active? ==> g'.leases <= g.leases)
  }

  lemma FirstStep(s: Plane, steps: seq<Step>, s': Plane, v: nat) returns (m: Plane)
    requires Sane(s) && Runs(s, steps, s') && steps != [] && v < |s.generations|
    ensures Sane(m) && Runs(m, steps[1..], s')
    ensures v < |m.generations| && NoReturn(s.generations[v], m.generations[v])
  {
    m := Apply(s, steps[0]);
    StepForward(s, steps[0], v);
    StepKeeps(s, steps[0]);
  }

  /** Over any run no version goes back. */
  lemma {:induction false} RunForward(s: Plane, steps: seq<Step>, s': Plane, v: nat)
    requires Sane(s) && Runs(s, steps, s') && v < |s.generations|
    ensures v < |s'.generations|
    ensures NoReturn(s.generations[v], s'.generations[v])
    decreases |steps|
  {
    if steps != [] {
      var m := FirstStep(s, steps, s', v);
      RunForward(m, steps[1..], s', v);
    }
  }

  /** One lease per holder, one notice once the last lease of a retired version is gone, one reaper with
      no lease held and no worker balance left. */
  ghost predicate RetiresOnce(s: Plane, v: nat)
    requires v < |s.generations|
  {
    && s.generations[v].leases == |HoldersOf(s.requests, v)|
    && Times(s.notices, v) <= 1
    && (Times(s.notices, v) == 1 <==> !s.generations[v].state.Active? && s.generations[v].leases == 0)
    && Times(s.reaps, v) <= 1
    && (Times(s.reaps, v) == 1 ==> s.generations[v].leases == 0 && forall w: nat :: (w, v) !in s.balances)
  }

  lemma InvRetiresOnce(s: Plane, v: nat)
    requires Inv(s) && v < |s.generations|
    ensures RetiresOnce(s, v)
  {
    assert Sound(Of(s, v), s.workers);
    forall w: nat | Times(s.reaps, v) == 1 ensures (w, v) !in s.balances {
      assert w in TasksOf(s.balances, v) <==> (w, v) in s.balances;
    }
  }

  /** The state the last accepted step left, which an aborting post hardly changes. */
  lemma Before(s: Plane) returns (m: Plane)
    requires Sane(s)
    ensures Inv(m) && (m == s || Aborted(m, s))
  {
    if Inv(s) { m := s; } else { m :| Aborted(m, s); }
  }

  /** The retirement protocol, at every point of every run with any mailbox and task queues; the program
      aborts only on a full mailbox of fewer than two events per worker, or when a worker with a full
      queue, too small for the backlog of hand-overs and two return tasks, is to be handed one. */
  lemma EveryRunRetires(workers: nat, capacity: nat, limit: nat, backlog: nat, steps: seq<Step>, s: Plane)
    requires workers > 0 && Runs(Init(workers, capacity, limit, backlog), steps, s)
    ensures |s.retiring| <= MAX_RETIRING && |s.mailbox| <= workers * |s.retiring|
    ensures forall v :: 0 <= v < |s.generations| ==> RetiresOnce(s, v)
    ensures s.terminated ==> MailboxFull(s) || QueueFull(s)
    ensures SameSizes(Init(workers, capacity, limit, backlog), s)
  {
    InitHolds(workers, capacity, limit, backlog);
    RunKeeps(Init(workers, capacity, limit, backlog), steps, s);
    var m := Before(s);
    QueueBound(m);
    forall v | 0 <= v < |s.generations| ensures RetiresOnce(s, v) {
      InvRetiresOnce(m, v);
    }
  }

  /** Something still to happen will move the retirement of this version on: a request that holds a
      lease, a notice to post, an event to handle, a worker task or a reaper. */
  ghost predicate OnItsWay(s: Plane, v: nat) {
    || (exists r :: r in s.requests && s.requests[r].Leased? && s.requests[r].version == v)
    || v in s.notifying
    || (exists kind :: Event(kind, v) in s.mailbox || Event(kind, v) in s.batch)
    || (exists w :: (w, v) in s.tasks)
    || v in s.reaping
  }

  /** No retirement gets stuck: in every reachable state, until the program aborts, each retiring version
      is on its way, and every version but the published one is retiring, about to, or done. */
  lemma NeverStuck(workers: nat, capacity: nat, limit: nat, backlog: nat, steps: seq<Step>, s: Plane, v: nat)
    requires workers > 0 && Runs(Init(workers, capacity, limit, backlog), steps, s) && v < |s.generations|
    ensures v in s.retiring && !s.terminated ==> OnItsWay(s, v)
    ensures v !in s.retiring ==>
              v == |s.generations| - 1 || s.replaced == Some(v) || s.generations[v].state.Done?
  {
    InitHolds(workers, capacity, limit, backlog);
    RunKeeps(Init(workers, capacity, limit, backlog), steps, s);
    var m := Before(s);
    assert Sound(Of(m, v), m.workers);
    if v in s.retiring && !s.terminated { MovesOn(s, v); }
  }

  lemma MovesOn(s: Plane, v: nat)
    requires Inv(s) && v < |s.generations| && v in s.retiring
    ensures OnItsWay(s, v)
  {
    var p := Of(s, v);
    assert Sound(p, s.workers);
    if Waiting(p) {
      LeaseHeld(s, v);
    } else if Noticed(p) {
      EventSomewhere(s, LastRequestLeaseReleased, v);
    } else if Returning(p, s.workers) {
      if p.tasks > 0 {
        TaskQueued(s.tasks, v);
      } else {
        EventSomewhere(s, WorkerBalancesReturned, v);
      }
    } else {
      EventSomewhere(s, ReaperFinished, v);
    }
  }

  lemma LeaseHeld(s: Plane, v: nat)
    requires |HoldersOf(s.requests, v)| > 0
    ensures OnItsWay(s, v)
  {
    assert HoldersOf(s.requests, v) != {};
    var r :| r in HoldersOf(s.requests, v);
    assert s.requests[r].Leased? && s.requests[r].version == v;
  }

  lemma TaskQueued(tasks: set<(nat, nat)>, v: nat)
    requires |TasksOf(tasks, v)| > 0
    ensures exists w :: (w, v) in tasks
  {
    assert TasksOf(tasks, v) != {};
    var w :| w in TasksOf(tasks, v);
    assert (w, v) in tasks;
  }

  lemma EventSomewhere(s: Plane, kind: Kind, v: nat)
    ensures Seen(s.mailbox, s.batch, kind, v) > 0 ==> Event(kind, v) in s.mailbox || Event(kind, v) in s.batch
  {
    assert Event(kind, v) in multiset(s.mailbox) ==> Event(kind, v) in s.mailbox;
    assert Event(kind, v) in multiset(s.batch) ==> Event(kind, v) in s.batch;
  }

  // ---------------------------------------------------------------- the sizes the protocol needs

  ghost predicate NeverRefuses(workers: nat, capacity: nat, limit: nat, backlog: nat) {
    forall steps, s :: Runs(Init(workers, capacity, limit, backlog), steps, s) ==> !s.terminated
  }

  lemma {:induction false} Extend(s: Plane, steps: seq<Step>, m: Plane, step: Step)
    requires Runs(s, steps, m) && Enabled(m, step)
    ensures Runs(s, steps + [step], Apply(m, step))
    decreases |steps|
  {
    if steps == [] {
      assert Runs(Apply(m, step), [], Apply(m, step));
    } else {
      Extend(Apply(s, steps[0]), steps[1..], m, step);
      assert (steps + [step])[1..] == steps[1..] + [step];
    }
  }

  lemma {:induction false} AllWorkersSize(workers: nat, v: nat)
    ensures |AllWorkers(workers, v)| == workers
    ensures forall t :: t in AllWorkers(workers, v) ==> t.0 < workers && t.1 == v
  {
    if workers > 0 {
      AllWorkersSize(workers - 1, v);
      assert (workers - 1, v) !in AllWorkers(workers - 1, v);
    }
  }

  /** At rest before a reload: nothing queued in the mailbox, the published generation untouched. */
  predicate Idle(s: Plane) {
    && s.generations != [] && !s.terminated && ControlFree(s) && s.replaced.None? && s.mailbox == [] && s.batch == []
    && s.capacity > 0 && |s.retiring| < MAX_RETIRING
    && |s.generations| - 1 !in s.retiring && s.generations[|s.generations| - 1] == FRESH
  }

  /** Publish and retire an idle generation: its notice is raised at once. */
  lemma RetireIdle(s: Plane) returns (s': Plane)
    requires Idle(s)
    ensures Enabled(s, Publish) && Enabled(Apply(s, Publish), Retire) && s' == Apply(Apply(s, Publish), Retire)
    ensures s' == s.(generations := s'.generations, retiring := s.retiring[|s.generations| - 1 := 0],
                     notifying := s.notifying + {|s.generations| - 1}, notices := s'.notices)
    ensures |s'.generations| == |s.generations| + 1 && s'.generations[|s.generations|] == FRESH
  {
    s' := Apply(Apply(s, Publish), Retire);
  }

  /** Post, drain and handle a notice. */
  lemma HandleIdle(s: Plane, v: nat) returns (s': Plane)
    requires Enabled(s, PostNotice(v)) && ControlFree(s) && s.mailbox == [] && s.batch == [] && s.capacity > 0
    requires v in s.retiring && v < |s.generations|
    ensures Enabled(ApplyPostNotice(s, v), Drain)
    ensures Enabled(ApplyDrain(ApplyPostNotice(s, v)), Handle)
    ensures s' == ApplyHandle(ApplyDrain(ApplyPostNotice(s, v)))
    ensures s' == s.(notifying := s.notifying - {v}, tasks := s.tasks + AllWorkers(s.workers, v),
                     queues := s.queues.(posting := Some((v, 0))))
  {
    var queued := ApplyDrain(ApplyPostNotice(s, v));
    assert queued == s.(notifying := s.notifying - {v}, batch := [Event(LastRequestLeaseReleased, v)]);
    s' := ApplyHandle(queued);
    assert queued.batch[1..] == [];
  }

  /** A reload of an idle generation, up to the point where its return tasks are to be handed out. */
  lemma ReloadIdle(start: Plane, steps: seq<Step>, s: Plane) returns (steps': seq<Step>, s': Plane)
    requires Runs(start, steps, s) && Idle(s)
    ensures Runs(start, steps', s')
    ensures s' == s.(generations := s'.generations, retiring := s.retiring[|s.generations| - 1 := 0],
                     notifying := s'.notifying, notices := s'.notices,
                     tasks := s.tasks + AllWorkers(s.workers, |s.generations| - 1),
                     queues := s.queues.(posting := Some((|s.generations| - 1, 0))))
    ensures |s'.generations| == |s.generations| + 1 && s'.generations[|s.generations|] == FRESH
  {
    var v := |s.generations| - 1;
    var m := RetireIdle(s);
    Extend(start, steps, s, Publish);
    Extend(start, steps + [Publish], Apply(s, Publish), Retire);
    steps' := steps + [Publish] + [Retire];
    s' := HandleIdle(m, v);
    Extend(start, steps', m, PostNotice(v));
    Extend(start, steps' + [PostNotice(v)], ApplyPostNotice(m, v), Drain);
    Extend(start, steps' + [PostNotice(v)] + [Drain], ApplyDrain(ApplyPostNotice(m, v)), Handle);
    steps' := steps' + [PostNotice(v)] + [Drain] + [Handle];
  }

  /** The return tasks of other versions this worker owes. */
  function Others(tasks: set<(nat, nat)>, worker: nat, v: nat): set<nat> {
    set t | t in tasks && t.0 == worker && t.1 != v :: t.1
  }

  lemma LoadIs(s: Plane, v: nat, worker: nat)
    requires s.queues.posting == Some((v, worker))
    ensures Load(s, worker) == Times(s.queues.waiting, worker) + |Others(s.tasks, worker, v)|
  {
    assert QueuedOn(s.tasks, s.queues, worker) == Others(s.tasks, worker, v);
  }

  /** With room in every queue all the tasks are handed out. */
  lemma {:induction false} HandOut(start: Plane, steps: seq<Step>, s: Plane, v: nat, k: nat)
    returns (steps': seq<Step>, s': Plane)
    requires Runs(start, steps, s) && !s.terminated && s.generations != [] && k < s.workers
    requires s.queues.posting == Some((v, k))
    requires forall w: nat :: k <= w < s.workers ==> Times(s.queues.waiting, w) + |Others(s.tasks, w, v)| < s.queues.limit
    ensures Runs(start, steps', s') && s' == s.(queues := s.queues.(posting := None))
    decreases s.workers - k
  {
    LoadIs(s, v, k);
    Extend(start, steps, s, PostTask);
    steps', s' := steps + [PostTask], Apply(s, PostTask);
    if k + 1 < s.workers { steps', s' := HandOut(start, steps', s', v, k + 1); }
  }

  /** With more return tasks queued than the mailbox has room, the workers fill it and overflow. */
  lemma {:induction false} Flood(start: Plane, steps: seq<Step>, s: Plane) returns (steps': seq<Step>, s': Plane)
    requires Runs(start, steps, s) && ControlFree(s)
    requires !s.terminated && s.generations != [] && |s.mailbox| <= s.capacity < |s.mailbox| + |s.tasks|
    ensures Runs(start, steps', s') && s'.terminated && ControlFree(s')
    decreases |s.tasks|
  {
    assert s.tasks != {};
    var t :| t in s.tasks;
    var step := RunTask(t.0, t.1);
    Extend(start, steps, s, step);
    steps', s' := steps + [step], Apply(s, step);
    if |s.mailbox| < s.capacity {
      assert |s'.tasks| == |s.tasks| - 1;
      steps', s' := Flood(start, steps', s');
    }
  }

  /** A first reload of idle generations: every worker's queue holds its return task. */
  lemma FirstReload(workers: nat, capacity: nat, limit: nat, backlog: nat) returns (steps: seq<Step>, s: Plane)
    requires workers > 0 && capacity > 0 && limit > 0
    ensures var start := Init(workers, capacity, limit, backlog);
            && Runs(start, steps, s) && Idle(s) && |s.generations| == 2 && s.retiring == map[0 := 0]
            && s.tasks == AllWorkers(workers, 0) && s.queues == start.queues && SameSizes(start, s)
  {
    var start := Init(workers, capacity, limit, backlog);
    assert Runs(start, [], start);
    steps, s := ReloadIdle(start, [], start);
    assert s.tasks == AllWorkers(workers, 0);
    AllWorkersSize(workers, 0);
    forall w: nat | w < workers ensures Times(s.queues.waiting, w) + |Others(s.tasks, w, 0)| < limit {
      assert Others(s.tasks, w, 0) == {};
    }
    steps, s := HandOut(start, steps, s, 0, 0);
  }

  /** Two reloads in a row, and every worker answers before the control loop drains. */
  lemma SmallMailboxOverflows(workers: nat, capacity: nat, limit: nat, backlog: nat) returns (steps: seq<Step>, s: Plane)
    requires 0 < capacity < workers * MAX_RETIRING && limit >= MAX_RETIRING
    ensures Runs(Init(workers, capacity, limit, backlog), steps, s) && s.terminated && MailboxFull(s)
  {
    var start := Init(workers, capacity, limit, backlog);
    steps, s := FirstReload(workers, capacity, limit, backlog);
    steps, s := SecondReload(start, steps, s);
    TwoEach(workers);
    steps, s := Flood(start, steps, s);
    EveryRunRetires(workers, capacity, limit, backlog, steps, s);
  }

  lemma SecondReload(start: Plane, steps: seq<Step>, s: Plane) returns (steps': seq<Step>, s': Plane)
    requires Runs(start, steps, s) && Idle(s) && |s.generations| == 2 && s.workers > 0
    requires s.tasks == AllWorkers(s.workers, 0) && s.queues.waiting == map[] && s.queues.limit >= MAX_RETIRING
    ensures Runs(start, steps', s') && ControlFree(s') && !s'.terminated && s'.generations != [] && s'.mailbox == []
    ensures s'.tasks == AllWorkers(s.workers, 0) + AllWorkers(s.workers, 1) && s'.capacity == s.capacity
  {
    steps', s' := ReloadIdle(start, steps, s);
    TwoEach(s.workers);
    forall w: nat | w < s'.workers ensures Times(s'.queues.waiting, w) + |Others(s'.tasks, w, 1)| < s'.queues.limit {
      assert Others(s'.tasks, w, 1) == {0};
    }
    steps', s' := HandOut(start, steps', s', 1, 0);
  }

  lemma TwoEach(workers: nat)
    ensures |AllWorkers(workers, 0) + AllWorkers(workers, 1)| == workers * MAX_RETIRING
    ensures forall w: nat :: w < workers ==> Others(AllWorkers(workers, 0) + AllWorkers(workers, 1), w, 1) == {0}
  {
    AllWorkersSize(workers, 0);
    AllWorkersSize(workers, 1);
    EachWorker(workers, 0);
    assert AllWorkers(workers, 0) !! AllWorkers(workers, 1);
    var all := AllWorkers(workers, 0) + AllWorkers(workers, 1);
    forall w: nat | w < workers ensures Others(all, w, 1) == {0} {
      assert (w, 0) in all;
    }
  }

  /** Hand-overs wait on worker 0 until its queue holds n besides one return task. */
  lemma {:induction false} FillQueue(start: Plane, steps: seq<Step>, s: Plane, n: nat) returns (steps': seq<Step>, s': Plane)
    requires Runs(start, steps, s) && !s.terminated && s.generations != [] && ControlFree(s) && s.workers > 0
    requires s.tasks == AllWorkers(s.workers, 0) && s.queues.waiting == map[]
    requires n <= s.queues.backlog && n < s.queues.limit
    ensures Runs(start, steps', s') && s' == s.(queues := s.queues.(waiting := s'.queues.waiting))
    ensures Times(s'.queues.waiting, 0) == n
  {
    if n == 0 {
      steps', s' := steps, s;
    } else {
      steps', s' := FillQueue(start, steps, s, n - 1);
      AllWorkersSize(s.workers, 0);
      EachWorker(s.workers, 0);
      assert (0, 0) in s.tasks;
      assert QueuedOn(s'.tasks, s'.queues, 0) == {0};
      Extend(start, steps', s', HandOver(0));
      steps', s' := steps' + [HandOver(0)], Apply(s', HandOver(0));
    }
  }

  /** A reload while worker 0 is behind with connections: its queue refuses the return task. */
  lemma FullQueueRefuses(workers: nat, capacity: nat, limit: nat, backlog: nat) returns (steps: seq<Step>, s: Plane)
    requires workers > 0 && capacity > 0 && 0 < limit < backlog + MAX_RETIRING
    ensures Runs(Init(workers, capacity, limit, backlog), steps, s) && s.terminated && QueueFull(s)
  {
    var start := Init(workers, capacity, limit, backlog);
    steps, s := FirstReload(workers, capacity, limit, backlog);
    steps, s := FillQueue(start, steps, s, limit - 1);
    steps, s := OneTooMany(start, steps, s);
  }

  lemma OneTooMany(start: Plane, steps: seq<Step>, s: Plane) returns (steps': seq<Step>, s': Plane)
    requires Runs(start, steps, s) && Idle(s) && |s.generations| == 2 && s.workers > 0
    requires s.tasks == AllWorkers(s.workers, 0) && Times(s.queues.waiting, 0) == s.queues.limit - 1
    requires s.queues.limit < s.queues.backlog + MAX_RETIRING
    ensures Runs(start, steps', s') && s'.terminated && QueueFull(s')
  {
    var steps1, m := ReloadIdle(start, steps, s);
    TwoEach(s.workers);
    LoadIs(m, 1, 0);
    assert Load(m, 0) == s.queues.limit;
    Extend(start, steps1, m, PostTask);
    steps', s' := steps1 + [PostTask], ApplyPostTask(m);
    assert Load(s', 0) == Load(m, 0);
  }

  /** No post of the protocol is ever refused, in any run, exactly when the mailbox holds two events per
      worker and each task queue two tasks more than the hand-overs that may wait in it. */
  lemma CapacityIff(workers: nat, capacity: nat, limit: nat, backlog: nat)
    requires workers > 0 && capacity > 0 && limit > 0
    ensures NeverRefuses(workers, capacity, limit, backlog)
            <==> capacity >= workers * MAX_RETIRING && limit >= backlog + MAX_RETIRING
  {
    if limit < backlog + MAX_RETIRING {
      var steps, s := FullQueueRefuses(workers, capacity, limit, backlog);
    } else if capacity < workers * MAX_RETIRING {
      var steps, s := SmallMailboxOverflows(workers, capacity, limit, backlog);
    } else {
      forall steps, s | Runs(Init(workers, capacity, limit, backlog), steps, s) ensures !s.terminated {
        EveryRunRetires(workers, capacity, limit, backlog, steps, s);
      }
    }
  }
}
