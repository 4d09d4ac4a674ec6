/** The retirement protocol between workers, the control loop and the reaper threads, over every
    reload and every interleaving while the workers run.  Workers may act on a generation pointer
    they loaded before a reload replaced it.  `notices` and `reaps` are history: per version, how
    often the last-lease callback was raised and how often a reaper was started.

    Each worker's task queue is bounded and also takes the connections the control loop hands over.
    The order of the tasks in one queue is not kept: any of them may run next. */
module Retirement {
  import opened Attempts
  import opened Generations

  const MAX_RETIRING: nat := 2

  /** A request: generation pointer loaded, or lease held. */
  datatype Request = Loaded(worker: nat, version: nat) | Leased(worker: nat, version: nat)

  /** The workers' task queues: their limit, how many hand-overs may wait on one worker at a time, how
      many do, and the balance-return tasks the control loop is handing out: version and next worker. */
  datatype Queues = Queues(limit: nat, backlog: nat, waiting: map<nat, nat>, posting: Option<(nat, nat)>)

  datatype Plane = Plane(
    workers: nat,
    capacity: nat,
    generations: seq<Generation>,    // indexed by version; the last one is published
    replaced: Option<nat>,           // version just replaced, its retirement not yet begun
    retiring: map<nat, nat>,         // version -> worker balances returned
    mailbox: seq<Event>,
    batch: seq<Event>,               // drained by the control loop, not yet handled
    notifying: set<nat>,             // versions whose last-lease event is about to be posted
    tasks: set<(nat, nat)>,          // (worker, version) balance returns queued or being handed out
    queues: Queues,
    balances: set<(nat, nat)>,       // (worker, version) lease balances a worker keeps
    requests: map<nat, Request>,
    reaping: set<nat>,               // versions with a running reaper
    terminated: bool,                // the program aborted
    notices: map<nat, nat>,
    reaps: map<nat, nat>)

  datatype Step =
    | LoadGeneration(r: nat, worker: nat)
    | AcquireLease(r: nat)
    | Admit(r: nat)
    | ReleaseLease(r: nat)
    | PostNotice(version: nat)
    | Publish
    | Retire
    | Drain
    | Handle
    | PostTask
    | HandOver(worker: nat)
    | TakeOver(worker: nat)
    | RunTask(worker: nat, version: nat)
    | FinishReap(version: nat)

  function Init(workers: nat, capacity: nat, limit: nat, backlog: nat): Plane {
    Plane(workers, capacity, [FRESH], None, map[], [], [], {}, {}, Queues(limit, backlog, map[], None), {}, map[], {},
          false, map[], map[])
  }

  /** Still to be handed out by the control loop. */
  predicate Due(q: Queues, worker: nat, v: nat) {
    q.posting.Some? && q.posting.value.0 == v && q.posting.value.1 <= worker
  }

  /** The versions whose return task is in this worker's queue. */
  function QueuedOn(tasks: set<(nat, nat)>, q: Queues, worker: nat): set<nat> {
    set t | t in tasks && t.0 == worker && !Due(q, t.0, t.1) :: t.1
  }

  /** How full a worker's queue is. */
  function Load(s: Plane, worker: nat): nat {
    Times(s.queues.waiting, worker) + |QueuedOn(s.tasks, s.queues, worker)|
  }

  /** The control loop is between events; it hands tasks out in one go. */
  predicate ControlFree(s: Plane) { s.queues.posting.None? }

  predicate Enabled(s: Plane, step: Step) {
    && !s.terminated && s.generations != []
    && match step
       case LoadGeneration(r, worker) => r !in s.requests && worker < s.workers
       case AcquireLease(r) => r in s.requests && s.requests[r].Loaded? && s.requests[r].version < |s.generations|
       case Admit(r) => r in s.requests && s.requests[r].Leased?
       case ReleaseLease(r) => r in s.requests && s.requests[r].Leased? && s.requests[r].version < |s.generations|
       case PostNotice(v) => v in s.notifying
       case Publish => ControlFree(s) && s.replaced.None?
       case Retire => ControlFree(s) && s.replaced.Some? && s.replaced.value < |s.generations|
       case Drain => ControlFree(s) && s.batch == []
       case Handle => ControlFree(s) && s.batch != []
       case PostTask => s.queues.posting.Some?
       case HandOver(worker) =>
         ControlFree(s) && worker < s.workers && Times(s.queues.waiting, worker) < s.queues.backlog
       case TakeOver(worker) => Times(s.queues.waiting, worker) > 0
       case RunTask(worker, v) => (worker, v) in s.tasks && !Due(s.queues, worker, v)
       case FinishReap(v) => v in s.reaping
  }

  /** Posting past the mailbox's capacity aborts the program. */
  function Post(s: Plane, event: Event): Plane {
    if |s.mailbox| >= s.capacity then s.(terminated := true) else s.(mailbox := s.mailbox + [event])
  }

  function Times(m: map<nat, nat>, v: nat): nat { if v in m then m[v] else 0 }

  function Raise(s: Plane, v: nat, notify: bool): Plane {
    s.(notifying := if notify then s.notifying + {v} else s.notifying,
       notices := if notify then s.notices[v := Times(s.notices, v) + 1] else s.notices)
  }

  /** Releasing with no lease held aborts the program. */
  function ApplyRelease(s: Plane, r: nat): Plane
    requires Enabled(s, ReleaseLease(r))
  {
    var v := s.requests[r].version;
    if s.generations[v].leases == 0 then s.(terminated := true)
    else
      var (g, notify) := Released(s.generations[v]);
      Raise(s.(generations := s.generations[v := g], requests := s.requests - {r}), v, notify)
  }

  /** Publish the next generation; refused while two are retiring. */
  function ApplyPublish(s: Plane): Plane
    requires s.generations != []
  {
    if |s.retiring| >= MAX_RETIRING then s
    else s.(generations := s.generations + [FRESH], replaced := Some(|s.generations| - 1))
  }

  function ApplyRetire(s: Plane): Plane
    requires Enabled(s, Retire)
  {
    var v, h := s.replaced.value, s.(replaced := None);
    if v in s.retiring then h
    else
      match RetirementBegun(s.generations[v])
      case None => h
      case Some((g, notify)) =>
        Raise(h.(generations := s.generations[v := g], retiring := s.retiring[v := 0]), v, notify)
  }

  /** All balances are back: stop the checkers and start the one reaper. */
  function StartReaper(s: Plane, v: nat): Plane
    requires v < |s.generations|
  {
    var (g, started) := CheckersThenReaping(s.generations[v]);
    s.(generations := s.generations[v := g],
       reaping := if started then s.reaping + {v} else s.reaping,
       reaps := if started then s.reaps[v := Times(s.reaps, v) + 1] else s.reaps)
  }

  function CheckersThenReaping(g: Generation): (Generation, bool) {
    match CheckersNotified(g)
    case None => (g, false)
    case Some(stopped) =>
      match ReapingBegun(stopped)
      case None => (stopped, false)
      case Some(reaping) => (reaping, true)
  }

  function AllWorkers(workers: nat, v: nat): set<(nat, nat)> {
    if workers == 0 then {} else AllWorkers(workers - 1, v) + {(workers - 1, v)}
  }

  /** Every worker owes the return of its balance; the control loop starts handing out the tasks. */
  function OnNotice(s: Plane, v: nat): Plane {
    s.(tasks := s.tasks + AllWorkers(s.workers, v), queues := s.queues.(posting := Some((v, 0))))
  }

  /** A worker whose queue is full refuses the task, which aborts the program. */
  function ApplyPostTask(s: Plane): Plane
    requires s.queues.posting.Some?
  {
    var (v, worker) := s.queues.posting.value;
    if Load(s, worker) >= s.queues.limit then s.(terminated := true)
    else
      var next := if worker + 1 < s.workers then Some((v, worker + 1)) else None;
      s.(queues := s.queues.(posting := next))
  }

  /** A connection that finds the queue full is closed. */
  function ApplyHandOver(s: Plane, worker: nat): Plane {
    if Load(s, worker) >= s.queues.limit then s
    else s.(queues := s.queues.(waiting := s.queues.waiting[worker := Times(s.queues.waiting, worker) + 1]))
  }

  function ApplyTakeOver(s: Plane, worker: nat): Plane
    requires Times(s.queues.waiting, worker) > 0
  {
    s.(queues := s.queues.(waiting := s.queues.waiting[worker := s.queues.waiting[worker] - 1]))
  }

  function OnReturned(s: Plane, v: nat): Plane
    requires v in s.retiring && v < |s.generations|
  {
    var counted := s.(retiring := s.retiring[v := s.retiring[v] + 1]);
    if counted.retiring[v] == s.workers then StartReaper(counted, v) else counted
  }

  function OnFinished(s: Plane, v: nat): Plane
    requires v < |s.generations|
  {
    s.(generations := s.generations[v := Retired(s.generations[v])], retiring := s.retiring - {v})
  }

  function ApplyHandle(s: Plane): Plane
    requires s.batch != []
  {
    var Event(kind, v) := s.batch[0];
    var h := s.(batch := s.batch[1..]);
    if v !in s.retiring || v >= |s.generations| then h
    else match kind
      case LastRequestLeaseReleased => OnNotice(h, v)
      case WorkerBalancesReturned => OnReturned(h, v)
      case ReaperFinished => OnFinished(h, v)
  }

  /** A lease is refused once retirement has begun. */
  function ApplyAcquire(s: Plane, r: nat): Plane
    requires Enabled(s, AcquireLease(r))
  {
    var Loaded(worker, v) := s.requests[r];
    var g := Acquired(s.generations[v]);
    if g.None? then s.(requests := s.requests - {r})
    else s.(generations := s.generations[v := g.value], requests := s.requests[r := Leased(worker, v)])
  }

  /** The worker keeps a lease balance for the request's generation. */
  function ApplyAdmit(s: Plane, r: nat): Plane
    requires Enabled(s, Admit(r))
  {
    s.(balances := s.balances + {(s.requests[r].worker, s.requests[r].version)})
  }

  function ApplyLoad(s: Plane, r: nat, worker: nat): Plane
    requires s.generations != []
  {
    s.(requests := s.requests[r := Loaded(worker, |s.generations| - 1)])
  }

  function ApplyPostNotice(s: Plane, v: nat): Plane {
    Post(s.(notifying := s.notifying - {v}), Event(LastRequestLeaseReleased, v))
  }

  function ApplyDrain(s: Plane): Plane { s.(batch := s.mailbox, mailbox := []) }

  /** A worker gives back its balance and says so. */
  function ApplyRunTask(s: Plane, worker: nat, v: nat): Plane {
    Post(s.(tasks := s.tasks - {(worker, v)}, balances := s.balances - {(worker, v)}), Event(WorkerBalancesReturned, v))
  }

  function ApplyFinishReap(s: Plane, v: nat): Plane {
    Post(s.(reaping := s.reaping - {v}), Event(ReaperFinished, v))
  }

  function Apply(s: Plane, step: Step): Plane
    requires Enabled(s, step)
  {
    match step
    case LoadGeneration(r, worker) => ApplyLoad(s, r, worker)
    case AcquireLease(r) => ApplyAcquire(s, r)
    case Admit(r) => ApplyAdmit(s, r)
    case ReleaseLease(r) => ApplyRelease(s, r)
    case PostNotice(v) => ApplyPostNotice(s, v)
    case Publish => ApplyPublish(s)
    case Retire => ApplyRetire(s)
    case Drain => ApplyDrain(s)
    case Handle => ApplyHandle(s)
    case PostTask => ApplyPostTask(s)
    case HandOver(worker) => ApplyHandOver(s, worker)
    case TakeOver(worker) => ApplyTakeOver(s, worker)
    case RunTask(worker, v) => ApplyRunTask(s, worker, v)
    case FinishReap(v) => ApplyFinishReap(s, v)
  }

  // ---------------------------------------------------------------- one version's progress

  /** Everything the protocol knows about one version: its generation, how many requests hold a
      lease on it, how far its retirement is, and where its lifecycle events currently are.  `kept`
      are the workers that keep a balance for it with no return task queued. */
  datatype Progress = Progress(
    g: Generation, live: bool, back: Option<nat>, holders: nat, notices: nat, reaps: nat,
    notice: nat, tasks: nat, returned: nat, reap: nat, kept: set<nat>)

  function Seen(mailbox: seq<Event>, batch: seq<Event>, kind: Kind, v: nat): nat {
    multiset(mailbox)[Event(kind, v)] + multiset(batch)[Event(kind, v)]
  }

  function One(b: bool): nat { if b then 1 else 0 }

  function TasksOf(tasks: set<(nat, nat)>, v: nat): set<nat> {
    set t | t in tasks && t.1 == v :: t.0
  }

  function HoldersOf(requests: map<nat, Request>, v: nat): set<nat> {
    set r | r in requests && requests[r] == Leased(requests[r].worker, v)
  }

  function Of(s: Plane, v: nat): Progress
    requires v < |s.generations|
  {
    Progress(
      s.generations[v],
      v == |s.generations| - 1 || s.replaced == Some(v),
      if v in s.retiring then Some(s.retiring[v]) else None,
      |HoldersOf(s.requests, v)|, Times(s.notices, v), Times(s.reaps, v),
      One(v in s.notifying) + Seen(s.mailbox, s.batch, LastRequestLeaseReleased, v),
      |TasksOf(s.tasks, v)|,
      Seen(s.mailbox, s.batch, WorkerBalancesReturned, v),
      One(v in s.reaping) + Seen(s.mailbox, s.batch, ReaperFinished, v),
      TasksOf(s.balances, v) - TasksOf(s.tasks, v))
  }

  predicate Quiet(p: Progress) { p.notice == p.tasks == p.returned == p.reap == 0 }

  /** In service: nothing of the retirement has happened. */
  predicate Serving(p: Progress) {
    p.live && p.back.None? && p.g.state.Active? && !p.g.notified && !p.g.checkersStopped && Quiet(p)
  }

  /** Retiring, some requests still hold leases. */
  predicate Waiting(p: Progress) {
    p.back == Some(0) && p.g.state.Retiring? && !p.g.notified && !p.g.checkersStopped && p.g.leases > 0 && Quiet(p)
  }

  /** The last lease is gone and its one event is on the way. */
  predicate Noticed(p: Progress) {
    && p.back == Some(0) && p.g.state.Retiring? && p.g.notified && !p.g.checkersStopped && p.g.leases == 0
    && p.notice == 1 && p.tasks == p.returned == p.reap == 0
  }

  /** Each worker has its return task queued, its event on the way, or has been counted. */
  predicate Returning(p: Progress, workers: nat) {
    && p.back.Some? && p.back.value < workers
    && p.g.state.Retiring? && p.g.notified && !p.g.checkersStopped && p.g.leases == 0
    && p.notice == p.reap == 0 && p.tasks + p.returned + p.back.value == workers && p.kept == {}
  }

  /** One reaper, or its finish event, exists. */
  predicate BeingReaped(p: Progress, workers: nat) {
    && p.back == Some(workers) && p.g.state.OutcomeDraining? && p.g.notified && p.g.leases == 0
    && p.notice == p.tasks == p.returned == 0 && p.reap == 1 && p.kept == {}
  }

  predicate Gone(p: Progress) {
    p.back.None? && p.g.state.Done? && p.g.notified && p.g.leases == 0 && Quiet(p) && p.kept == {}
  }

  predicate Sound(p: Progress, workers: nat) {
    && p.g.leases == p.holders
    && p.notices == One(p.g.notified)
    && p.reaps == One(Rank(p.g.state) >= Rank(OutcomeDraining))
    && (Serving(p)
        || (!p.live && (Waiting(p) || Noticed(p) || Returning(p, workers) || BeingReaped(p, workers) || Gone(p))))
  }

  predicate Below(versions: set<nat>, n: nat) { forall v :: v in versions ==> v < n }

  predicate PairsBelow(pairs: set<(nat, nat)>, workers: nat, n: nat) {
    forall t :: t in pairs ==> t.0 < workers && t.1 < n
  }

  predicate EventsBelow(events: seq<Event>, n: nat) { forall i :: 0 <= i < |events| ==> events[i].version < n }

  predicate RequestsBelow(requests: map<nat, Request>, workers: nat, n: nat) {
    forall r :: r in requests ==> requests[r].worker < workers && requests[r].version < n
  }

  predicate Bounded(s: Plane) {
    var n := |s.generations|;
    && Below(s.retiring.Keys, n) && Below(s.notifying, n) && Below(s.reaping, n)
    && Below(s.notices.Keys, n) && Below(s.reaps.Keys, n)
    && PairsBelow(s.tasks, s.workers, n) && PairsBelow(s.balances, s.workers, n)
    && EventsBelow(s.mailbox, n) && EventsBelow(s.batch, n)
    && RequestsBelow(s.requests, s.workers, n)
    && (s.replaced.Some? ==> s.replaced.value < n - 1)
    && |s.retiring| + One(s.replaced.Some?) <= MAX_RETIRING
  }

  ghost predicate WaitingOk(waiting: map<nat, nat>, backlog: nat) { forall w: nat :: Times(waiting, w) <= backlog }

  /** What is being handed out is owed by each worker not yet served; hand-overs stay within the backlog. */
  ghost predicate QueuesOk(q: Queues, tasks: set<(nat, nat)>, workers: nat) {
    && WaitingOk(q.waiting, q.backlog)
    && (q.posting.Some? ==>
          var (v, next) := q.posting.value;
          next < workers && forall w: nat :: next <= w < workers ==> (w, v) in tasks)
  }

  ghost predicate Inv(s: Plane) {
    && s.workers > 0 && s.generations != [] && !s.terminated
    && Bounded(s) && QueuesOk(s.queues, s.tasks, s.workers)
    && forall v :: 0 <= v < |s.generations| ==> Sound(Of(s, v), s.workers)
  }

  // ---------------------------------------------------------------- how each part changes

  lemma HoldersChange(requests: map<nat, Request>, r: nat, v: nat)
    ensures r !in requests ==> forall w, u, x :: HoldersOf(requests[r := Loaded(w, u)], x) == HoldersOf(requests, x)
    ensures r in requests && requests[r] == Leased(requests[r].worker, v)
            ==> |HoldersOf(requests - {r}, v)| == |HoldersOf(requests, v)| - 1
    ensures r in requests && requests[r] == Loaded(requests[r].worker, v)
            ==> |HoldersOf(requests[r := Leased(requests[r].worker, v)], v)| == |HoldersOf(requests, v)| + 1
  {
    if r !in requests {
      forall w, u, x ensures HoldersOf(requests[r := Loaded(w, u)], x) == HoldersOf(requests, x) {
      }
    } else if requests[r] == Leased(requests[r].worker, v) {
      assert HoldersOf(requests - {r}, v) == HoldersOf(requests, v) - {r};
    } else if requests[r] == Loaded(requests[r].worker, v) {
      assert HoldersOf(requests[r := Leased(requests[r].worker, v)], v) == HoldersOf(requests, v) + {r};
    }
  }

  lemma SeenPost(mailbox: seq<Event>, batch: seq<Event>, e: Event, kind: Kind, v: nat)
    ensures Seen(mailbox + [e], batch, kind, v) == Seen(mailbox, batch, kind, v) + One(e == Event(kind, v))
  {
  }

  lemma SeenHandle(mailbox: seq<Event>, batch: seq<Event>, kind: Kind, v: nat)
    requires batch != []
    ensures Seen(mailbox, batch[1..], kind, v) == Seen(mailbox, batch, kind, v) - One(batch[0] == Event(kind, v))
  {
    assert batch == [batch[0]] + batch[1..];
  }

  lemma SeenBound(s: Plane, e: Event)
    requires e in s.mailbox || e in s.batch
    ensures Seen(s.mailbox, s.batch, e.kind, e.version) > 0
  {
  }

  lemma TaskGone(tasks: set<(nat, nat)>, w: nat, v: nat)
    requires (w, v) in tasks
    ensures TasksOf(tasks - {(w, v)}, v) == TasksOf(tasks, v) - {w}
    ensures |TasksOf(tasks - {(w, v)}, v)| == |TasksOf(tasks, v)| - 1
  {
    forall x ensures x in TasksOf(tasks - {(w, v)}, v) <==> x in TasksOf(tasks, v) - {w} {
      assert x in TasksOf(tasks, v) <==> (x, v) in tasks;
      assert x in TasksOf(tasks - {(w, v)}, v) <==> (x, v) in tasks - {(w, v)};
    }
    assert w in TasksOf(tasks, v);
  }

  lemma TasksElsewhere(tasks: set<(nat, nat)>, other: set<(nat, nat)>, v: nat)
    requires forall t :: t in other ==> t.1 != v
    ensures TasksOf(tasks - other, v) == TasksOf(tasks, v) == TasksOf(tasks + other, v)
  {
    forall x ensures x in TasksOf(tasks - other, v) <==> x in TasksOf(tasks, v) {
      assert x in TasksOf(tasks, v) <==> (x, v) in tasks;
      assert x in TasksOf(tasks - other, v) <==> (x, v) in tasks - other;
    }
    forall x ensures x in TasksOf(tasks + other, v) <==> x in TasksOf(tasks, v) {
      assert x in TasksOf(tasks, v) <==> (x, v) in tasks;
      assert x in TasksOf(tasks + other, v) <==> (x, v) in tasks + other;
    }
  }

  /** The workers by number. */
  function Everyone(workers: nat): (all: set<nat>)
    ensures |all| == workers && forall w: nat :: w in all <==> w < workers
  {
    if workers == 0 then {} else Everyone(workers - 1) + {workers - 1}
  }

  lemma {:induction false} EachWorker(workers: nat, v: nat)
    ensures forall w: nat :: w < workers ==> (w, v) in AllWorkers(workers, v)
    ensures forall t :: t in AllWorkers(workers, v) ==> t.0 < workers && t.1 == v
  {
    if workers > 0 { EachWorker(workers - 1, v); }
  }

  lemma TasksForAll(tasks: set<(nat, nat)>, workers: nat, v: nat)
    requires TasksOf(tasks, v) == {}
    ensures TasksOf(tasks + AllWorkers(workers, v), v) == Everyone(workers)
    ensures forall t :: t in AllWorkers(workers, v) ==> t.0 < workers && t.1 == v
  {
    EachWorker(workers, v);
    var all := tasks + AllWorkers(workers, v);
    forall w: nat ensures w in TasksOf(all, v) <==> w in Everyone(workers) {
      assert w in TasksOf(tasks, v) <==> (w, v) in tasks;
      assert w in TasksOf(all, v) <==> (w, v) in all;
    }
  }

  lemma KeptAfterTask(balances: set<(nat, nat)>, tasks: set<(nat, nat)>, w: nat, v: nat)
    requires (w, v) in tasks
    ensures TasksOf(balances - {(w, v)}, v) - TasksOf(tasks - {(w, v)}, v) == TasksOf(balances, v) - TasksOf(tasks, v)
  {
    TaskGone(tasks, w, v);
    assert w in TasksOf(tasks, v);
    if (w, v) in balances {
      TaskGone(balances, w, v);
    } else {
      assert balances - {(w, v)} == balances;
      assert w in TasksOf(balances, v) <==> (w, v) in balances;
    }
  }

  // ---------------------------------------------------------------- what each step does to one version

  function AfterAcquire(p: Progress): Progress {
    if p.g.state.Active? then p.(g := p.g.(leases := p.g.leases + 1), holders := p.holders + 1) else p
  }

  function AfterRelease(p: Progress): Progress
    requires p.g.leases > 0 && p.holders > 0
  {
    var (g, notify) := Released(p.g);
    p.(g := g, holders := p.holders - 1, notices := p.notices + One(notify), notice := p.notice + One(notify))
  }

  function AfterRetire(p: Progress): Progress
    requires p.g.state.Active?
  {
    var (g, notify) := RetirementBegun(p.g).value;
    p.(g := g, live := false, back := Some(0), notices := p.notices + One(notify), notice := p.notice + One(notify))
  }

  /** The last worker's return starts the reaper. */
  function AfterReturned(p: Progress, workers: nat): Progress
    requires p.back.Some? && p.returned > 0
  {
    var q := p.(back := Some(p.back.value + 1), returned := p.returned - 1);
    if q.back.value != workers then q
    else
      var (g, started) := CheckersThenReaping(p.g);
      q.(g := g, reap := p.reap + One(started), reaps := p.reaps + One(started))
  }

  lemma AfterReturnedSound(p: Progress, workers: nat)
    requires Sound(p, workers) && !p.live && Returning(p, workers) && p.returned > 0
    ensures Sound(AfterReturned(p, workers), workers)
  {
  }

  lemma AcquireMoves(s: Plane, r: nat, v: nat)
    requires Enabled(s, AcquireLease(r)) && v < |s.generations|
    ensures |ApplyAcquire(s, r).generations| == |s.generations|
    ensures Of(ApplyAcquire(s, r), v) == if v == s.requests[r].version then AfterAcquire(Of(s, v)) else Of(s, v)
  {
    if s.generations[s.requests[r].version].state.Active? { AcquireGrants(s, r, v); } else { AcquireRefuses(s, r, v); }
  }

  lemma AcquireRefuses(s: Plane, r: nat, v: nat)
    requires Enabled(s, AcquireLease(r)) && v < |s.generations| && !s.generations[s.requests[r].version].state.Active?
    ensures ApplyAcquire(s, r) == s.(requests := s.requests - {r}) && Of(ApplyAcquire(s, r), v) == Of(s, v)
  {
    assert HoldersOf(s.requests - {r}, v) == HoldersOf(s.requests, v);
  }

  lemma AcquireGrants(s: Plane, r: nat, v: nat)
    requires Enabled(s, AcquireLease(r)) && v < |s.generations| && s.generations[s.requests[r].version].state.Active?
    ensures |ApplyAcquire(s, r).generations| == |s.generations|
    ensures Of(ApplyAcquire(s, r), v) == if v == s.requests[r].version then AfterAcquire(Of(s, v)) else Of(s, v)
  {
    var u := s.requests[r].version;
    if v == u {
      HoldersChange(s.requests, r, u);
    } else {
      assert HoldersOf(s.requests[r := Leased(s.requests[r].worker, u)], v) == HoldersOf(s.requests, v);
    }
  }

  lemma ReleaseMoves(s: Plane, r: nat, v: nat)
    requires Enabled(s, ReleaseLease(r)) && v < |s.generations|
    requires s.generations[s.requests[r].version].leases > 0
    requires !s.generations[s.requests[r].version].notified ==> s.requests[r].version !in s.notifying
    ensures v == s.requests[r].version ==> Of(s, v).holders > 0 && Of(ApplyRelease(s, r), v) == AfterRelease(Of(s, v))
    ensures v != s.requests[r].version ==> Of(ApplyRelease(s, r), v) == Of(s, v)
  {
    if v == s.requests[r].version { ReleaseHere(s, r, v); } else { ReleaseElsewhere(s, r, v); }
  }

  lemma ReleaseHere(s: Plane, r: nat, v: nat)
    requires Enabled(s, ReleaseLease(r)) && v == s.requests[r].version && s.generations[v].leases > 0
    requires !s.generations[v].notified ==> v !in s.notifying
    ensures Of(s, v).holders > 0 && Of(ApplyRelease(s, r), v) == AfterRelease(Of(s, v))
  {
    assert r in HoldersOf(s.requests, v);
    HoldersChange(s.requests, r, v);
  }

  lemma ReleaseElsewhere(s: Plane, r: nat, v: nat)
    requires Enabled(s, ReleaseLease(r)) && v != s.requests[r].version && v < |s.generations|
    requires s.generations[s.requests[r].version].leases > 0
    ensures Of(ApplyRelease(s, r), v) == Of(s, v)
  {
    assert HoldersOf(s.requests - {r}, v) == HoldersOf(s.requests, v);
    assert ApplyRelease(s, r).requests == s.requests - {r};
  }

  lemma RetireMoves(s: Plane, v: nat)
    requires Enabled(s, Retire) && v < |s.generations|
    requires s.replaced.value !in s.retiring && s.replaced.value !in s.notifying
    requires s.replaced.value < |s.generations| - 1 && s.generations[s.replaced.value].state.Active?
    ensures Of(ApplyRetire(s), v) == if v == s.replaced.value then AfterRetire(Of(s, v)) else Of(s, v)
  {
  }

  lemma PostMoves(mailbox: seq<Event>, batch: seq<Event>, e: Event, v: nat)
    ensures forall kind :: Seen(mailbox + [e], batch, kind, v) == Seen(mailbox, batch, kind, v) + One(e == Event(kind, v))
  {
    forall kind
      ensures Seen(mailbox + [e], batch, kind, v) == Seen(mailbox, batch, kind, v) + One(e == Event(kind, v))
    {
      SeenPost(mailbox, batch, e, kind, v);
    }
  }

  lemma PostNoticeMoves(s: Plane, u: nat, v: nat)
    requires Enabled(s, PostNotice(u)) && |s.mailbox| < s.capacity && v < |s.generations|
    ensures Of(ApplyPostNotice(s, u), v) == Of(s, v)
  {
    PostMoves(s.mailbox, s.batch, Event(LastRequestLeaseReleased, u), v);
  }

  lemma FinishReapMoves(s: Plane, u: nat, v: nat)
    requires Enabled(s, FinishReap(u)) && |s.mailbox| < s.capacity && v < |s.generations|
    ensures Of(ApplyFinishReap(s, u), v) == Of(s, v)
  {
    PostMoves(s.mailbox, s.batch, Event(ReaperFinished, u), v);
  }

  lemma RunTaskMoves(s: Plane, w: nat, u: nat, v: nat)
    requires (w, u) in s.tasks && |s.mailbox| < s.capacity && v < |s.generations|
    ensures v == u ==> Of(s, v).tasks > 0
    ensures Of(ApplyRunTask(s, w, u), v)
            == if v == u then Of(s, v).(tasks := Of(s, v).tasks - 1, returned := Of(s, v).returned + 1) else Of(s, v)
  {
    if v == u { RunTaskHere(s, w, u); } else { RunTaskElsewhere(s, w, u, v); }
  }

  lemma RunTaskHere(s: Plane, w: nat, v: nat)
    requires (w, v) in s.tasks && |s.mailbox| < s.capacity && v < |s.generations|
    ensures Of(s, v).tasks > 0
    ensures Of(ApplyRunTask(s, w, v), v) == Of(s, v).(tasks := Of(s, v).tasks - 1, returned := Of(s, v).returned + 1)
  {
    PostMoves(s.mailbox, s.batch, Event(WorkerBalancesReturned, v), v);
    assert w in TasksOf(s.tasks, v);
    TaskGone(s.tasks, w, v);
    KeptAfterTask(s.balances, s.tasks, w, v);
  }

  lemma RunTaskElsewhere(s: Plane, w: nat, u: nat, v: nat)
    requires u != v && |s.mailbox| < s.capacity && v < |s.generations|
    ensures Of(ApplyRunTask(s, w, u), v) == Of(s, v)
  {
    PostMoves(s.mailbox, s.batch, Event(WorkerBalancesReturned, u), v);
    TasksElsewhere(s.tasks, {(w, u)}, v);
    TasksElsewhere(s.balances, {(w, u)}, v);
  }

  lemma NoticeMoves(s: Plane, u: nat, v: nat)
    requires u < |s.generations| && v < |s.generations| && u != v
    ensures Of(OnNotice(s, u), v) == Of(s, v)
  {
    TasksForAll({}, s.workers, u);
    TasksElsewhere(s.tasks, AllWorkers(s.workers, u), v);
  }

  lemma ReturnedMoves(s: Plane, u: nat, v: nat)
    requires u in s.retiring && u < |s.generations| && v < |s.generations| && u != v
    ensures |OnReturned(s, u).generations| == |s.generations|
    ensures Of(OnReturned(s, u), v) == Of(s, v)
  {
  }

  /** Handling an event moves no other version. */
  lemma HandleMoves(s: Plane, v: nat)
    requires Enabled(s, Handle) && v < |s.generations| && s.batch[0].version < |s.generations|
    requires v != s.batch[0].version
    ensures |ApplyHandle(s).generations| == |s.generations|
    ensures Of(ApplyHandle(s), v) == Of(s, v)
  {
    HandleSeen(s.mailbox, s.batch, v);
    var h, kind, u := s.(batch := s.batch[1..]), s.batch[0].kind, s.batch[0].version;
    assert Of(h, v) == Of(s, v);
    if u in s.retiring {
      match kind
      case LastRequestLeaseReleased => NoticeMoves(h, u, v);
      case WorkerBalancesReturned => ReturnedMoves(h, u, v);
      case ReaperFinished => assert Of(OnFinished(h, u), v) == Of(h, v);
    }
  }

  lemma HandleSeen(mailbox: seq<Event>, batch: seq<Event>, v: nat)
    requires batch != []
    ensures forall kind :: Seen(mailbox, batch[1..], kind, v)
                           == Seen(mailbox, batch, kind, v) - One(batch[0] == Event(kind, v))
  {
    forall kind
      ensures Seen(mailbox, batch[1..], kind, v) == Seen(mailbox, batch, kind, v) - One(batch[0] == Event(kind, v))
    {
      SeenHandle(mailbox, batch, kind, v);
    }
  }

  /** A handled event belongs to a version in the stage that expects it. */
  lemma EventStage(s: Plane, p: Progress)
    requires s.batch != [] && s.batch[0].version < |s.generations|
    requires p == Of(s, s.batch[0].version) && Sound(p, s.workers)
    ensures s.batch[0].version in s.retiring && !p.live
    ensures s.batch[0].kind == LastRequestLeaseReleased ==> Noticed(p)
    ensures s.batch[0].kind == WorkerBalancesReturned ==> Returning(p, s.workers) && p.returned > 0
    ensures s.batch[0].kind == ReaperFinished ==> BeingReaped(p, s.workers)
  {
    assert s.batch[0] in s.batch;
    SeenBound(s, s.batch[0]);
    match s.batch[0].kind {
      case LastRequestLeaseReleased => assert p.notice > 0;
      case WorkerBalancesReturned => assert p.returned > 0;
      case ReaperFinished => assert p.reap > 0;
    }
  }

  /** The last-lease event queues a return task on every worker. */
  lemma HandleNotice(s: Plane, v: nat)
    requires Enabled(s, Handle) && s.batch[0] == Event(LastRequestLeaseReleased, v) && v < |s.generations|
    requires Sound(Of(s, v), s.workers) && s.workers > 0
    requires forall b :: b in s.balances ==> b.0 < s.workers
    ensures Sound(Of(ApplyHandle(s), v), s.workers)
  {
    var s', p := ApplyHandle(s), Of(s, v);
    EventStage(s, p);
    HandleSeen(s.mailbox, s.batch, v);
    TasksForAll(s.tasks, s.workers, v);
    assert Of(s', v).kept == {};
    assert Of(s', v) == p.(notice := 0, tasks := s.workers, kept := {});
  }

  /** A worker's return is counted, and the last one starts the reaper. */
  lemma ReturnedIs(s: Plane, v: nat)
    requires Enabled(s, Handle) && s.batch[0] == Event(WorkerBalancesReturned, v) && v < |s.generations|
    requires Sound(Of(s, v), s.workers)
    ensures var p := Of(s, v); !p.live && Returning(p, s.workers) && p.returned > 0
    ensures v < |ApplyHandle(s).generations| && Of(ApplyHandle(s), v) == AfterReturned(Of(s, v), s.workers)
  {
    EventStage(s, Of(s, v));
    var h := s.(batch := s.batch[1..]);
    TakenOut(s, h, v);
    CountedIs(h, v, Of(s, v));
  }

  /** The event leaves the batch. */
  lemma TakenOut(s: Plane, h: Plane, v: nat)
    requires s.batch != [] && s.batch[0] == Event(WorkerBalancesReturned, v) && v < |s.generations|
    requires h == s.(batch := s.batch[1..]) && Of(s, v).returned > 0
    ensures Of(h, v) == Of(s, v).(returned := Of(s, v).returned - 1)
  {
    HandleSeen(s.mailbox, s.batch, v);
  }

  lemma CountedIs(s: Plane, v: nat, p: Progress)
    requires v < |s.generations| && v in s.retiring && v !in s.reaping && p.returned > 0 && p.back.Some?
    requires Of(s, v) == p.(returned := p.returned - 1)
    ensures v < |OnReturned(s, v).generations| && Of(OnReturned(s, v), v) == AfterReturned(p, s.workers)
  {
  }

  lemma HandleReturned(s: Plane, v: nat)
    requires Enabled(s, Handle) && s.batch[0] == Event(WorkerBalancesReturned, v) && v < |s.generations|
    requires Sound(Of(s, v), s.workers)
    ensures Sound(Of(ApplyHandle(s), v), s.workers)
  {
    ReturnedIs(s, v);
    AfterReturnedSound(Of(s, v), s.workers);
  }

  lemma HandleFinished(s: Plane, v: nat)
    requires Enabled(s, Handle) && s.batch[0] == Event(ReaperFinished, v) && v < |s.generations|
    requires Sound(Of(s, v), s.workers)
    ensures Sound(Of(ApplyHandle(s), v), s.workers)
  {
    var p := Of(s, v);
    EventStage(s, p);
    HandleSeen(s.mailbox, s.batch, v);
    assert Of(ApplyHandle(s), v) == p.(g := Retired(p.g), back := None, reap := 0);
  }

  // ---------------------------------------------------------------- every step keeps the invariant

  lemma KeepsLoad(s: Plane, r: nat, worker: nat)
    requires Inv(s) && Enabled(s, LoadGeneration(r, worker))
    ensures Inv(ApplyLoad(s, r, worker))
  {
    var s' := ApplyLoad(s, r, worker);
    HoldersChange(s.requests, r, 0);
    forall v | 0 <= v < |s'.generations| ensures Sound(Of(s', v), s'.workers) {
      assert Of(s', v) == Of(s, v);
    }
  }

  lemma AcquireBounds(s: Plane, r: nat)
    requires Bounded(s) && Enabled(s, AcquireLease(r))
    ensures Bounded(ApplyAcquire(s, r))
  {
  }

  lemma KeepsAcquire(s: Plane, r: nat)
    requires Inv(s) && Enabled(s, AcquireLease(r))
    ensures Inv(ApplyAcquire(s, r))
  {
    var s' := ApplyAcquire(s, r);
    AcquireBounds(s, r);
    forall v | 0 <= v < |s'.generations| ensures Sound(Of(s', v), s'.workers) {
      assert Sound(Of(s, v), s.workers);
      AcquireSound(s, r, v);
    }
  }

  lemma AcquireSound(s: Plane, r: nat, v: nat)
    requires Enabled(s, AcquireLease(r)) && v < |s.generations| && Sound(Of(s, v), s.workers)
    ensures v < |ApplyAcquire(s, r).generations| && Sound(Of(ApplyAcquire(s, r), v), s.workers)
  {
    AcquireMoves(s, r, v);
  }

  lemma KeepsAdmit(s: Plane, r: nat)
    requires Inv(s) && Enabled(s, Admit(r))
    ensures Inv(ApplyAdmit(s, r))
  {
    var s' := ApplyAdmit(s, r);
    forall v | 0 <= v < |s'.generations| ensures Sound(Of(s', v), s'.workers) {
      assert Sound(Of(s, v), s.workers);
      AdmitSound(s, r, v);
    }
    assert Bounded(s');
  }

  lemma AdmitSound(s: Plane, r: nat, v: nat)
    requires Enabled(s, Admit(r)) && v < |s.generations| && Sound(Of(s, v), s.workers)
    ensures Sound(Of(ApplyAdmit(s, r), v), s.workers)
  {
    AdmitMoves(s, r, v);
    if v == s.requests[r].version {
      assert r in HoldersOf(s.requests, v);
      KeptMayGrow(Of(s, v), Of(ApplyAdmit(s, r), v).kept, s.workers);
    }
  }

  lemma AdmitMoves(s: Plane, r: nat, v: nat)
    requires Enabled(s, Admit(r)) && v < |s.generations|
    ensures Of(ApplyAdmit(s, r), v) == Of(s, v).(kept := Of(ApplyAdmit(s, r), v).kept)
    ensures v != s.requests[r].version ==> Of(ApplyAdmit(s, r), v).kept == Of(s, v).kept
  {
    if v != s.requests[r].version {
      TasksElsewhere(s.balances, {(s.requests[r].worker, s.requests[r].version)}, v);
    }
  }

  /** While a lease is held any worker may keep a balance. */
  lemma KeptMayGrow(p: Progress, kept: set<nat>, workers: nat)
    requires Sound(p, workers) && p.holders > 0
    ensures Sound(p.(kept := kept), workers)
  {
  }

  lemma ReleaseBounds(s: Plane, r: nat)
    requires Bounded(s) && Enabled(s, ReleaseLease(r))
    ensures Bounded(ApplyRelease(s, r))
  {
  }

  lemma ReleaseReady(s: Plane, r: nat)
    requires Inv(s) && Enabled(s, ReleaseLease(r))
    ensures s.generations[s.requests[r].version].leases > 0
    ensures !s.generations[s.requests[r].version].notified ==> s.requests[r].version !in s.notifying
  {
    assert r in HoldersOf(s.requests, s.requests[r].version);
    assert Sound(Of(s, s.requests[r].version), s.workers);
  }

  lemma AfterReleaseSound(p: Progress, workers: nat)
    requires Sound(p, workers) && p.g.leases > 0
    ensures Sound(AfterRelease(p), workers)
  {
  }

  lemma KeepsRelease(s: Plane, r: nat)
    requires Inv(s) && Enabled(s, ReleaseLease(r))
    ensures Inv(ApplyRelease(s, r))
  {
    ReleaseReady(s, r);
    ReleaseBounds(s, r);
    var s' := ApplyRelease(s, r);
    forall v | 0 <= v < |s'.generations| ensures Sound(Of(s', v), s'.workers) {
      assert Sound(Of(s, v), s.workers);
      ReleaseMoves(s, r, v);
      if v == s.requests[r].version { AfterReleaseSound(Of(s, v), s.workers); }
    }
  }

  lemma NothingOf(s: Plane, n: nat)
    requires Bounded(s) && n >= |s.generations|
    ensures HoldersOf(s.requests, n) == {} && TasksOf(s.tasks, n) == {}
    ensures forall kind :: Seen(s.mailbox, s.batch, kind, n) == 0
  {
    forall kind ensures Seen(s.mailbox, s.batch, kind, n) == 0 {
      assert Event(kind, n) !in s.mailbox && Event(kind, n) !in s.batch;
    }
  }

  lemma FreshSound(s: Plane)
    requires Bounded(s) && Enabled(s, Publish) && |s.retiring| < MAX_RETIRING
    ensures Sound(Of(ApplyPublish(s), |s.generations|), s.workers)
  {
    NothingOf(s, |s.generations|);
  }

  lemma PublishMoves(s: Plane, v: nat)
    requires Enabled(s, Publish) && v < |s.generations|
    ensures v < |ApplyPublish(s).generations|
    ensures Of(ApplyPublish(s), v) == Of(s, v)
  {
  }

  lemma PublishBounds(s: Plane)
    requires Bounded(s) && Enabled(s, Publish)
    ensures Bounded(ApplyPublish(s))
  {
  }

  lemma KeepsPublish(s: Plane)
    requires Inv(s) && Enabled(s, Publish)
    ensures Inv(ApplyPublish(s))
  {
    var s' := ApplyPublish(s);
    if |s.retiring| < MAX_RETIRING {
      PublishBounds(s);
      forall v | 0 <= v < |s'.generations| ensures Sound(Of(s', v), s'.workers) {
        if v < |s.generations| {
          assert Sound(Of(s, v), s.workers);
          PublishMoves(s, v);
        } else {
          FreshSound(s);
        }
      }
    }
  }

  lemma KeepsRetire(s: Plane)
    requires Inv(s) && Enabled(s, Retire)
    ensures Inv(ApplyRetire(s))
  {
    var s', u := ApplyRetire(s), s.replaced.value;
    assert Sound(Of(s, u), s.workers) && Of(s, u).live;
    assert |s'.retiring| == |s.retiring| + 1;
    forall v | 0 <= v < |s'.generations| ensures Sound(Of(s', v), s'.workers) {
      assert Sound(Of(s, v), s.workers);
      RetireSound(s, v);
    }
  }

  lemma RetireSound(s: Plane, v: nat)
    requires Enabled(s, Retire) && v < |s.generations| && Sound(Of(s, v), s.workers)
    requires s.replaced.value !in s.retiring && s.replaced.value !in s.notifying
    requires s.replaced.value < |s.generations| - 1 && s.generations[s.replaced.value].state.Active?
    ensures v < |ApplyRetire(s).generations| && Sound(Of(ApplyRetire(s), v), s.workers)
  {
    RetireMoves(s, v);
  }

  lemma KeepsDrain(s: Plane)
    requires Inv(s) && Enabled(s, Drain)
    ensures Inv(ApplyDrain(s))
  {
    var s' := ApplyDrain(s);
    forall v | 0 <= v < |s'.generations| ensures Sound(Of(s', v), s'.workers) {
      assert Of(s', v) == Of(s, v);
    }
  }

  lemma KeepsPostNotice(s: Plane, u: nat)
    requires Inv(s) && Enabled(s, PostNotice(u)) && |s.mailbox| < s.capacity
    ensures Inv(ApplyPostNotice(s, u))
  {
    forall v | 0 <= v < |s.generations| { PostNoticeMoves(s, u, v); }
  }

  lemma KeepsFinishReap(s: Plane, u: nat)
    requires Inv(s) && Enabled(s, FinishReap(u)) && |s.mailbox| < s.capacity
    ensures Inv(ApplyFinishReap(s, u))
  {
    forall v | 0 <= v < |s.generations| { FinishReapMoves(s, u, v); }
  }

  lemma KeepsRunTask(s: Plane, w: nat, u: nat)
    requires Inv(s) && Enabled(s, RunTask(w, u)) && |s.mailbox| < s.capacity
    ensures Inv(ApplyRunTask(s, w, u))
  {
    var s' := ApplyRunTask(s, w, u);
    forall v | 0 <= v < |s'.generations| ensures Sound(Of(s', v), s'.workers) {
      assert Sound(Of(s, v), s.workers);
      RunTaskSound(s, w, u, v);
    }
  }

  lemma RunTaskSound(s: Plane, w: nat, u: nat, v: nat)
    requires (w, u) in s.tasks && |s.mailbox| < s.capacity && v < |s.generations| && Sound(Of(s, v), s.workers)
    ensures Sound(Of(ApplyRunTask(s, w, u), v), s.workers)
  {
    RunTaskMoves(s, w, u, v);
  }

  /** Steps on the queues alone move no version. */
  lemma QueuesMove(s: Plane, s': Plane, v: nat)
    requires s' == s.(queues := s'.queues) && v < |s.generations|
    ensures Of(s', v) == Of(s, v)
  {
  }

  lemma KeepsQueues(s: Plane, s': Plane)
    requires Inv(s) && s' == s.(queues := s'.queues) && QueuesOk(s'.queues, s.tasks, s.workers)
    ensures Inv(s')
  {
    forall v | 0 <= v < |s'.generations| ensures Sound(Of(s', v), s'.workers) {
      assert Sound(Of(s, v), s.workers);
      QueuesMove(s, s', v);
    }
  }

  lemma WaitingChange(waiting: map<nat, nat>, worker: nat, n: nat, backlog: nat)
    requires n <= backlog && WaitingOk(waiting, backlog)
    ensures WaitingOk(waiting[worker := n], backlog)
  {
    var after := waiting[worker := n];
    forall w: nat ensures Times(after, w) <= backlog {
      assert Times(waiting, w) <= backlog;
    }
  }

  lemma KeepsPostTask(s: Plane)
    requires Inv(s) && Enabled(s, PostTask) && Load(s, s.queues.posting.value.1) < s.queues.limit
    ensures Inv(ApplyPostTask(s))
  {
    KeepsQueues(s, ApplyPostTask(s));
  }

  lemma KeepsHandOver(s: Plane, worker: nat)
    requires Inv(s) && Enabled(s, HandOver(worker))
    ensures Inv(ApplyHandOver(s, worker))
  {
    WaitingChange(s.queues.waiting, worker, Times(s.queues.waiting, worker) + 1, s.queues.backlog);
    KeepsQueues(s, ApplyHandOver(s, worker));
  }

  lemma KeepsTakeOver(s: Plane, worker: nat)
    requires Inv(s) && Enabled(s, TakeOver(worker))
    ensures Inv(ApplyTakeOver(s, worker))
  {
    WaitingChange(s.queues.waiting, worker, s.queues.waiting[worker] - 1, s.queues.backlog);
    KeepsQueues(s, ApplyTakeOver(s, worker));
  }

  lemma HandleBounds(s: Plane)
    requires Bounded(s) && Enabled(s, Handle) && s.batch[0].version < |s.generations|
    ensures Bounded(ApplyHandle(s))
  {
    var h, v := s.(batch := s.batch[1..]), s.batch[0].version;
    assert EventsBelow(h.batch, |s.generations|);
    if v in s.retiring {
      match s.batch[0].kind
      case LastRequestLeaseReleased => NoticeBounds(h, v);
      case WorkerBalancesReturned => ReturnedBounds(h, v);
      case ReaperFinished => FinishedBounds(h, v);
    }
  }

  lemma NoticeBounds(s: Plane, v: nat)
    requires Bounded(s) && v < |s.generations|
    ensures Bounded(OnNotice(s, v))
  {
    TasksForAll({}, s.workers, v);
    assert PairsBelow(s.tasks + AllWorkers(s.workers, v), s.workers, |s.generations|);
  }

  lemma FinishedBounds(s: Plane, v: nat)
    requires Bounded(s) && v in s.retiring && v < |s.generations|
    ensures Bounded(OnFinished(s, v))
  {
    assert |s.retiring - {v}| == |s.retiring| - 1;
  }

  lemma ReturnedBounds(s: Plane, v: nat)
    requires Bounded(s) && v in s.retiring && v < |s.generations|
    ensures Bounded(OnReturned(s, v))
  {
    assert s.retiring[v := s.retiring[v] + 1].Keys == s.retiring.Keys;
  }

  lemma HandleShape(s: Plane)
    requires Enabled(s, Handle)
    ensures var s' := ApplyHandle(s);
            |s'.generations| == |s.generations| && s'.workers == s.workers && s'.terminated == s.terminated
  {
  }

  lemma HandleSound(s: Plane, v: nat)
    requires Enabled(s, Handle) && s.batch[0].version < |s.generations| && v < |s.generations|
    requires Sound(Of(s, v), s.workers) && s.workers > 0 && PairsBelow(s.balances, s.workers, |s.generations|)
    ensures v < |ApplyHandle(s).generations|
    ensures Sound(Of(ApplyHandle(s), v), s.workers)
  {
    HandleShape(s);
    if v != s.batch[0].version {
      HandleMoves(s, v);
    } else {
      match s.batch[0].kind
      case LastRequestLeaseReleased => HandleNotice(s, v);
      case WorkerBalancesReturned => HandleReturned(s, v);
      case ReaperFinished => HandleFinished(s, v);
    }
  }

  /** Handling starts handing out tasks, or leaves queues and tasks alone. */
  lemma HandleQueues(s: Plane)
    requires Enabled(s, Handle) && QueuesOk(s.queues, s.tasks, s.workers) && s.workers > 0
    ensures QueuesOk(ApplyHandle(s).queues, ApplyHandle(s).tasks, s.workers)
  {
    var v := s.batch[0].version;
    EachWorker(s.workers, v);
    if ApplyHandle(s).queues != s.queues {
      assert ApplyHandle(s).queues == s.queues.(posting := Some((v, 0)));
    }
  }

  lemma KeepsHandle(s: Plane)
    requires Inv(s) && Enabled(s, Handle)
    ensures Inv(ApplyHandle(s))
  {
    HandleQueues(s);
    assert s.batch[0].version < |s.generations|;
    HandleBounds(s);
    HandleShape(s);
    var s' := ApplyHandle(s);
    forall v | 0 <= v < |s'.generations| ensures Sound(Of(s', v), s'.workers) {
      assert Sound(Of(s, v), s.workers);
      HandleSound(s, v);
    }
  }
}
