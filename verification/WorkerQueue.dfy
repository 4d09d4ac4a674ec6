/** A worker's task queue: posters and the stopper on other threads, the worker's event loop on its
    own.  Every critical section of the queue mutex is one step; running a task is a step of its own,
    during which others may post.  The wake descriptor is a flag that a read clears. */
module WorkerQueue {
  import opened Attempts

  /** Where the worker thread is. */
  datatype Place =
    | Idle                          // waiting for the wake descriptor
    | Draining                      // about to take the next task
    | RunningTask(task: nat)
    | QueueDrained                  // saw the queue empty, about to take the shutdown task
    | RunningShutdown(task: nat)
    | Deciding                      // about to decide whether to quit
    | Quitting                      // the loop was told to quit
    | Exited

  /** `accepted`, `ran`, `acceptedShutdowns` and `ranShutdowns` are history. */
  datatype Worker = Worker(
    capacity: nat,
    running: bool,
    stopping: bool,
    tasks: seq<nat>,
    shutdown: Option<nat>,
    wake: bool,
    place: Place,
    accepted: seq<nat>,
    ran: seq<nat>,
    acceptedShutdowns: seq<nat>,
    ranShutdowns: seq<nat>)

  /** `wakes`: the write to the wake descriptor succeeds. */
  datatype Step =
    | Post(task: nat, wakes: bool)
    | PostShutdown(task: nat, wakes: bool)
    | Stop
    | Wake
    | Advance                       // the worker's next critical section or the end of a task

  function Init(capacity: nat): Worker {
    Worker(capacity, true, false, [], None, false, Idle, [], [], [], [])
  }

  predicate Accepts(s: Worker) { s.running && !s.stopping && |s.tasks| < s.capacity }

  /** A task whose wake could not be written is taken back. */
  function ApplyPost(s: Worker, task: nat, wakes: bool): Worker {
    if !Accepts(s) || !wakes then s
    else s.(tasks := s.tasks + [task], wake := true, accepted := s.accepted + [task])
  }

  function ApplyPostShutdown(s: Worker, task: nat, wakes: bool): Worker {
    if !s.running || s.stopping || s.shutdown.Some? || !wakes then s
    else s.(shutdown := Some(task), wake := true, acceptedShutdowns := s.acceptedShutdowns + [task])
  }

  function ApplyStop(s: Worker): Worker { s.(stopping := true, wake := s.wake || s.place != Exited) }

  function ApplyAdvance(s: Worker): Worker {
    match s.place
    case Idle => s
    case Draining =>
      if s.tasks == [] then s.(place := QueueDrained)
      else s.(tasks := s.tasks[1..], place := RunningTask(s.tasks[0]))
    case RunningTask(task) => s.(ran := s.ran + [task], place := Draining)
    case QueueDrained =>
      if s.shutdown.None? then s.(place := Deciding)
      else s.(shutdown := None, place := RunningShutdown(s.shutdown.value))
    case RunningShutdown(task) => s.(ranShutdowns := s.ranShutdowns + [task], place := Deciding)
    case Deciding =>
      if s.stopping && s.tasks == [] && s.shutdown.None? then s.(place := Quitting) else s.(place := Idle)
    case Quitting => s.(running := false, place := Exited)
    case Exited => s
  }

  function Apply(s: Worker, step: Step): Worker {
    match step
    case Post(task, wakes) => ApplyPost(s, task, wakes)
    case PostShutdown(task, wakes) => ApplyPostShutdown(s, task, wakes)
    case Stop => ApplyStop(s)
    case Wake => if s.place == Idle && s.wake then s.(wake := false, place := Draining) else s
    case Advance => ApplyAdvance(s)
  }

  function Run(s: Worker, steps: seq<Step>): Worker
    decreases |steps|
  {
    if steps == [] then s else Run(Apply(s, steps[0]), steps[1..])
  }

  // ---------------------------------------------------------------- the invariant

  function InHand(place: Place): seq<nat> { if place.RunningTask? then [place.task] else [] }

  function ShutdownInHand(place: Place): seq<nat> { if place.RunningShutdown? then [place.task] else [] }

  function Waiting(shutdown: Option<nat>): seq<nat> { if shutdown.Some? then [shutdown.value] else [] }

  predicate Done(place: Place) { place == Quitting || place == Exited }

  ghost predicate Inv(s: Worker) {
    // every accepted task, and every shutdown task, is run, in hand or queued, once and in order
    && s.accepted == s.ran + InHand(s.place) + s.tasks
    && s.acceptedShutdowns == s.ranShutdowns + ShutdownInHand(s.place) + Waiting(s.shutdown)
    // work that the worker will not see on this pass has a wake pending
    && (s.tasks != [] ==> s.wake || s.place == Draining || s.place.RunningTask?)
    && (s.shutdown.Some? ==> s.wake || s.place == Draining || s.place.RunningTask? || s.place == QueueDrained)
    && (s.stopping && s.place == Idle ==> s.wake)
    && (Done(s.place) ==> s.stopping && s.tasks == [] && s.shutdown.None?)
    && (s.running <==> s.place != Exited)
  }

  lemma PostKeeps(s: Worker, task: nat, wakes: bool)
    requires Inv(s)
    ensures Inv(ApplyPost(s, task, wakes))
  {
    if Accepts(s) && wakes {
      var s' := ApplyPost(s, task, wakes);
      assert s'.ran + InHand(s'.place) + s'.tasks == s.ran + InHand(s.place) + s.tasks + [task];
    }
  }

  lemma TakeKeeps(s: Worker)
    requires Inv(s) && s.place == Draining && s.tasks != []
    ensures Inv(ApplyAdvance(s))
  {
    assert s.tasks == [s.tasks[0]] + s.tasks[1..];
    assert s.ran + [s.tasks[0]] + s.tasks[1..] == s.ran + ([s.tasks[0]] + s.tasks[1..]);
    assert s.ran + InHand(s.place) + s.tasks == s.ran + s.tasks;
  }

  lemma FinishKeeps(s: Worker)
    requires Inv(s) && s.place.RunningTask?
    ensures Inv(ApplyAdvance(s))
  {
    var s' := ApplyAdvance(s);
    assert s'.ran + InHand(s'.place) == s.ran + [s.place.task];
  }

  lemma AdvanceKeeps(s: Worker)
    requires Inv(s)
    ensures Inv(ApplyAdvance(s))
  {
    if s.place == Draining && s.tasks != [] {
      TakeKeeps(s);
    } else if s.place.RunningTask? {
      FinishKeeps(s);
    }
  }

  lemma StepKeeps(s: Worker, step: Step)
    requires Inv(s)
    ensures Inv(Apply(s, step))
  {
    match step
    case Post(task, wakes) => PostKeeps(s, task, wakes);
    case PostShutdown(task, wakes) =>
      assert s.acceptedShutdowns + [task] == s.ranShutdowns + ShutdownInHand(s.place) + Waiting(s.shutdown) + [task];
    case Stop =>
    case Wake =>
    case Advance => AdvanceKeeps(s);
  }

  lemma {:induction false} RunKeeps(s: Worker, steps: seq<Step>)
    requires Inv(s)
    ensures Inv(Run(s, steps))
    decreases |steps|
  {
    if steps != [] {
      StepKeeps(s, steps[0]);
      RunKeeps(Apply(s, steps[0]), steps[1..]);
    }
  }

  /** Every run: accepted tasks run once, in acceptance order, all of them before the loop quits; an
      accepted shutdown task runs before the loop quits; and queued work always has a pending wake or
      a drain in progress. */
  lemma EveryRun(capacity: nat, steps: seq<Step>)
    ensures var s := Run(Init(capacity), steps);
            && s.ran <= s.accepted
            && (Done(s.place) ==> s.ran == s.accepted && s.ranShutdowns == s.acceptedShutdowns)
            && (s.tasks != [] ==> s.wake || s.place == Draining || s.place.RunningTask?)
  {
    RunKeeps(Init(capacity), steps);
    var s := Run(Init(capacity), steps);
    assert s.ran + InHand(s.place) + s.tasks == s.ran + (InHand(s.place) + s.tasks);
  }

  // ---------------------------------------------------------------- stopping

  function Rank(p: Place): nat {
    match p
    case RunningTask(_) => 7
    case Draining => 6
    case QueueDrained => 5
    case RunningShutdown(_) => 4
    case Deciding => 3
    case Idle => 2
    case Quitting => 1
    case Exited => 0
  }

  /** Once stopped, the worker left alone runs everything it accepted and exits. */
  lemma {:induction false} StoppedExits(s: Worker) returns (steps: seq<Step>)
    requires Inv(s) && s.stopping
    ensures Run(s, steps).place == Exited && Run(s, steps).accepted == s.accepted
    ensures Run(s, steps).ran == s.accepted && Run(s, steps).ranShutdowns == s.acceptedShutdowns
    ensures forall i :: 0 <= i < |steps| ==> steps[i] == Wake || steps[i] == Advance
    decreases s.wake, |s.tasks|, Rank(s.place)
  {
    if s.place == Exited {
      steps := [];
      assert s.ran + InHand(s.place) + s.tasks == s.ran;
    } else {
      var step := if s.place == Idle then Wake else Advance;
      StepKeeps(s, step);
      var s' := Apply(s, step);
      var rest := StoppedExits(s');
      steps := [step] + rest;
      assert steps[1..] == rest;
    }
  }

  // ---------------------------------------------------------------- the object

  /** The queue as its methods change it, each under the mutex. */
  class WorkerRuntime {
    const capacity: nat
    var running: bool
    var stopping: bool
    var tasks: seq<nat>
    var shutdown: Option<nat>
    var wake: bool
    ghost var ran: seq<nat>

    constructor (capacity: nat)
      ensures this.capacity == capacity && running && !stopping && !wake
      ensures tasks == [] && shutdown == None && ran == []
    {
      this.capacity := capacity;
      running, stopping, wake := true, false, false;
      tasks, shutdown, ran := [], None, [];
    }

    method PostTask(task: nat, wakes: bool) returns (ok: bool)
      modifies this`tasks, this`wake
      ensures ok <==> running && !stopping && |old(tasks)| < capacity && wakes
      ensures tasks == if ok then old(tasks) + [task] else old(tasks)
      ensures wake == (ok || old(wake))
    {
      if stopping || !running { return false; }
      if |tasks| >= capacity { return false; }
      tasks := tasks + [task];
      if !wakes {
        tasks := tasks[..|tasks| - 1];
        return false;
      }
      wake := true;
      return true;
    }

    method PostShutdown(task: nat, wakes: bool) returns (ok: bool)
      modifies this`shutdown, this`wake
      ensures ok <==> running && !stopping && old(shutdown).None? && wakes
      ensures shutdown == if ok then Some(task) else old(shutdown)
      ensures wake == (ok || old(wake))
    {
      if !running || stopping || shutdown.Some? { return false; }
      shutdown := Some(task);
      if !wakes {
        shutdown := None;
        return false;
      }
      wake := true;
      return true;
    }

    /** Others post while a task runs; `admitted` are the posts that found the queue open and not full. */
    method PostAll(posts: seq<nat>) returns (ghost admitted: seq<nat>)
      modifies this`tasks, this`wake
      ensures tasks == old(tasks) + admitted && wake == (old(wake) || admitted != [])
      ensures running && !stopping && |old(tasks)| + |posts| <= capacity ==> admitted == posts
      ensures !running || stopping ==> admitted == []
    {
      admitted := [];
      for k := 0 to |posts|
        invariant tasks == old(tasks) + admitted && wake == (old(wake) || admitted != [])
        invariant |admitted| <= k && (running && !stopping && |old(tasks)| + |posts| <= capacity ==> admitted == posts[..k])
        invariant !running || stopping ==> admitted == []
      {
        var ok := PostTask(posts[k], true);
        if ok { admitted := admitted + [posts[k]]; }
      }
      assert posts[..|posts|] == posts;
    }

    /** Runs the queue in order until it is empty, with what is posted meanwhile: `arrivals[k]` while the
        k-th task runs. */
    method DrainQueue(arrivals: seq<seq<nat>>) returns (ghost admitted: seq<nat>)
      modifies this`tasks, this`ran, this`wake
      ensures tasks == [] && ran == old(ran) + old(tasks) + admitted
      ensures wake == (old(wake) || admitted != [])
    {
      var k := 0;
      admitted := [];
      while tasks != []
        invariant k <= |arrivals| && ran + tasks == old(ran) + old(tasks) + admitted
        invariant wake == (old(wake) || admitted != [])
        decreases |arrivals| - k, |tasks|
      {
        var task := tasks[0];
        ghost var rest := tasks[1..];
        assert ran + tasks == ran + [task] + rest;
        tasks := tasks[1..];
        if k < |arrivals| {
          ghost var more := PostAll(arrivals[k]);
          assert ran + [task] + (rest + more) == ran + [task] + rest + more;
          assert old(ran) + old(tasks) + admitted + more == old(ran) + old(tasks) + (admitted + more);
          admitted := admitted + more;
          k := k + 1;
        }
        ran := ran + [task];
      }
    }

    /** One wake, others posting all the while: `arrivals` while the queue drains, `between` before the
        shutdown task is taken, `late` until the decision to quit; a shutdown task may be posted `early`,
        before one is taken, and `again` after that.  The queue runs in order, then the shutdown task
        `taken`; what came after the drain waits behind a pending wake, and the loop quits exactly when
        stopping with nothing left. */
    method HandleWake(arrivals: seq<seq<nat>>, early: Option<nat>, between: seq<nat>, late: seq<nat>, again: Option<nat>)
      returns (quit: bool, ghost admitted: seq<nat>, ghost taken: Option<nat>, ghost later: seq<nat>)
      modifies this`tasks, this`shutdown, this`wake, this`ran
      ensures ran == old(ran) + old(tasks) + admitted + (if taken.Some? then [taken.value] else [])
      ensures taken == if old(shutdown).Some? then old(shutdown) else if running && !stopping then early else None
      ensures shutdown == if running && !stopping then again else None
      ensures tasks == later && (tasks != [] || shutdown.Some? ==> wake)
      ensures running && !stopping && |between| + |late| <= capacity ==> later == between + late
      ensures quit <==> stopping && tasks == [] && shutdown.None?
    {
      wake := false;
      admitted := DrainQueue(arrivals);
      if early.Some? { var ok := PostShutdown(early.value, true); }
      later := PostAll(between);
      taken := shutdown;
      var task := shutdown;
      shutdown := None;
      ghost var more := PostAll(late);
      if again.Some? { var ok := PostShutdown(again.value, true); }
      later := later + more;
      if task.Some? { ran := ran + [task.value]; }
      quit := stopping && tasks == [] && shutdown.None?;
    }
  }
}
