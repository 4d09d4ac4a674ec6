/** One configuration generation: request leases and the six stages of its retirement, and the
    bounded mailbox through which lifecycle events reach the control loop.  Every method of the
    program runs under one mutex, so each is a single step. */
module Generations {
  import opened Attempts

  datatype Retirement = Active | Retiring | CheckersStopped | WaitingForLeases | OutcomeDraining | Done

  function Rank(r: Retirement): nat {
    match r
    case Active => 0
    case Retiring => 1
    case CheckersStopped => 2
    case WaitingForLeases => 3
    case OutcomeDraining => 4
    case Done => 5
  }

  datatype Generation = Generation(state: Retirement, leases: nat, notified: bool, checkersStopped: bool)

  const FRESH := Generation(Active, 0, false, false)

  function Acquired(g: Generation): Option<Generation> {
    if !g.state.Active? then None else Some(g.(leases := g.leases + 1))
  }

  /** Retiring -> CheckersStopped -> WaitingForLeases, as far as both conditions allow. */
  function AdvanceIfReady(g: Generation): (r: Generation)
    ensures Rank(g.state) <= Rank(r.state)
  {
    var h := if g.state.Retiring? && g.checkersStopped then g.(state := CheckersStopped) else g;
    if h.state.CheckersStopped? && h.leases == 0 then h.(state := WaitingForLeases) else h
  }

  /** The second component says whether the last-lease callback is to be run. */
  function RetirementBegun(g: Generation): Option<(Generation, bool)> {
    if !g.state.Active? then None
    else
      var notify := g.leases == 0 && !g.notified;
      Some((g.(state := Retiring, notified := g.notified || notify), notify))
  }

  function CheckersNotified(g: Generation): Option<Generation> {
    if !g.state.Retiring? && !g.state.CheckersStopped? then None
    else Some(AdvanceIfReady(g.(checkersStopped := true)))
  }

  /** BeginReaping and BeginOutcomeStopping. */
  function ReapingBegun(g: Generation): Option<Generation> {
    if g.state.WaitingForLeases? && g.leases == 0 then Some(g.(state := OutcomeDraining)) else None
  }

  function Retired(g: Generation): Generation {
    if g.state.OutcomeDraining? then g.(state := Done) else g
  }

  function Released(g: Generation): (Generation, bool)
    requires g.leases > 0
  {
    var h := g.(leases := g.leases - 1);
    if h.leases > 0 then (h, false)
    else
      var r := AdvanceIfReady(h);
      if r.state.Retiring? && !r.notified then (r.(notified := true), true) else (r, false)
  }

  /** What holds between any two calls: no notice before the last lease of a retired generation is
      gone, and no lease left once it waits for the reaper. */
  predicate Lawful(g: Generation) {
    match g.state
    case Active => !g.notified && !g.checkersStopped
    case Retiring => !g.checkersStopped && (g.notified <==> g.leases == 0)
    case CheckersStopped => g.checkersStopped && !g.notified && g.leases > 0
    case _ => g.checkersStopped && g.leases == 0
  }

  class RuntimeGeneration {
    var state: Retirement
    var leases: nat
    var notified: bool
    var checkersStopped: bool

    ghost function View(): Generation
      reads this
    {
      Generation(state, leases, notified, checkersStopped)
    }

    ghost predicate Valid()
      reads this
    {
      Lawful(View())
    }

    constructor ()
      ensures Valid() && View() == FRESH
    {
      state, leases, notified, checkersStopped := Active, 0, false, false;
    }

    /** A lease is granted only while nobody has been told that the last one is gone. */
    method TryAcquireRequestLease() returns (ok: bool)
      requires Valid()
      modifies this
      ensures Valid() && (ok <==> Acquired(old(View())).Some?)
      ensures View() == if ok then Acquired(old(View())).value else old(View())
      ensures ok ==> !notified && !checkersStopped && leases > 0
    {
      if !state.Active? { return false; }
      leases := leases + 1;
      return true;
    }

    /** The notice falls due at once exactly when no lease is out. */
    method BeginRetirement() returns (ok: bool, notify: bool)
      requires Valid()
      modifies this
      ensures Valid() && (ok <==> RetirementBegun(old(View())).Some?)
      ensures if ok then (View(), notify) == RetirementBegun(old(View())).value else View() == old(View()) && !notify
      ensures notify <==> ok && leases == 0
      ensures notify ==> notified && !old(notified)
    {
      notify := false;
      if !state.Active? { return false, false; }
      state := Retiring;
      if leases == 0 && !notified {
        notified, notify := true, true;
      }
      ok := true;
    }

    method Advance()
      modifies this`state
      ensures View() == AdvanceIfReady(old(View()))
    {
      if state.Retiring? && checkersStopped { state := CheckersStopped; }
      if state.CheckersStopped? && leases == 0 { state := WaitingForLeases; }
    }

    /** The generation then waits for the reaper exactly when no lease is out. */
    method NotifyCheckersStopped() returns (ok: bool)
      requires Valid()
      modifies this
      ensures Valid() && (ok <==> CheckersNotified(old(View())).Some?)
      ensures View() == if ok then CheckersNotified(old(View())).value else old(View())
      ensures ok ==> (if leases == 0 then state.WaitingForLeases? else state.CheckersStopped?) && notified == old(notified)
    {
      if !state.Retiring? && !state.CheckersStopped? { return false; }
      checkersStopped := true;
      Advance();
      return true;
    }

    /** Succeeds once, and never with a lease out: the lease test is implied by the state. */
    method BeginReaping() returns (ok: bool)
      requires Valid()
      modifies this
      ensures Valid() && (ok <==> old(state).WaitingForLeases?)
      ensures View() == if ok then ReapingBegun(old(View())).value else old(View())
      ensures ok ==> leases == 0 && checkersStopped && !state.WaitingForLeases?
    {
      if !state.WaitingForLeases? || leases != 0 { return false; }
      state := OutcomeDraining;
      return true;
    }

    method MarkRetired()
      requires Valid()
      modifies this`state
      ensures Valid() && View() == Retired(old(View()))
      ensures state.Done? ==> leases == 0
    {
      if state.OutcomeDraining? { state := Done; }
    }

    /** Releasing without a lease aborts the program; the machine of module Retirement shows it
        never happens.  The notice is due exactly at the last release of a generation that is retiring
        with its checkers still running, and was not given before. */
    method ReleaseRequestLease() returns (notify: bool)
      requires Valid() && leases > 0
      modifies this
      ensures Valid() && (View(), notify) == Released(old(View()))
      ensures notify <==> leases == 0 && old(state).Retiring?
      ensures notify ==> notified && !old(notified)
      ensures old(state).CheckersStopped? ==> (state.WaitingForLeases? <==> leases == 0)
    {
      notify := false;
      leases := leases - 1;
      if leases == 0 {
        Advance();
        if state.Retiring? && !notified {
          notified, notify := true, true;
        }
      }
    }
  }

  datatype Kind = LastRequestLeaseReleased | WorkerBalancesReturned | ReaperFinished
  datatype Event = Event(kind: Kind, version: nat)

  class GenerationMailbox {
    const capacity: nat
    var events: seq<Event>
    var closed: bool

    constructor (capacity: nat)
      requires capacity > 0
      ensures this.capacity == capacity && events == [] && !closed
    {
      this.capacity := capacity;
      events, closed := [], false;
    }

    /** `wakes`: the control loop's descriptor takes the wake-up; otherwise the event is taken back. */
    method Post(event: Event, wakes: bool) returns (ok: bool)
      modifies this`events
      ensures ok <==> !closed && |old(events)| < capacity && wakes
      ensures events == if ok then old(events) + [event] else old(events)
    {
      if closed || |events| >= capacity { return false; }
      events := events + [event];
      if wakes { return true; }
      events := events[..|events| - 1];
      return false;
    }

    method Drain() returns (queued: seq<Event>)
      modifies this`events
      ensures queued == old(events) && events == []
    {
      queued := events;
      events := [];
    }

    method Close()
      modifies this`closed
      ensures closed
    {
      closed := true;
    }
  }
}
