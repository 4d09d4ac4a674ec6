/** One generation under any order of calls, not only the control loop's: what its mutex-guarded
    methods guarantee by themselves. */
module GenerationLife {
  import opened Generations

  datatype Call = Acquire | Release | Retire | StopCheckers | Reap | Finish

  /** A generation with its history: leases granted and given back, notices, reapers, and whether the
      checkers were reported stopped while a lease was held. */
  datatype Life = Life(g: Generation, granted: nat, returned: nat, notices: nat, reapers: nat, early: bool)

  /** A generation as it is built, with no history. */
  predicate Born(l: Life) {
    && l.g.state.Active? && l.g.leases == 0 && !l.g.notified && !l.g.checkersStopped
    && l.granted == l.returned == l.notices == l.reapers == 0 && !l.early
  }

  function One(b: bool): nat { if b then 1 else 0 }

  /** A lease gives itself back once, so nobody releases what is not held. */
  predicate Possible(l: Life, call: Call) { call.Release? ==> l.granted > l.returned && l.g.leases > 0 }

  function After(l: Life, call: Call): Life
    requires Possible(l, call)
  {
    match call
    case Acquire =>
      var g := Acquired(l.g);
      if g.None? then l else l.(g := g.value, granted := l.granted + 1)
    case Release =>
      var (g, notify) := Released(l.g);
      l.(g := g, returned := l.returned + 1, notices := l.notices + One(notify))
    case Retire =>
      var r := RetirementBegun(l.g);
      if r.None? then l else l.(g := r.value.0, notices := l.notices + One(r.value.1))
    case StopCheckers =>
      var g := CheckersNotified(l.g);
      if g.None? then l else l.(g := g.value, early := l.early || l.g.leases > 0)
    case Reap =>
      var g := ReapingBegun(l.g);
      if g.None? then l else l.(g := g.value, reapers := l.reapers + 1)
    case Finish => l.(g := Retired(l.g))
  }

  ghost predicate Lives(l: Life, calls: seq<Call>, l': Life)
    decreases |calls|
  {
    if calls == [] then l == l' else Possible(l, calls[0]) && Lives(After(l, calls[0]), calls[1..], l')
  }

  ghost predicate LifeOk(l: Life) {
    && Lawful(l.g) && l.granted == l.returned + l.g.leases
    && l.notices == One(l.g.notified) && l.reapers == One(Rank(l.g.state) >= Rank(OutcomeDraining))
    && (l.g.state.CheckersStopped? ==> l.early)
    && (l.early ==> !l.g.notified && Rank(l.g.state) >= Rank(CheckersStopped))
    && (!l.g.state.Active? && l.g.leases == 0 && !l.early ==> l.g.notified)
  }

  lemma CallKeeps(l: Life, call: Call)
    requires LifeOk(l) && Possible(l, call)
    ensures LifeOk(After(l, call)) && Rank(l.g.state) <= Rank(After(l, call).g.state)
    ensures After(l, call).granted > l.granted ==> l.g.state.Active? && After(l, call).g.state.Active?
  {
  }

  /** Whatever the order of the calls: the state moves only forward, no lease is granted once
      retirement began, the last-lease notice comes at most once, the reaper starts at most once and
      with no lease out, and a retired generation with no lease out has had its notice exactly when its
      checkers were not reported stopped before. */
  lemma EveryLife(born: Life, calls: seq<Call>, m: Life, later: seq<Call>, l: Life)
    requires Born(born) && Lives(born, calls, m) && Lives(m, later, l)
    ensures Rank(m.g.state) <= Rank(l.g.state) && (!m.g.state.Active? ==> l.granted == m.granted)
    ensures l.notices <= 1 && l.reapers <= 1 && (l.reapers == 1 ==> l.granted == l.returned)
    ensures l.notices == 1 ==> l.granted == l.returned
    ensures !l.g.state.Active? && l.granted == l.returned ==> (l.notices == 1 <==> !l.early)
  {
    CallsKeep(born, calls, m);
    CallsKeep(m, later, l);
  }

  lemma {:induction false} CallsKeep(l: Life, calls: seq<Call>, l': Life)
    requires LifeOk(l) && Lives(l, calls, l')
    ensures LifeOk(l') && Rank(l.g.state) <= Rank(l'.g.state) && (!l.g.state.Active? ==> l'.granted == l.granted)
    decreases |calls|
  {
    if calls != [] {
      CallKeeps(l, calls[0]);
      CallsKeep(After(l, calls[0]), calls[1..], l');
    }
  }

  /** The order that loses the notice: the checkers stop while the last lease is still out. */
  lemma NoticeLost(born: Life) returns (calls: seq<Call>, l: Life)
    requires Born(born)
    ensures Lives(born, calls, l)
    ensures l.g.state.WaitingForLeases? && l.granted == l.returned && l.notices == 0
  {
    var a := Life(Generation(Active, 1, false, false), 1, 0, 0, 0, false);
    var b := a.(g := Generation(Retiring, 1, false, false));
    var c := b.(g := Generation(CheckersStopped, 1, false, true), early := true);
    l := c.(g := Generation(WaitingForLeases, 0, false, true), returned := 1);
    assert After(born, Acquire) == a && After(a, Retire) == b && After(b, StopCheckers) == c;
    assert After(c, Release) == l;
    calls := Preceded(c, Release, [], l);
    calls := Preceded(b, StopCheckers, calls, l);
    calls := Preceded(a, Retire, calls, l);
    calls := Preceded(born, Acquire, calls, l);
  }

  lemma Preceded(l: Life, call: Call, calls: seq<Call>, l': Life) returns (more: seq<Call>)
    requires Possible(l, call) && Lives(After(l, call), calls, l')
    ensures Lives(l, more, l')
  {
    more := [call] + calls;
    assert more[1..] == calls;
  }
}
