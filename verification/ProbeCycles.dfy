/** Half-open probe cycles: the coordinator arms, records results and publishes snapshots while
    any number of workers claim probe slots, each from whatever snapshot it last saw.  Steps are
    the individual atomic accesses of ClaimProbe and the coordinator's single-threaded actions.
    `wins` is history: the probe ids of the running cycle that have succeeded. */
module ProbeCycles {
  import opened Attempts
  import opened CircuitBreakers
  import BreakerWindow

  /** The atomic counters of one cycle's claim object; its fixed part is the HalfOpenCycle. */
  datatype Counter = Counter(remaining: nat, issued: nat)

  /** The part of a published decision that ClaimProbe reads; `slots` names a claim object. */
  datatype Decision = Decision(state: State, slots: Option<nat>)

  /** A worker inside ClaimProbe. */
  datatype ClaimPc =
    | Reading(slots: nat)
    | Loaded(slots: nat, remaining: nat)
    | Taken(slots: nat)
    | Numbered(slots: nat, index: nat)

  /** A permit handed to a worker, with the cycle it came from. */
  datatype Grant = Grant(slots: nat, index: nat, permit: AttemptPermit)

  datatype System = System(
    breaker: Breaker,
    cycles: seq<HalfOpenCycle>,
    counters: seq<Counter>,
    current: Option<nat>,
    published: seq<Decision>,
    claims: map<nat, ClaimPc>,
    grants: seq<Grant>,
    wins: set<nat>)

  datatype Step =
    | Arm(now: int)
    | Record(now: int, permit: AttemptPermit, success: bool)
    | Publish
    | BeginClaim(w: nat, decision: nat)
    | LoadRemaining(w: nat)
    | TakeOne(w: nat, spurious: bool)
    | TakeNumber(w: nat)
    | CheckCurrent(w: nat)

  /** Where a coordinator's breaker comes from: built new, or imported from a snapshot. */
  datatype Origin = Built(config: Config, now: int) | Imported(target: Breaker, snapshot: Snapshot, now: int)

  ghost predicate ValidOrigin(o: Origin) {
    match o
    case Built(config, _) => ValidConfig(config)
    case Imported(target, _, _) => Shape(target)
  }

  ghost function Start(o: Origin): System
    requires ValidOrigin(o)
  {
    match o
    case Built(config, now) => System(New(config, now), [], [], None, [], map[], [], {})
    case Imported(target, snapshot, now) =>
      var (b, cycle) := Import(target, snapshot, now);
      if cycle.None? then System(b, [], [], None, [], map[], [], {})
      else System(b, [cycle.value], [Counter(cycle.value.quota, 0)], Some(0), [], map[], [], {})
  }

  function ToRequestPermit(p: AttemptPermit): RequestPermit {
    RequestPermit(if p.probe then Probe else Allowed, p.generation, p.probeId)
  }

  predicate Enabled(s: System, step: Step) {
    && |s.counters| == |s.cycles|
    && match step
       case BeginClaim(w, decision) => w !in s.claims && decision < |s.published|
       case LoadRemaining(w) => w in s.claims && s.claims[w].Reading? && s.claims[w].slots < |s.cycles|
       case TakeOne(w, _) => w in s.claims && s.claims[w].Loaded? && s.claims[w].slots < |s.cycles|
       case TakeNumber(w) => w in s.claims && s.claims[w].Taken? && s.claims[w].slots < |s.cycles|
       case CheckCurrent(w) => w in s.claims && s.claims[w].Numbered? && s.claims[w].slots < |s.cycles|
       case _ => true
  }

  function ApplyArm(s: System, now: int): System {
    if !s.breaker.state.Open? || now < s.breaker.openUntil then s
    else
      var (b, cycle) := BeginFreshHalfOpenCycle(s.breaker);
      s.(breaker := b, cycles := s.cycles + [cycle], counters := s.counters + [Counter(cycle.quota, 0)],
         current := Some(|s.cycles|), wins := {})
  }

  predicate ConsumesProbe(b: Breaker, p: RequestPermit) {
    b.state.HalfOpen? && p.generation == b.generation && p.selection.Probe? && p.probeId in b.pending
  }

  function ApplyRecord(s: System, now: int, permit: AttemptPermit, success: bool): System
    requires Shape(s.breaker)
  {
    var p := ToRequestPermit(permit);
    s.(breaker := CircuitBreakers.Record(s.breaker, now, p, success),
       wins := if success && ConsumesProbe(s.breaker, p) then s.wins + {permit.probeId} else s.wins)
  }

  function ApplyTake(s: System, w: nat, spurious: bool): System
    requires Enabled(s, TakeOne(w, spurious))
  {
    var Loaded(x, remaining) := s.claims[w];
    if remaining == 0 then s.(claims := s.claims - {w})
    else if s.counters[x].remaining == remaining && !spurious then
      s.(counters := s.counters[x := s.counters[x].(remaining := remaining - 1)], claims := s.claims[w := Taken(x)])
    else s.(claims := s.claims[w := Loaded(x, s.counters[x].remaining)])
  }

  function ApplyNumber(s: System, w: nat): System
    requires Enabled(s, TakeNumber(w))
  {
    var x := s.claims[w].slots;
    s.(counters := s.counters[x := s.counters[x].(issued := s.counters[x].issued + 1)],
       claims := s.claims[w := Numbered(x, s.counters[x].issued)])
  }

  /** The permit is granted only if the cycle is still the current one. */
  function Withdrawn(s: System, w: nat): System { s.(claims := s.claims - {w}) }

  function GrantOf(s: System, w: nat): Grant
    requires Enabled(s, CheckCurrent(w))
  {
    var Numbered(x, index) := s.claims[w];
    Grant(x, index, AttemptPermit(true, s.cycles[x].generation, s.cycles[x].base + index))
  }

  function ApplyCheck(s: System, w: nat): System
    requires Enabled(s, CheckCurrent(w))
  {
    if s.current != Some(s.claims[w].slots) then Withdrawn(s, w)
    else Withdrawn(s, w).(grants := s.grants + [GrantOf(s, w)])
  }

  function Apply(s: System, step: Step): System
    requires Shape(s.breaker) && Enabled(s, step)
  {
    match step
    case Arm(now) => ApplyArm(s, now)
    case Record(now, permit, success) => ApplyRecord(s, now, permit, success)
    case Publish => s.(published := s.published + [Decision(s.breaker.state, s.current)])
    case BeginClaim(w, decision) =>
      var d := s.published[decision];
      if !d.state.HalfOpen? || d.slots.None? then s else s.(claims := s.claims[w := Reading(d.slots.value)])
    case LoadRemaining(w) =>
      var x := s.claims[w].slots;
      s.(claims := s.claims[w := Loaded(x, s.counters[x].remaining)])
    case TakeOne(w, spurious) => ApplyTake(s, w, spurious)
    case TakeNumber(w) => ApplyNumber(s, w)
    case CheckCurrent(w) => ApplyCheck(s, w)
  }

  // ---------------------------------------------------------------- invariant

  function TakersOf(claims: map<nat, ClaimPc>, x: nat): set<nat> {
    set w | w in claims && claims[w] == Taken(x)
  }

  /** Every slot of a cycle is still free, or taken and not yet numbered, or numbered. */
  ghost predicate CycleCounted(cycle: HalfOpenCycle, counter: Counter, claims: map<nat, ClaimPc>, x: nat) {
    counter.remaining + |TakersOf(claims, x)| + counter.issued == cycle.quota
  }

  ghost predicate AllCounted(s: System)
    requires |s.counters| == |s.cycles|
  {
    forall x :: 0 <= x < |s.cycles| ==> CycleCounted(s.cycles[x], s.counters[x], s.claims, x)
  }

  /** Ranges of different cycles do not meet, and lie below the next id to be issued. */
  ghost predicate RangesApart(cycles: seq<HalfOpenCycle>, next: nat) {
    && (forall x :: 0 <= x < |cycles| ==> cycles[x].base + cycles[x].quota <= next)
    && (forall x, y :: 0 <= x < y < |cycles| ==> cycles[x].base + cycles[x].quota <= cycles[y].base)
  }

  /** No two holders of a number in one cycle hold the same number. */
  ghost predicate NumbersDistinct(claims: map<nat, ClaimPc>) {
    forall v, w :: v in claims && w in claims && v != w && claims[v].Numbered? && claims[w].Numbered? ==>
      claims[v].slots != claims[w].slots || claims[v].index != claims[w].index
  }

  ghost predicate ClaimsOk(claims: map<nat, ClaimPc>, counters: seq<Counter>) {
    && (forall w :: w in claims ==> claims[w].slots < |counters|)
    && (forall w :: w in claims && claims[w].Numbered? ==> claims[w].index < counters[claims[w].slots].issued)
    && NumbersDistinct(claims)
  }

  ghost predicate NamesOk(s: System) {
    && (forall d :: 0 <= d < |s.published| && s.published[d].slots.Some? ==> s.published[d].slots.value < |s.cycles|)
    && (s.current.Some? ==> s.current.value < |s.cycles|)
  }

  ghost predicate GrantOk(g: Grant, cycles: seq<HalfOpenCycle>, counters: seq<Counter>)
    requires |cycles| == |counters|
  {
    && g.slots < |cycles| && g.index < counters[g.slots].issued
    && g.permit == AttemptPermit(true, cycles[g.slots].generation, cycles[g.slots].base + g.index)
  }

  ghost predicate GrantsOk(grants: seq<Grant>, claims: map<nat, ClaimPc>, cycles: seq<HalfOpenCycle>, counters: seq<Counter>)
    requires |cycles| == |counters|
  {
    && (forall i :: 0 <= i < |grants| ==> GrantOk(grants[i], cycles, counters))
    && (forall i, j :: 0 <= i < j < |grants| ==>
          grants[i].slots != grants[j].slots || grants[i].index != grants[j].index)
    && (forall i, w :: 0 <= i < |grants| && w in claims && claims[w].Numbered? ==>
          claims[w].slots != grants[i].slots || claims[w].index != grants[i].index)
  }

  /** While half-open, the ids of the running cycle are exactly the pending and the won ones. */
  ghost predicate CycleOk(b: Breaker, c: HalfOpenCycle, wins: set<nat>) {
    && c.generation == b.generation && c.quota == b.config.probes
    && (forall id :: id in multiset(b.pending) ==> multiset(b.pending)[id] == 1 && id !in wins)
    && (forall id :: id in wins || id in multiset(b.pending) <==> c.base <= id < c.base + c.quota)
    && |wins| == b.completed && b.completed + |b.pending| == b.config.probes
  }

  ghost predicate Inv(s: System) {
    && Shape(s.breaker) && |s.counters| == |s.cycles|
    && AllCounted(s)
    && RangesApart(s.cycles, s.breaker.nextProbeId)
    && ClaimsOk(s.claims, s.counters) && NamesOk(s)
    && GrantsOk(s.grants, s.claims, s.cycles, s.counters)
    && (s.breaker.state.HalfOpen? ==> s.current.Some? && CycleOk(s.breaker, s.cycles[s.current.value], s.wins))
  }

  // ---------------------------------------------------------------- preservation

  lemma RangeIds(base: nat, n: nat)
    ensures forall id :: id in multiset(Range(base, n)) <==> base <= id < base + n
    ensures forall id :: id in multiset(Range(base, n)) ==> multiset(Range(base, n))[id] == 1
  {
    if n > 0 {
      RangeIds(base, n - 1);
      assert Range(base, n) == Range(base, n - 1) + [base + n - 1];
    }
  }

  lemma KeepsArm(s: System, now: int)
    requires Inv(s)
    ensures Inv(ApplyArm(s, now))
  {
    var s' := ApplyArm(s, now);
    if s' != s {
      RangeIds(s.breaker.nextProbeId, s.breaker.config.probes);
      assert TakersOf(s.claims, |s.cycles|) == {};
      forall i | 0 <= i < |s'.grants| ensures GrantOk(s'.grants[i], s'.cycles, s'.counters) {
        assert GrantOk(s.grants[i], s.cycles, s.counters);
      }
    }
  }

  /** A probe result counts against the running cycle once: its id leaves the pending ones, and
      the cycle stays accounted for, reopens, or closes with every id won. */
  lemma CycleAfterResult(b: Breaker, c: HalfOpenCycle, wins: set<nat>, now: int, p: RequestPermit, ok: bool)
    requires Shape(b) && b.state.HalfOpen? && CycleOk(b, c, wins) && ConsumesProbe(b, p)
    ensures var b', wins' := CircuitBreakers.Record(b, now, p, ok), if ok then wins + {p.probeId} else wins;
            && (b'.state.HalfOpen? ==> CycleOk(b', c, wins'))
            && (b'.state.Closed? <==> ok && |b.pending| == 1)
            && (b'.state.Closed? ==> forall id :: id in wins' <==> c.base <= id < c.base + c.quota)
            && (b'.state.Open? <==> !ok)
            && (b'.state.Open? ==> b'.openUntil == now + b.config.openDuration * NS_PER_MS)
            && p.probeId !in b'.pending
  {
    ProbeResult(b, now, p, ok);
    var b' := CircuitBreakers.Record(b, now, p, ok);
    if ok && |b.pending| > 1 { CycleGoesOn(b, b', c, wins, p.probeId); }
    if ok && |b.pending| == 1 { assert b.pending == [p.probeId]; }
  }

  /** What a consumed probe does to the breaker. */
  lemma ProbeResult(b: Breaker, now: int, p: RequestPermit, ok: bool)
    requires Shape(b) && ConsumesProbe(b, p) && b.completed + |b.pending| == b.config.probes
    ensures var b' := CircuitBreakers.Record(b, now, p, ok);
            && b'.config == b.config
            && (if !ok then b'.state.Open? && b'.pending == [] && b'.openUntil == now + b.config.openDuration * NS_PER_MS
                else if |b.pending| == 1 then b'.state.Closed? && b'.pending == []
                else && b'.state.HalfOpen? && b'.generation == b.generation && b'.completed == b.completed + 1
                     && b'.pending == Without(b.pending, p.probeId))
  {
    BreakerWindow.AdvanceFrame(b, now);
  }

  lemma CycleGoesOn(b: Breaker, b': Breaker, c: HalfOpenCycle, wins: set<nat>, id: nat)
    requires CycleOk(b, c, wins) && id in b.pending && b'.config == b.config && b'.generation == b.generation
    requires b'.completed == b.completed + 1 && b'.pending == Without(b.pending, id)
    ensures CycleOk(b', c, wins + {id}) && id !in b'.pending
  {
    assert id in multiset(b.pending);
    assert multiset(b'.pending) == multiset(b.pending) - multiset{id};
    assert id in b'.pending ==> id in multiset(b'.pending);
  }

  /** The result counts for something: an allowed request of a closed breaker, a pending probe of a
      half-open one, of the running generation. */
  predicate Counts(b: Breaker, p: RequestPermit) {
    && p.generation == b.generation
    && match b.state
       case Closed => p.selection.Allowed?
       case HalfOpen => ConsumesProbe(b, p)
       case Open => false
  }

  /** In every state a result that does not count changes nothing but the ring. */
  lemma IgnoredResult(b: Breaker, now: int, p: RequestPermit, ok: bool)
    requires Shape(b) && !Counts(b, p)
    ensures var b' := CircuitBreakers.Record(b, now, p, ok);
            b' == b.(activeStart := b'.activeStart, activeIndex := b'.activeIndex, initialized := b'.initialized,
                     buckets := b'.buckets)
  {
    BreakerWindow.AdvanceFrame(b, now);
  }

  lemma KeepsRecord(s: System, now: int, permit: AttemptPermit, success: bool)
    requires Inv(s)
    ensures Inv(ApplyRecord(s, now, permit, success))
  {
    var p := ToRequestPermit(permit);
    BreakerWindow.AdvanceFrame(s.breaker, now);
    if s.breaker.state.HalfOpen? {
      if ConsumesProbe(s.breaker, p) {
        CycleAfterResult(s.breaker, s.cycles[s.current.value], s.wins, now, p, success);
      } else {
        IgnoredResult(s.breaker, now, p, success);
      }
    }
  }

  lemma TakersChange(claims: map<nat, ClaimPc>, w: nat, pc: ClaimPc, x: nat)
    requires w in claims ==> !claims[w].Taken?
    ensures |TakersOf(claims[w := pc], x)| == |TakersOf(claims, x)| + if pc == Taken(x) then 1 else 0
  {
    assert w !in TakersOf(claims, x);
    assert TakersOf(claims[w := pc], x) == if pc == Taken(x) then TakersOf(claims, x) + {w} else TakersOf(claims, x);
  }

  lemma TakerLeaves(claims: map<nat, ClaimPc>, w: nat, pc: ClaimPc, x: nat)
    requires w in claims && claims[w].Taken? && !pc.Taken?
    ensures |TakersOf(claims[w := pc], x)| == |TakersOf(claims, x)| - if claims[w] == Taken(x) then 1 else 0
  {
    assert TakersOf(claims, x) == if claims[w] == Taken(x) then TakersOf(claims[w := pc], x) + {w} else TakersOf(claims[w := pc], x);
  }

  lemma KeepsTake(s: System, w: nat, spurious: bool)
    requires Inv(s) && Enabled(s, TakeOne(w, spurious))
    ensures Inv(ApplyTake(s, w, spurious))
  {
    var Loaded(x, remaining) := s.claims[w];
    if remaining == 0 {
      KeepsWithdrawn(s, w);
    } else if s.counters[x].remaining == remaining && !spurious {
      KeepsTaken(s, w);
    } else {
      KeepsReloaded(s, w, Loaded(x, s.counters[x].remaining));
    }
  }

  lemma KeepsWithdrawn(s: System, w: nat)
    requires Inv(s) && w in s.claims && !s.claims[w].Taken?
    ensures Inv(Withdrawn(s, w))
  {
    forall x | 0 <= x < |s.cycles| ensures CycleCounted(s.cycles[x], s.counters[x], s.claims - {w}, x) {
      assert CycleCounted(s.cycles[x], s.counters[x], s.claims, x);
      assert TakersOf(s.claims - {w}, x) == TakersOf(s.claims, x);
    }
  }

  lemma KeepsReloaded(s: System, w: nat, pc: ClaimPc)
    requires Inv(s) && pc.slots < |s.cycles| && (pc.Reading? || pc.Loaded?)
    requires w in s.claims ==> !s.claims[w].Taken?
    ensures Inv(s.(claims := s.claims[w := pc]))
  {
    forall x | 0 <= x < |s.cycles| ensures CycleCounted(s.cycles[x], s.counters[x], s.claims[w := pc], x) {
      assert CycleCounted(s.cycles[x], s.counters[x], s.claims, x);
      TakersChange(s.claims, w, pc, x);
    }
  }

  lemma KeepsTaken(s: System, w: nat)
    requires Inv(s) && Enabled(s, TakeOne(w, false))
    requires s.claims[w].remaining == s.counters[s.claims[w].slots].remaining > 0
    ensures Inv(ApplyTake(s, w, false))
  {
    var s' := ApplyTake(s, w, false);
    forall x | 0 <= x < |s'.cycles| ensures CycleCounted(s'.cycles[x], s'.counters[x], s'.claims, x) {
      assert CycleCounted(s.cycles[x], s.counters[x], s.claims, x);
      TakersChange(s.claims, w, s'.claims[w], x);
    }
    forall i | 0 <= i < |s'.grants| ensures GrantOk(s'.grants[i], s'.cycles, s'.counters) {
      assert GrantOk(s.grants[i], s.cycles, s.counters);
    }
  }

  /** A number is taken after a slot: it is new, and below the quota because a slot was taken. */
  lemma KeepsNumber(s: System, w: nat)
    requires Inv(s) && Enabled(s, TakeNumber(w))
    ensures Inv(ApplyNumber(s, w))
  {
    var s' := ApplyNumber(s, w);
    forall x | 0 <= x < |s'.cycles| ensures CycleCounted(s'.cycles[x], s'.counters[x], s'.claims, x) {
      assert CycleCounted(s.cycles[x], s.counters[x], s.claims, x);
      TakerLeaves(s.claims, w, s'.claims[w], x);
    }
    forall i | 0 <= i < |s'.grants| ensures GrantOk(s'.grants[i], s'.cycles, s'.counters) {
      assert GrantOk(s.grants[i], s.cycles, s.counters);
    }
  }

  lemma KeepsCheck(s: System, w: nat)
    requires Inv(s) && Enabled(s, CheckCurrent(w))
    ensures Inv(ApplyCheck(s, w))
  {
    KeepsWithdrawn(s, w);
    if s.current == Some(s.claims[w].slots) { KeepsGranted(s, w); }
  }

  lemma KeepsGranted(s: System, w: nat)
    requires Inv(s) && Enabled(s, CheckCurrent(w)) && Inv(Withdrawn(s, w))
    ensures Inv(Withdrawn(s, w).(grants := s.grants + [GrantOf(s, w)]))
  {
    GrantAdded(s.grants, s.claims, s.cycles, s.counters, w, GrantOf(s, w));
    KeepsGrants(Withdrawn(s, w), s.grants + [GrantOf(s, w)]);
  }

  lemma KeepsGrants(s: System, grants: seq<Grant>)
    requires Inv(s) && GrantsOk(grants, s.claims, s.cycles, s.counters)
    ensures Inv(s.(grants := grants))
  {
  }

  /** A number that becomes a permit is no longer a claim. */
  lemma GrantAdded(grants: seq<Grant>, claims: map<nat, ClaimPc>, cycles: seq<HalfOpenCycle>, counters: seq<Counter>,
                   w: nat, g: Grant)
    requires |cycles| == |counters| && ClaimsOk(claims, counters) && GrantsOk(grants, claims, cycles, counters)
    requires w in claims && claims[w] == Numbered(g.slots, g.index) && GrantOk(g, cycles, counters)
    ensures GrantsOk(grants + [g], claims - {w}, cycles, counters)
  {
    var all := grants + [g];
    forall i | 0 <= i < |all| ensures GrantOk(all[i], cycles, counters) {
      if i < |grants| { assert GrantOk(grants[i], cycles, counters); }
    }
    forall i, v | 0 <= i < |all| && v in claims - {w} && claims[v].Numbered?
      ensures claims[v].slots != all[i].slots || claims[v].index != all[i].index
    {
      if i == |grants| { assert NumbersDistinct(claims); } else { assert all[i] == grants[i]; }
    }
  }

  lemma KeepsStep(s: System, step: Step)
    requires Inv(s) && Enabled(s, step)
    ensures Inv(Apply(s, step))
  {
    match step
    case Arm(now) => KeepsArm(s, now);
    case Record(now, permit, success) => KeepsRecord(s, now, permit, success);
    case Publish =>
    case BeginClaim(w, decision) =>
      var d := s.published[decision];
      if d.state.HalfOpen? && d.slots.Some? { KeepsReloaded(s, w, Reading(d.slots.value)); }
    case LoadRemaining(w) =>
      var x := s.claims[w].slots;
      KeepsReloaded(s, w, Loaded(x, s.counters[x].remaining));
    case TakeOne(w, spurious) => KeepsTake(s, w, spurious);
    case TakeNumber(w) => KeepsNumber(s, w);
    case CheckCurrent(w) => KeepsCheck(s, w);
  }

  // ---------------------------------------------------------------- every run

  ghost predicate Runs(s: System, steps: seq<Step>, s': System)
    decreases |steps|
  {
    if steps == [] then s' == s
    else Shape(s.breaker) && Enabled(s, steps[0]) && Runs(Apply(s, steps[0]), steps[1..], s')
  }

  lemma {:induction false} RunKeeps(s: System, steps: seq<Step>, s': System)
    requires Inv(s) && Runs(s, steps, s')
    ensures Inv(s')
    decreases |steps|
  {
    if steps != [] {
      KeepsStep(s, steps[0]);
      RunKeeps(Apply(s, steps[0]), steps[1..], s');
    }
  }

  lemma StartHolds(o: Origin)
    requires ValidOrigin(o)
    ensures Inv(Start(o))
  {
    var s := Start(o);
    RangeIds(1, s.breaker.config.probes);
    assert TakersOf(s.claims, 0) == {};
  }

  /** Over every interleaving of claims, results, arming and publication, the permits handed out
      for one cycle carry its generation and distinct ids inside [base, base + quota), and permits
      of different cycles never share an id. */
  lemma PermitsAreDistinct(o: Origin, steps: seq<Step>, s: System, i: nat, j: nat)
    requires ValidOrigin(o) && Runs(Start(o), steps, s) && i < j < |s.grants|
    ensures var g, h := s.grants[i], s.grants[j];
            && g.slots < |s.cycles| && h.slots < |s.cycles|
            && g.permit.probe && g.permit.generation == s.cycles[g.slots].generation
            && s.cycles[g.slots].base <= g.permit.probeId < s.cycles[g.slots].base + s.cycles[g.slots].quota
            && g.permit.probeId != h.permit.probeId
  {
    StartHolds(o);
    RunKeeps(Start(o), steps, s);
    var g, h := s.grants[i], s.grants[j];
    assert GrantOk(g, s.cycles, s.counters) && GrantOk(h, s.cycles, s.counters);
    assert CycleCounted(s.cycles[g.slots], s.counters[g.slots], s.claims, g.slots);
    assert CycleCounted(s.cycles[h.slots], s.counters[h.slots], s.claims, h.slots);
  }

  /** In every reachable half-open state: the breaker closes exactly at the success of the last
      pending id, when every id of the running cycle and none other has succeeded; its first failed
      probe reopens it for the full open duration; a used id is no longer pending; and a result
      with another generation or an id not pending changes nothing but the ring of buckets. */
  lemma HalfOpenOutcome(o: Origin, steps: seq<Step>, s: System, now: int, permit: AttemptPermit, success: bool)
    requires ValidOrigin(o) && Runs(Start(o), steps, s) && s.breaker.state.HalfOpen?
    ensures Shape(s.breaker) && s.current.Some? && s.current.value < |s.cycles|
    ensures var s', p := ApplyRecord(s, now, permit, success), ToRequestPermit(permit);
            var b, b', c := s.breaker, s'.breaker, s.cycles[s.current.value];
            if ConsumesProbe(b, p) then
              && (b'.state.Closed? <==> success && |b.pending| == 1)
              && (b'.state.Closed? ==> forall id :: id in s'.wins <==> c.base <= id < c.base + c.quota)
              && (b'.state.Open? <==> !success)
              && (b'.state.Open? ==> b'.openUntil == now + b.config.openDuration * NS_PER_MS)
              && c.base <= permit.probeId < c.base + c.quota && permit.probeId !in s.wins
              && permit.probeId !in b'.pending
            else
              s' == s.(breaker := b.(activeStart := b'.activeStart, activeIndex := b'.activeIndex,
                                     initialized := b'.initialized, buckets := b'.buckets))
  {
    StartHolds(o);
    RunKeeps(Start(o), steps, s);
    var p := ToRequestPermit(permit);
    if ConsumesProbe(s.breaker, p) {
      assert permit.probeId in multiset(s.breaker.pending);
      CycleAfterResult(s.breaker, s.cycles[s.current.value], s.wins, now, p, success);
    } else {
      IgnoredResult(s.breaker, now, p, success);
    }
  }
}
