/** The per-endpoint circuit breaker: a ten-bucket sliding window, a Closed/Open/HalfOpen machine
    with generations and one-shot probe ids, and export/import across a reload.
    Times are nanoseconds on the steady clock; configured durations are milliseconds. */
module CircuitBreakers {
  import opened Arith
  import opened Attempts

  const BUCKETS: nat := 10
  const NS_PER_MS: int := 1_000_000
  const COUNT_WRAP: nat := 0x1_0000_0000            // bucket counters are 32 bits wide
  const GENERATION_WRAP: nat := 0x1_0000_0000_0000_0000

  datatype Config = Config(window: int, minRequests: nat, permille: nat, openDuration: int, probes: nat)

  predicate ValidConfig(c: Config) {
    && c.window > 0 && c.minRequests > 0 && 0 < c.permille < 1000
    && c.openDuration > 0 && 0 < c.probes < COUNT_WRAP
  }

  function WindowNs(c: Config): int { c.window * NS_PER_MS }

  function BucketNs(c: Config): (d: int)
    requires c.window > 0
    ensures d > 0 && BUCKETS * d == WindowNs(c)
  {
    WindowNs(c) / BUCKETS
  }

  datatype State = Closed | Open | HalfOpen
  datatype Selection = Allowed | RejectedOpen | RejectedHalfOpenQuota | Probe
  datatype RequestPermit = RequestPermit(selection: Selection, generation: nat, probeId: nat)
  datatype HalfOpenCycle = HalfOpenCycle(generation: nat, base: nat, quota: nat)

  datatype Bucket = Bucket(start: int, success: nat, failure: nat)
  const NO_BUCKET := Bucket(0, 0, 0)

  datatype Breaker = Breaker(
    config: Config,
    state: State,
    epoch: int,
    activeStart: int,
    activeIndex: nat,
    initialized: bool,
    buckets: seq<Bucket>,
    openUntil: int,
    generation: nat,
    nextProbeId: nat,
    pending: seq<nat>,
    issued: nat,
    completed: nat)

  ghost predicate Shape(b: Breaker) {
    ValidConfig(b.config) && |b.buckets| == BUCKETS && b.activeIndex < BUCKETS
  }

  function NoBuckets(): seq<Bucket> { seq(BUCKETS, _ => NO_BUCKET) }

  function New(config: Config, now: int): Breaker {
    Breaker(config, Closed, now, 0, 0, false, NoBuckets(), 0, 1, 1, [], 0, 0)
  }

  // ---------------------------------------------------------------- time

  function Initialized(b: Breaker): Breaker
    requires Shape(b)
  {
    if b.initialized then b
    else b.(activeStart := b.epoch, activeIndex := 0, initialized := true,
            buckets := b.buckets[0 := Bucket(b.epoch, 0, 0)])
  }

  /** Opens the next bucket. */
  function StepOne(b: Breaker): Breaker
    requires Shape(b)
  {
    var start := b.activeStart + BucketNs(b.config);
    var index := (b.activeIndex + 1) % BUCKETS;
    b.(activeStart := start, activeIndex := index, buckets := b.buckets[index := Bucket(start, 0, 0)])
  }

  function StepMany(b: Breaker, n: nat): (r: Breaker)
    requires Shape(b)
    ensures Shape(r) && r.config == b.config
    decreases n
  {
    if n == 0 then b else StepMany(StepOne(b), n - 1)
  }

  /** Once ten or more buckets have gone by, the ring starts over, empty, at the bucket of `now`. */
  function Jump(b: Breaker, now: int): Breaker
    requires Shape(b) && b.epoch <= now
  {
    var d := BucketNs(b.config);
    var start := now - (now - b.epoch) % d;
    var index := ((now - b.epoch) / d) % BUCKETS;
    b.(activeStart := start, activeIndex := index, buckets := NoBuckets()[index := Bucket(start, 0, 0)])
  }

  function Skipped(b: Breaker, now: int): int
    requires b.config.window > 0
  {
    (now - b.activeStart) / BucketNs(b.config)
  }

  function AdvanceTo(b: Breaker, now: int): (r: Breaker)
    requires Shape(b)
    ensures Shape(r)
  {
    if now < b.epoch then b
    else
      var i := Initialized(b);
      if now < i.activeStart + BucketNs(b.config) then i
      else
        assert Skipped(i, now) >= 0 by { DivMonotone(0, now - i.activeStart, BucketNs(b.config)); }
        if Skipped(i, now) >= BUCKETS then Jump(i, now) else StepMany(i, Skipped(i, now))
  }

  // ---------------------------------------------------------------- counting

  function Part(b: Bucket, ok: bool): nat { if ok then b.success else b.failure }

  /** Successes (or failures) of the first `n` buckets starting after `cutoff`. */
  function Tally(buckets: seq<Bucket>, cutoff: int, ok: bool, n: nat): nat
    requires n <= |buckets|
  {
    if n == 0 then 0
    else Tally(buckets, cutoff, ok, n - 1) + if buckets[n - 1].start > cutoff then Part(buckets[n - 1], ok) else 0
  }

  function Aggregate(b: Breaker, now: int, ok: bool): nat {
    Tally(b.buckets, now - WindowNs(b.config), ok, |b.buckets|)
  }

  function Increment(b: Bucket, ok: bool): Bucket {
    if ok then b.(success := (b.success + 1) % COUNT_WRAP) else b.(failure := (b.failure + 1) % COUNT_WRAP)
  }

  predicate Trips(c: Config, successes: nat, failures: nat) {
    && successes + failures >= c.minRequests
    && failures * 1000 >= c.permille * (successes + failures)
  }

  // ---------------------------------------------------------------- transitions

  function NextGeneration(g: nat): nat {
    var next := (g + 1) % GENERATION_WRAP;
    if next == 0 then 1 else next
  }

  function Opened(b: Breaker, now: int): Breaker {
    b.(state := Open, openUntil := now + b.config.openDuration * NS_PER_MS,
       generation := NextGeneration(b.generation), pending := [], issued := 0, completed := 0)
  }

  function ClosedAgain(b: Breaker): Breaker {
    b.(state := Closed, generation := NextGeneration(b.generation), pending := [], issued := 0, completed := 0,
       buckets := NoBuckets(), initialized := false, activeIndex := 0)
  }

  function BeginHalfOpen(b: Breaker): Breaker {
    b.(state := HalfOpen, generation := NextGeneration(b.generation), pending := [b.nextProbeId], issued := 1,
       completed := 0, nextProbeId := b.nextProbeId + 1)
  }

  function Range(base: nat, n: nat): (ids: seq<nat>)
    ensures |ids| == n && forall i :: 0 <= i < n ==> ids[i] == base + i
  {
    seq(n, i => base + i)
  }

  /** Issues a whole quota of probes at once and returns their exact range. */
  function BeginFreshHalfOpenCycle(b: Breaker): (Breaker, HalfOpenCycle) {
    var quota := b.config.probes;
    var g := NextGeneration(b.generation);
    (b.(state := HalfOpen, generation := g, pending := Range(b.nextProbeId, quota), issued := quota, completed := 0,
        nextProbeId := b.nextProbeId + quota),
     HalfOpenCycle(g, b.nextProbeId, quota))
  }

  function Evaluate(b: Breaker, now: int): Breaker {
    if Trips(b.config, Aggregate(b, now, true), Aggregate(b, now, false)) then Opened(b, now) else b
  }

  function Without(ids: seq<nat>, id: nat): (r: seq<nat>)
    ensures id !in ids ==> r == ids
    ensures id in ids ==> |r| == |ids| - 1 && multiset(r) + multiset{id} == multiset(ids)
  {
    if ids == [] then []
    else
      assert ids == [ids[0]] + ids[1..];
      if ids[0] == id then ids[1..] else [ids[0]] + Without(ids[1..], id)
  }

  /** RecordSuccess and RecordFailure. */
  function Record(b: Breaker, now: int, permit: RequestPermit, ok: bool): Breaker
    requires Shape(b)
  {
    var a := AdvanceTo(b, now);
    if permit.generation != a.generation then a
    else match a.state
      case Closed =>
        if !permit.selection.Allowed? then a
        else Evaluate(a.(buckets := a.buckets[a.activeIndex := Increment(a.buckets[a.activeIndex], ok)]), now)
      case HalfOpen =>
        if !permit.selection.Probe? || permit.probeId !in a.pending then a
        else
          var c := a.(pending := Without(a.pending, permit.probeId));
          if !ok then Opened(c, now)
          else if c.completed + 1 == c.config.probes then ClosedAgain(c.(completed := c.completed + 1))
          else c.(completed := c.completed + 1)
      case Open => a
  }

  function Select(b: Breaker, now: int): (Breaker, RequestPermit)
    requires Shape(b)
  {
    var a := AdvanceTo(b, now);
    match a.state
    case Closed => (a, RequestPermit(Allowed, a.generation, 0))
    case Open =>
      if now < a.openUntil then (a, RequestPermit(RejectedOpen, a.generation, 0))
      else
        var h := BeginHalfOpen(a);
        (h, RequestPermit(Probe, h.generation, a.nextProbeId))
    case HalfOpen =>
      if a.issued < a.config.probes then
        (a.(issued := a.issued + 1, pending := a.pending + [a.nextProbeId], nextProbeId := a.nextProbeId + 1),
         RequestPermit(Probe, a.generation, a.nextProbeId))
      else (a, RequestPermit(RejectedHalfOpenQuota, a.generation, 0))
  }

  // ---------------------------------------------------------------- migration

  datatype BucketSnapshot = BucketSnapshot(age: int, success: nat, failure: nat)
  datatype Snapshot = Snapshot(state: State, buckets: seq<BucketSnapshot>, openRemaining: int, quota: nat, generation: nat)

  /** A bucket start of zero is the program's mark for "never opened". */
  predicate Exported(b: Bucket, now: int, window: int) {
    b.start != 0 && b.start <= now && now - b.start < window
  }

  function ExportBuckets(buckets: seq<Bucket>, now: int, window: int): seq<BucketSnapshot> {
    if buckets == [] then []
    else
      var rest := ExportBuckets(buckets[..|buckets| - 1], now, window);
      var b := buckets[|buckets| - 1];
      if Exported(b, now, window) then rest + [BucketSnapshot(now - b.start, b.success, b.failure)] else rest
  }

  function Export(b: Breaker, now: int): Snapshot {
    match b.state
    case Closed => Snapshot(Closed, ExportBuckets(b.buckets, now, WindowNs(b.config)), 0, 0, b.generation)
    case Open => Snapshot(Open, [], if now < b.openUntil then b.openUntil - now else 0, 0, b.generation)
    case HalfOpen => Snapshot(HalfOpen, [], 0, b.config.probes, b.generation)
  }

  /** How many buckets back an exported bucket goes; None when it is too old to keep. */
  function StepsBack(config: Config, source: BucketSnapshot): (r: Option<nat>)
    requires ValidConfig(config)
    ensures r.Some? ==> r.value < BUCKETS && r.value == source.age / BucketNs(config)
    ensures r.Some? <==> 0 <= source.age < WindowNs(config)
  {
    if source.age < 0 || source.age >= WindowNs(config) then None
    else
      DivMonotone(0, source.age, BucketNs(config));
      DivMonotone(source.age, BUCKETS * BucketNs(config) - 1, BucketNs(config));
      DivUnique(BUCKETS * BucketNs(config) - 1, BucketNs(config), BUCKETS - 1, BucketNs(config) - 1);
      Some(source.age / BucketNs(config))
  }

  function ImportOne(config: Config, target: seq<Bucket>, source: BucketSnapshot, now: int): (r: seq<Bucket>)
    requires ValidConfig(config) && |target| == BUCKETS
    ensures |r| == BUCKETS
  {
    var steps := StepsBack(config, source);
    if steps.None? then target
    else
      var index := (BUCKETS - steps.value) % BUCKETS;
      var b := target[index];
      var start := if b.start == 0 then now - steps.value * BucketNs(config) else b.start;
      target[index := Bucket(start, (b.success + source.success) % COUNT_WRAP, (b.failure + source.failure) % COUNT_WRAP)]
  }

  function ImportBuckets(config: Config, target: seq<Bucket>, sources: seq<BucketSnapshot>, now: int): (r: seq<Bucket>)
    requires ValidConfig(config) && |target| == BUCKETS
    ensures |r| == BUCKETS
  {
    if sources == [] then target
    else ImportOne(config, ImportBuckets(config, target, sources[..|sources| - 1], now), sources[|sources| - 1], now)
  }

  /** Everything an import resets before it looks at the exported state. */
  function Blank(b: Breaker, generation: nat, now: int): Breaker {
    b.(generation := NextGeneration(generation), nextProbeId := 1, pending := [], issued := 0, completed := 0,
       openUntil := 0, epoch := now, activeStart := now, activeIndex := 0, initialized := true,
       buckets := NoBuckets()[0 := Bucket(now, 0, 0)])
  }

  function Import(b: Breaker, s: Snapshot, now: int): (Breaker, Option<HalfOpenCycle>)
    requires ValidConfig(b.config)
  {
    var blank := Blank(b, s.generation, now);
    if s.state.Closed? then
      (blank.(state := Closed, buckets := ImportBuckets(b.config, blank.buckets, s.buckets, now)), None)
    else if s.state.Open? && s.openRemaining > 0 then
      (blank.(state := Open, openUntil := now + s.openRemaining), None)
    else
      var (h, cycle) := BeginFreshHalfOpenCycle(blank);
      (h, Some(cycle))
  }

  // ---------------------------------------------------------------- the object

  class CircuitBreaker {
    const config: Config
    var state: State
    var epoch: int
    var activeStart: int
    var activeIndex: nat
    var initialized: bool
    const buckets: array<Bucket>
    var openUntil: int
    var generation: nat
    var nextProbeId: nat
    var pending: seq<nat>
    var issued: nat
    var completed: nat

    ghost function View(): Breaker
      reads this, buckets
    {
      Breaker(config, state, epoch, activeStart, activeIndex, initialized, buckets[..], openUntil, generation,
              nextProbeId, pending, issued, completed)
    }

    constructor (config: Config, now: int)
      requires ValidConfig(config)
      ensures View() == New(config, now) && fresh(buckets)
    {
      this.config := config;
      state, epoch, activeStart, activeIndex, initialized := Closed, now, 0, 0, false;
      buckets := new Bucket[BUCKETS](_ => NO_BUCKET);
      openUntil, generation, nextProbeId, pending, issued, completed := 0, 1, 1, [], 0, 0;
      new;
      assert buckets[..] == NoBuckets();
    }

    method ClearBuckets()
      requires buckets.Length == BUCKETS
      modifies buckets
      ensures buckets[..] == NoBuckets()
    {
      for n := 0 to BUCKETS
        invariant forall k :: 0 <= k < n ==> buckets[k] == NO_BUCKET
      {
        buckets[n] := NO_BUCKET;
      }
    }

    method StepBuckets(skipped: nat)
      requires Shape(View())
      modifies this, buckets
      ensures View() == StepMany(old(View()), skipped)
    {
      var count := skipped;
      while count > 0
        invariant 0 <= count <= skipped && Shape(View())
        invariant StepMany(View(), count) == StepMany(old(View()), skipped)
      {
        ghost var before := View();
        activeStart := activeStart + BucketNs(config);
        activeIndex := (activeIndex + 1) % BUCKETS;
        buckets[activeIndex] := Bucket(activeStart, 0, 0);
        assert View() == StepOne(before);
        count := count - 1;
      }
    }

    method Advance(now: int)
      requires Shape(View())
      modifies this, buckets
      ensures View() == AdvanceTo(old(View()), now)
    {
      if now < epoch { return; }
      var d := BucketNs(config);
      if !initialized {
        activeStart, activeIndex := epoch, 0;
        buckets[0] := Bucket(epoch, 0, 0);
        initialized := true;
      }
      ghost var i := Initialized(old(View()));
      assert View() == i;
      if now < activeStart + d { return; }
      var skipped := (now - activeStart) / d;
      DivMonotone(0, now - activeStart, d);
      if skipped >= BUCKETS {
        ClearBuckets();
        activeStart := now - (now - epoch) % d;
        activeIndex := ((now - epoch) / d) % BUCKETS;
        buckets[activeIndex] := Bucket(activeStart, 0, 0);
      } else {
        StepBuckets(skipped);
      }
    }

    method AggregateNow(now: int) returns (success: nat, failure: nat)
      requires Shape(View())
      ensures success == Aggregate(View(), now, true) && failure == Aggregate(View(), now, false)
    {
      success, failure := 0, 0;
      for n := 0 to BUCKETS
        invariant success == Tally(buckets[..], now - WindowNs(config), true, n)
        invariant failure == Tally(buckets[..], now - WindowNs(config), false, n)
      {
        if buckets[n].start > now - config.window * NS_PER_MS {
          success := success + buckets[n].success;
          failure := failure + buckets[n].failure;
        }
      }
    }

    method OpenNow(now: int)
      modifies this
      ensures View() == Opened(old(View()), now)
    {
      state, openUntil := Open, now + config.openDuration * NS_PER_MS;
      generation := NextGeneration(generation);
      pending, issued, completed := [], 0, 0;
    }

    method CloseNow()
      requires Shape(View())
      modifies this, buckets
      ensures View() == ClosedAgain(old(View()))
    {
      state, generation := Closed, NextGeneration(generation);
      pending, issued, completed := [], 0, 0;
      ClearBuckets();
      initialized, activeIndex := false, 0;
    }

    method RecordResult(now: int, permit: RequestPermit, ok: bool)
      requires Shape(View())
      modifies this, buckets
      ensures View() == Record(old(View()), now, permit, ok)
    {
      Advance(now);
      if permit.generation != generation { return; }
      ghost var a := View();
      match state
      case Closed =>
        if !permit.selection.Allowed? { return; }
        buckets[activeIndex] := Increment(buckets[activeIndex], ok);
        assert View() == a.(buckets := a.buckets[a.activeIndex := Increment(a.buckets[a.activeIndex], ok)]);
        var success, failure := AggregateNow(now);
        if Trips(config, success, failure) { OpenNow(now); }
      case HalfOpen =>
        if !permit.selection.Probe? || permit.probeId !in pending { return; }
        pending := Without(pending, permit.probeId);
        if !ok {
          OpenNow(now);
        } else {
          completed := completed + 1;
          if completed == config.probes { CloseNow(); }
        }
      case Open =>
    }

    method SelectNow(now: int) returns (permit: RequestPermit)
      requires Shape(View())
      modifies this, buckets
      ensures (View(), permit) == Select(old(View()), now)
    {
      Advance(now);
      match state
      case Closed => permit := RequestPermit(Allowed, generation, 0);
      case Open =>
        if now < openUntil { return RequestPermit(RejectedOpen, generation, 0); }
        state, generation := HalfOpen, NextGeneration(generation);
        permit := RequestPermit(Probe, generation, nextProbeId);
        pending, issued, completed, nextProbeId := [nextProbeId], 1, 0, nextProbeId + 1;
      case HalfOpen =>
        if issued < config.probes {
          issued, pending := issued + 1, pending + [nextProbeId];
          permit := RequestPermit(Probe, generation, nextProbeId);
          nextProbeId := nextProbeId + 1;
        } else {
          permit := RequestPermit(RejectedHalfOpenQuota, generation, 0);
        }
    }

    method ExportSnapshot(now: int) returns (s: Snapshot)
      requires Shape(View())
      ensures s == Export(View(), now)
    {
      if state.Open? {
        return Snapshot(Open, [], if now < openUntil then openUntil - now else 0, 0, generation);
      }
      if state.HalfOpen? { return Snapshot(HalfOpen, [], 0, config.probes, generation); }
      var exported: seq<BucketSnapshot> := [];
      for n := 0 to BUCKETS
        invariant exported == ExportBuckets(buckets[..n], now, WindowNs(config))
      {
        assert buckets[..n + 1][..n] == buckets[..n];
        if buckets[n].start == 0 || buckets[n].start > now || now - buckets[n].start >= config.window * NS_PER_MS {
          continue;
        }
        exported := exported + [BucketSnapshot(now - buckets[n].start, buckets[n].success, buckets[n].failure)];
      }
      assert buckets[..BUCKETS] == buckets[..];
      s := Snapshot(Closed, exported, 0, 0, generation);
    }

    method ImportSnapshot(s: Snapshot, now: int) returns (cycle: Option<HalfOpenCycle>)
      requires Shape(View())
      modifies this, buckets
      ensures (View(), cycle) == Import(old(View()), s, now)
    {
      Reset(s.generation, now);
      if s.state.Closed? {
        state := Closed;
        ImportAll(s.buckets, now);
        return None;
      }
      if s.state.Open? && s.openRemaining > 0 {
        state, openUntil := Open, now + s.openRemaining;
        return None;
      }
      var issuedCycle := BeginCycle();
      cycle := Some(issuedCycle);
    }

    /** Forget everything under the next generation, with an empty window from now on. */
    method Reset(exported: nat, now: int)
      requires Shape(View())
      modifies this, buckets
      ensures View() == Blank(old(View()), exported, now) && Shape(View())
    {
      generation := NextGeneration(exported);
      nextProbeId, pending, issued, completed, openUntil := 1, [], 0, 0, 0;
      epoch, activeStart, activeIndex, initialized := now, now, 0, true;
      ClearBuckets();
      buckets[0] := Bucket(now, 0, 0);
    }

    method ImportAll(sources: seq<BucketSnapshot>, now: int)
      requires Shape(View())
      modifies buckets
      ensures buckets[..] == ImportBuckets(config, old(buckets[..]), sources, now)
    {
      for n := 0 to |sources|
        invariant buckets[..] == ImportBuckets(config, old(buckets[..]), sources[..n], now)
      {
        assert sources[..n + 1][..n] == sources[..n];
        ImportBucket(sources[n], now);
      }
      assert sources[..|sources|] == sources;
    }

    method ImportBucket(source: BucketSnapshot, now: int)
      requires Shape(View())
      modifies buckets
      ensures buckets[..] == ImportOne(config, old(buckets[..]), source, now)
    {
      if source.age < 0 || source.age >= config.window * NS_PER_MS { return; }
      var steps := StepsBack(config, source).value;
      var index := (BUCKETS - steps) % BUCKETS;
      var b := buckets[index];
      var start := if b.start == 0 then now - steps * BucketNs(config) else b.start;
      buckets[index] := Bucket(start, (b.success + source.success) % COUNT_WRAP, (b.failure + source.failure) % COUNT_WRAP);
    }

    method BeginCycle() returns (cycle: HalfOpenCycle)
      modifies this
      ensures (View(), cycle) == BeginFreshHalfOpenCycle(old(View()))
    {
      state, generation := HalfOpen, NextGeneration(generation);
      pending, completed, issued := [], 0, config.probes;
      var base := nextProbeId;
      for index := 0 to config.probes
        invariant pending == Range(base, index) && nextProbeId == base + index
        invariant View() == BeginFreshHalfOpenCycle(old(View())).0.(pending := pending, nextProbeId := nextProbeId)
      {
        pending := pending + [nextProbeId];
        nextProbeId := nextProbeId + 1;
      }
      cycle := HalfOpenCycle(generation, base, config.probes);
    }
  }
}
