/** Carrying a breaker across a configuration reload: what an import keeps of the exported
    window, when each imported count expires, and that no earlier permit survives. */
module BreakerMigration {
  import opened Arith
  import opened Attempts
  import opened CircuitBreakers
  import opened BreakerWindow

  /** The exported counts as log entries on the importer's own grid. */
  ghost function ImportedLog(config: Config, sources: seq<BucketSnapshot>, now: int): seq<Entry>
    requires ValidConfig(config)
  {
    if sources == [] then []
    else
      var rest := ImportedLog(config, sources[..|sources| - 1], now);
      var source := sources[|sources| - 1];
      var steps := StepsBack(config, source);
      if steps.None? then rest
      else rest + [Entry(now - steps.value * BucketNs(config), source.success, source.failure)]
  }

  lemma SlotBehind(steps: int, k: int)
    requires 0 <= steps < BUCKETS && -10 < k <= 0
    ensures (BUCKETS - steps) % BUCKETS == k % BUCKETS <==> k == -steps
  {
  }

  lemma AddOneKeepsWindow(b: Breaker, log: seq<Entry>, source: BucketSnapshot, now: int, steps: int)
    requires Window(b, log) && b.epoch == b.activeStart == now && ActiveNo(b) == 0 && steps >= 0
    requires StepsBack(b.config, source) == Some(steps)
    ensures Window(b.(buckets := ImportOne(b.config, b.buckets, source, now)),
                   log + [Entry(now - steps * BucketNs(b.config), source.success, source.failure)])
  {
    var g := GridOf(b);
    var e := Entry(now - steps * g.width, source.success, source.failure);
    var c := b.(buckets := ImportOne(b.config, b.buckets, source, now));
    assert e.time == BucketStart(g, -steps) by { assert (-steps) * g.width == -(steps * g.width); }
    StartOfNo(g, -steps);
    forall k | -10 < k <= 0 ensures BucketOk(g, log + [e], k, c.buckets[k % BUCKETS]) {
      AddOneBucket(g, log, e, k, b.buckets, c.buckets, steps);
    }
    SlotBehind(steps, 0);
  }

  lemma AddOneBucket(g: Grid, log: seq<Entry>, e: Entry, k: int, from: seq<Bucket>, to: seq<Bucket>, steps: int)
    requires g.width > 0 && |from| == BUCKETS && 0 <= steps < BUCKETS && -10 < k <= 0
    requires BucketOk(g, log, k, from[k % BUCKETS])
    requires BucketNo(g, e.time) == -steps && e.time == BucketStart(g, -steps)
    requires var index := (BUCKETS - steps) % BUCKETS; var b := from[index];
             to == from[index := Bucket(if b.start == 0 then e.time else b.start,
                                        (b.success + e.successes) % COUNT_WRAP, (b.failure + e.failures) % COUNT_WRAP)]
    ensures BucketOk(g, log + [e], k, to[k % BUCKETS])
  {
    SlotBehind(steps, k);
    CountAppend(g, log, e, k, true);
    CountAppend(g, log, e, k, false);
    if k == -steps { AddedBucket(g, log, e, k, from[k % BUCKETS]); }
  }

  lemma AddedBucket(g: Grid, log: seq<Entry>, e: Entry, k: int, b: Bucket)
    requires g.width > 0 && BucketOk(g, log, k, b) && BucketNo(g, e.time) == k && e.time == BucketStart(g, k)
    ensures BucketOk(g, log + [e], k, Bucket(if b.start == 0 then e.time else b.start,
                                             (b.success + e.successes) % COUNT_WRAP, (b.failure + e.failures) % COUNT_WRAP))
  {
    CountAppend(g, log, e, k, true);
    CountAppend(g, log, e, k, false);
    ModAdd(Count(g, log, k, true), e.successes, COUNT_WRAP);
    ModAdd(Count(g, log, k, false), e.failures, COUNT_WRAP);
  }

  lemma {:induction false} ImportKeepsWindow(b: Breaker, sources: seq<BucketSnapshot>, now: int)
    requires Window(b, []) && b.epoch == b.activeStart == now && ActiveNo(b) == 0
    ensures Window(b.(buckets := ImportBuckets(b.config, b.buckets, sources, now)), ImportedLog(b.config, sources, now))
  {
    if sources != [] {
      var rest := sources[..|sources| - 1];
      ImportKeepsWindow(b, rest, now);
      var m := b.(buckets := ImportBuckets(b.config, b.buckets, rest, now));
      var source := sources[|sources| - 1];
      if StepsBack(b.config, source).Some? {
        AddOneKeepsWindow(m, ImportedLog(b.config, rest, now), source, now, StepsBack(b.config, source).value);
      }
    }
  }

  /** Whatever a Closed snapshot holds, the importer's ring counts exactly its in-window buckets,
      so everything proved of a running window applies to the importer from then on. */
  lemma ImportIsReady(b: Breaker, s: Snapshot, now: int)
    requires Shape(b) && s.state.Closed?
    ensures var r := Import(b, s, now).0;
            && r.state.Closed? && r.config == b.config && r.epoch == now
            && Ready(r, ImportedLog(b.config, s.buckets, now), now) && r.initialized && ActiveNo(r) == 0
  {
    var blank := Blank(b, s.generation, now).(state := Closed);
    StartOfNo(GridOf(blank), 0);
    assert forall k :: -10 < k <= 0 ==> BucketOk(GridOf(blank), [], k, blank.buckets[k % BUCKETS]);
    ImportKeepsWindow(blank, s.buckets, now);
  }

  // ---------------------------------------------------------------- totals

  /** Counts in live buckets whose start is exactly the clock's zero, which an export skips. */
  function Dropped(buckets: seq<Bucket>, cutoff: int, ok: bool, n: nat): nat
    requires n <= |buckets|
  {
    if n == 0 then 0
    else Dropped(buckets, cutoff, ok, n - 1)
         + if buckets[n - 1].start == 0 && 0 > cutoff then Part(buckets[n - 1], ok) else 0
  }

  /** Where an exported bucket lands on a grid that starts at `now`. */
  function Landing(width: int, start: int, now: int): int
    requires width > 0
  {
    now - ((now - start) / width) * width
  }

  /** A bucket lands as many buckets back as its number lies behind `now`: never before its own
      start, and less than one bucket after it. */
  lemma ExportedLanding(b: Breaker, log: seq<Entry>, now: int, i: nat)
    requires Window(b, log) && b.activeStart <= now && i < BUCKETS
    requires Exported(b.buckets[i], now, WindowNs(b.config))
    ensures var steps := (now - b.buckets[i].start) / BucketNs(b.config);
            && 0 <= steps < BUCKETS
            && StepsBack(b.config, BucketSnapshot(now - b.buckets[i].start, b.buckets[i].success, b.buckets[i].failure)) == Some(steps)
            && (BucketNo(GridOf(b), now) - steps) % BUCKETS == i
            && b.buckets[i].start <= Landing(BucketNs(b.config), b.buckets[i].start, now)
            && Landing(BucketNs(b.config), b.buckets[i].start, now) < b.buckets[i].start + BucketNs(b.config)
  {
    var g, top := GridOf(b), ActiveNo(b);
    var k := SlotOwner(top, i);
    assert BucketOk(g, log, k, b.buckets[i]);
    LandingOf(g, b.buckets[i].start, k, now);
  }

  /** A bucket on the grid lands where its own number puts it, less than one bucket late. */
  lemma LandingOf(g: Grid, start: int, k: int, now: int)
    requires g.width > 0 && start == BucketStart(g, k)
    ensures BucketNo(g, now) - (now - start) / g.width == k
    ensures start <= Landing(g.width, start, now) < start + g.width
  {
    var age := now - start;
    DivShift(age, k, g.width);
    assert now - g.epoch == age + k * g.width;
    assert age == (age / g.width) * g.width + age % g.width;
  }

  /** A live, non-empty bucket has opened by `now`. */
  lemma StartedBy(b: Breaker, log: seq<Entry>, now: int, i: nat)
    requires Window(b, log) && b.activeStart <= now && i < BUCKETS
    ensures b.buckets[i].start <= now || b.buckets[i] == NO_BUCKET
  {
    var g, top := GridOf(b), ActiveNo(b);
    var k := top - (top - i) % BUCKETS;
    assert k % BUCKETS == i;
    assert BucketOk(g, log, k, b.buckets[i]);
    MulMonotone(k, top, g.width);
  }

  /** The part of the first `n` ring slots exported at t0, as an importer logs it at t1. */
  ghost function Logged(b: Breaker, t0: int, t1: int, n: nat): seq<Entry>
    requires ValidConfig(b.config) && n <= |b.buckets|
  {
    ImportedLog(b.config, ExportBuckets(b.buckets[..n], t0, WindowNs(b.config)), t1)
  }

  /** One more ring slot adds its counts at the place where it lands, or nothing. */
  lemma LoggedNext(b: Breaker, log: seq<Entry>, t0: int, t1: int, i: nat)
    requires Window(b, log) && b.activeStart <= t0 && i < BUCKETS
    ensures var s := b.buckets[i];
            Logged(b, t0, t1, i + 1) ==
            if Exported(s, t0, WindowNs(b.config))
            then Logged(b, t0, t1, i) + [Entry(Landing(BucketNs(b.config), s.start, t0) + t1 - t0, s.success, s.failure)]
            else Logged(b, t0, t1, i)
  {
    var w, s := WindowNs(b.config), b.buckets[i];
    assert b.buckets[..i + 1][..i] == b.buckets[..i];
    if Exported(s, t0, w) {
      ExportedLanding(b, log, t0, i);
      var before := ExportBuckets(b.buckets[..i], t0, w);
      var source := BucketSnapshot(t0 - s.start, s.success, s.failure);
      assert ExportBuckets(b.buckets[..i + 1], t0, w) == before + [source];
      assert (before + [source])[..|before|] == before;
    }
  }

  lemma LandingOnGrid(width: int, start: int, t0: int, t1: int)
    requires width > 0
    ensures var g, at := Grid(t1, width), Landing(width, start, t0) + t1 - t0;
            BucketNo(g, at) == -((t0 - start) / width) && BucketStart(g, BucketNo(g, at)) == at
  {
    var g, steps := Grid(t1, width), (t0 - start) / width;
    assert Landing(width, start, t0) + t1 - t0 == BucketStart(g, -steps) by { assert (-steps) * width == -(steps * width); }
    StartOfNo(g, -steps);
  }

  lemma LiveAppend(g: Grid, log: seq<Entry>, e: Entry, cutoff: int, ok: bool)
    requires g.width > 0 && BucketStart(g, BucketNo(g, e.time)) == e.time
    ensures LiveCount(g, log + [e], cutoff, ok) == LiveCount(g, log, cutoff, ok) + if e.time > cutoff then EntryPart(e, ok) else 0
  {
    assert (log + [e])[..|log|] == log;
  }

  /** What one ring slot adds to the importer's live count. */
  lemma SlotContribution(b: Breaker, log: seq<Entry>, t0: int, t1: int, cutoff: int, ok: bool, i: nat)
    requires Window(b, log) && b.activeStart <= t0 && i < BUCKETS
    ensures var g, s := Grid(t1, BucketNs(b.config)), b.buckets[i];
            LiveCount(g, Logged(b, t0, t1, i + 1), cutoff, ok) ==
            LiveCount(g, Logged(b, t0, t1, i), cutoff, ok)
            + if Exported(s, t0, WindowNs(b.config)) && Landing(g.width, s.start, t0) + t1 - t0 > cutoff then Part(s, ok) else 0
  {
    var g, s := Grid(t1, BucketNs(b.config)), b.buckets[i];
    LoggedNext(b, log, t0, t1, i);
    if Exported(s, t0, WindowNs(b.config)) {
      LandingOnGrid(g.width, s.start, t0, t1);
      LiveAppend(g, Logged(b, t0, t1, i), Entry(Landing(g.width, s.start, t0) + t1 - t0, s.success, s.failure), cutoff, ok);
    }
  }

  /** The importer's log holds, of each kind, the live total at the export less what the export drops;
      later, every count is live at least as long as in the source, and at most the time between
      export and import and one bucket longer. */
  lemma {:induction false} ExportedTotals(b: Breaker, log: seq<Entry>, t0: int, t1: int, at: int, ok: bool, n: nat)
    requires Window(b, log) && b.activeStart <= t0 <= t1 <= at && n <= BUCKETS
    ensures var w, g, sourceTime := WindowNs(b.config), Grid(t1, BucketNs(b.config)), at - (t1 - t0);
            var live := LiveCount(g, Logged(b, t0, t1, n), at - w, ok);
            && Tally(b.buckets, sourceTime - w, ok, n) - Dropped(b.buckets, sourceTime - w, ok, n) <= live
            && live <= Tally(b.buckets, sourceTime - g.width - w, ok, n)
            && (at == t1 ==> live == Tally(b.buckets, sourceTime - w, ok, n) - Dropped(b.buckets, sourceTime - w, ok, n))
  {
    if n > 0 {
      var w, i := WindowNs(b.config), n - 1;
      ExportedTotals(b, log, t0, t1, at, ok, i);
      StartedBy(b, log, t0, i);
      SlotContribution(b, log, t0, t1, at - w, ok, i);
      if Exported(b.buckets[i], t0, w) { ExportedLanding(b, log, t0, i); }
    }
  }

  // ---------------------------------------------------------------- the importer's counters

  /** Two different ring slots never land in the same importer bucket. */
  lemma {:induction false} OneSlotPerBucket(b: Breaker, log: seq<Entry>, t0: int, t1: int, k: int, ok: bool, n: nat)
    requires Window(b, log) && b.activeStart <= t0 && n <= BUCKETS && -10 < k <= 0
    ensures var count := Count(Grid(t1, BucketNs(b.config)), Logged(b, t0, t1, n), k, ok);
            count == 0 || (count < COUNT_WRAP && (BucketNo(GridOf(b), t0) + k) % BUCKETS < n)
  {
    if n > 0 {
      var g, i := Grid(t1, BucketNs(b.config)), n - 1;
      var s := b.buckets[i];
      OneSlotPerBucket(b, log, t0, t1, k, ok, i);
      LoggedNext(b, log, t0, t1, i);
      if Exported(s, t0, WindowNs(b.config)) {
        ExportedLanding(b, log, t0, i);
        LandingOnGrid(g.width, s.start, t0, t1);
        CountAppend(g, Logged(b, t0, t1, i), Entry(Landing(g.width, s.start, t0) + t1 - t0, s.success, s.failure), k, ok);
        SlotBounded(b, log, i, ok);
      }
    }
  }

  lemma SlotBounded(b: Breaker, log: seq<Entry>, i: nat, ok: bool)
    requires Window(b, log) && i < BUCKETS
    ensures Part(b.buckets[i], ok) < COUNT_WRAP
  {
    var top := ActiveNo(b);
    var k := top - (top - i) % BUCKETS;
    assert k % BUCKETS == i;
    assert BucketOk(GridOf(b), log, k, b.buckets[i]);
  }

  // ---------------------------------------------------------------- the theorems

  /** Exporting a Closed breaker at t0 and importing it under the same policy at t1 keeps the windowed
      totals of t0 exactly when no live bucket with counts starts at the clock's zero.  At every later
      instant, before any new result, each count has lived at least as long as it would have in the
      source, and longer only by the time between export and import and less than one bucket. */
  lemma MigrationKeepsTotals(b: Breaker, log: seq<Entry>, last: int, target: Breaker, t0: int, t1: int, at: int, ok: bool)
    requires b.state.Closed? && Ready(b, log, last) && last <= t0 <= t1 <= at
    requires Shape(target) && target.config == b.config
    ensures var r := Import(target, Export(b, t0), t1).0;
            var w, sourceTime := WindowNs(b.config), at - (t1 - t0);
            && Shape(r)
            && Aggregate(r, t1, ok) == Aggregate(b, t0, ok) - Dropped(b.buckets, t0 - w, ok, BUCKETS)
            && (Aggregate(r, t1, ok) == Aggregate(b, t0, ok) <==> Dropped(b.buckets, t0 - w, ok, BUCKETS) == 0)
            && Aggregate(b, sourceTime, ok) - Dropped(b.buckets, sourceTime - w, ok, BUCKETS) <= Aggregate(AdvanceTo(r, at), at, ok)
            && Aggregate(AdvanceTo(r, at), at, ok) <= Aggregate(b, sourceTime - BucketNs(b.config), ok)
  {
    var s := Export(b, t0);
    var r := Import(target, s, t1).0;
    var log' := ImportedLog(b.config, s.buckets, t1);
    ImportIsReady(target, s, t1);
    AdvanceKeepsWindow(r, log', t1, t1);
    assert AdvanceTo(r, t1) == r;
    if b.initialized {
      ImportedAt(b, log, t0, t1, r, log', t1, ok);
      ImportedAt(b, log, t0, t1, r, log', at, ok);
    } else {
      NothingExported(b.buckets, t0, WindowNs(b.config));
      NothingThere(r, t1, t1, ok);
      NothingThere(r, t1, at, ok);
      NothingCounted(b.buckets, t0 - WindowNs(b.config), ok, BUCKETS);
      NothingCounted(b.buckets, at - (t1 - t0) - WindowNs(b.config), ok, BUCKETS);
    }
  }

  /** An importer of an empty snapshot counts nothing until a result comes. */
  lemma NothingThere(r: Breaker, t1: int, at: int, ok: bool)
    requires Ready(r, [], t1) && t1 <= at
    ensures Aggregate(AdvanceTo(r, at), at, ok) == 0
  {
    AdvanceKeepsWindow(r, [], t1, at);
    WithinBucket(GridOf(r), at);
    AggregateIsLiveCount(AdvanceTo(r, at), [], at, ok);
  }

  lemma {:induction false} NothingExported(buckets: seq<Bucket>, now: int, window: int)
    requires forall i :: 0 <= i < |buckets| ==> buckets[i] == NO_BUCKET
    ensures ExportBuckets(buckets, now, window) == []
  {
    if buckets != [] { NothingExported(buckets[..|buckets| - 1], now, window); }
  }

  lemma {:induction false} NothingCounted(buckets: seq<Bucket>, cutoff: int, ok: bool, n: nat)
    requires n <= |buckets| && forall i :: 0 <= i < |buckets| ==> buckets[i] == NO_BUCKET
    ensures Tally(buckets, cutoff, ok, n) == 0 && Dropped(buckets, cutoff, ok, n) == 0
  {
    if n > 0 { NothingCounted(buckets, cutoff, ok, n - 1); }
  }

  /** The importer's aggregate at a later time, read off its log. */
  lemma ImportedAt(b: Breaker, log: seq<Entry>, t0: int, t1: int, r: Breaker, log': seq<Entry>, at: int, ok: bool)
    requires Window(b, log) && b.activeStart <= t0 <= t1 <= at
    requires log' == ImportedLog(b.config, ExportBuckets(b.buckets, t0, WindowNs(b.config)), t1)
    requires Ready(r, log', t1) && r.initialized && r.config == b.config && r.epoch == t1 && ActiveNo(r) == 0
    ensures var w, sourceTime := WindowNs(b.config), at - (t1 - t0);
            && Aggregate(b, sourceTime, ok) - Dropped(b.buckets, sourceTime - w, ok, BUCKETS) <= Aggregate(AdvanceTo(r, at), at, ok)
            && Aggregate(AdvanceTo(r, at), at, ok) <= Aggregate(b, sourceTime - BucketNs(b.config), ok)
            && (at == t1 ==> Aggregate(AdvanceTo(r, at), at, ok) == Aggregate(b, sourceTime, ok) - Dropped(b.buckets, sourceTime - w, ok, BUCKETS))
  {
    assert b.buckets[..BUCKETS] == b.buckets;
    ExportedTotals(b, log, t0, t1, at, ok, BUCKETS);
    ImportedLive(b, log, t0, t1, r, log', at, ok);
  }

  /** No importer counter wraps, so its aggregate is the live count of its log. */
  lemma ImportedLive(b: Breaker, log: seq<Entry>, t0: int, t1: int, r: Breaker, log': seq<Entry>, at: int, ok: bool)
    requires Window(b, log) && b.activeStart <= t0 <= t1 <= at
    requires log' == ImportedLog(b.config, ExportBuckets(b.buckets, t0, WindowNs(b.config)), t1)
    requires Ready(r, log', t1) && r.initialized && r.config == b.config && r.epoch == t1 && ActiveNo(r) == 0
    ensures Aggregate(AdvanceTo(r, at), at, ok) == LiveCount(Grid(t1, BucketNs(b.config)), log', at - WindowNs(b.config), ok)
  {
    var g := Grid(t1, BucketNs(b.config));
    assert b.buckets[..BUCKETS] == b.buckets;
    AdvanceKeepsWindow(r, log', t1, at);
    WithinBucket(g, at);
    var a := AdvanceTo(r, at);
    AggregateIsLiveCount(a, log', at, ok);
    DivMonotone(0, at - t1, g.width);
    forall k | ActiveNo(a) - BUCKETS < k <= ActiveNo(a) ensures Count(g, log', k, ok) < COUNT_WRAP {
      if k <= 0 {
        OneSlotPerBucket(b, log, t0, t1, k, ok, BUCKETS);
      } else {
        CountNone(g, log', k, ok);
      }
    }
  }

  /** A breaker Open at the export stays Open for exactly the time that was left then; an elapsed or
      half-open one starts a fresh cycle whose whole quota is pending and handed to the coordinator. */
  lemma MigrationKeepsProtection(b: Breaker, target: Breaker, t0: int, t1: int)
    requires Shape(b) && Shape(target) && target.config == b.config && !b.state.Closed?
    ensures var (r, cycle) := Import(target, Export(b, t0), t1);
            if b.state.Open? && t0 < b.openUntil then
              r.state.Open? && r.openUntil - t1 == b.openUntil - t0 && cycle.None?
            else
              && r.state.HalfOpen? && r.completed == 0 && r.issued == b.config.probes
              && cycle == Some(HalfOpenCycle(r.generation, 1, b.config.probes))
              && (forall id :: id in r.pending <==> 1 <= id < 1 + b.config.probes)
  {
    var (r, cycle) := Import(target, Export(b, t0), t1);
    if !(b.state.Open? && t0 < b.openUntil) {
      forall id | 1 <= id < 1 + b.config.probes ensures id in r.pending {
        assert r.pending[id - 1] == id;
      }
    }
  }

  // ---------------------------------------------------------------- permits

  /** The generation of the n-th epoch: 64-bit counting that skips zero. */
  function Epoch(n: nat): (g: nat)
    ensures 1 <= g < GENERATION_WRAP
  {
    1 + n % (GENERATION_WRAP - 1)
  }

  lemma NextEpoch(n: nat)
    ensures NextGeneration(Epoch(n)) == Epoch(n + 1)
  {
    var w := GENERATION_WRAP - 1;
    var q, r := n / w, n % w;
    if r + 1 < w { DivUnique(n + 1, w, q, r + 1); } else { DivUnique(n + 1, w, q + 1, 0); }
  }

  lemma EpochsCollide(m: nat, n: nat)
    requires m <= n
    ensures Epoch(m) == Epoch(n) <==> (n - m) % (GENERATION_WRAP - 1) == 0
  {
    var w: int := GENERATION_WRAP - 1;
    var q, r := m / w, m % w;
    DivShift(n - m + r, q, w);
    assert n == (n - m + r) + q * w;
    var d, e := (n - m) / w, (n - m) % w;
    if e + r < w { DivUnique(n - m + r, w, d, e + r); } else { DivUnique(n - m + r, w, d + 1, e + r - w); }
  }

  /** A permit issued at or before the export is refused by the importer - its result changes
      nothing but the clock - unless a whole multiple of 2^64 - 1 epochs has passed between. */
  lemma NoPermitSurvives(b: Breaker, n: nat, target: Breaker, t0: int, t1: int, m: nat, permit: RequestPermit, at: int, ok: bool)
    requires Shape(b) && Shape(target) && target.config == b.config
    requires b.generation == Epoch(n) && permit.generation == Epoch(m) && m <= n
    ensures var (r, cycle) := Import(target, Export(b, t0), t1);
            var epochs := if cycle.Some? then n + 2 - m else n + 1 - m;
            && Shape(r)
            && (permit.generation == r.generation <==> epochs % (GENERATION_WRAP - 1) == 0)
            && (permit.generation != r.generation ==> Record(r, at, permit, ok) == AdvanceTo(r, at))
            && (0 < epochs < GENERATION_WRAP - 1 ==> permit.generation != r.generation)
  {
    var (r, cycle) := Import(target, Export(b, t0), t1);
    NextEpoch(n);
    NextEpoch(n + 1);
    EpochsCollide(m, n + 1);
    EpochsCollide(m, n + 2);
    AdvanceFrame(r, at);
  }

  /** Any imported breaker can start a run: its ring describes the in-window part of the snapshot. */
  lemma ImportTracks(b: Breaker, s: Snapshot, now: int)
    requires Shape(b)
    ensures var log := if s.state.Closed? then ImportedLog(b.config, s.buckets, now) else [];
            Tracking(Tracked(Import(b, s, now).0, log, now))
  {
    if s.state.Closed? { ImportIsReady(b, s, now); }
  }
}
