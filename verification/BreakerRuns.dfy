/** Runs of one breaker: how long it stays open, and the runs at which the window, the export and the
    permit check stop meaning what they should. */
module BreakerRuns {
  import opened Arith
  import opened Attempts
  import opened CircuitBreakers
  import opened BreakerWindow
  import opened BreakerMigration

  // ---------------------------------------------------------------- an open breaker

  lemma OpenStep(b: Breaker, ev: Event)
    requires Shape(b) && b.state.Open? && ev.now < b.openUntil
    ensures var a := After(b, ev);
            Shape(a) && a.state.Open? && a.openUntil == b.openUntil && a.generation == b.generation && a.config == b.config
  {
    AdvanceFrame(b, ev.now);
  }

  /** Whatever results, selections and arming come before its deadline, in any order, an open breaker
      stays open with the same deadline and rejects every selection; at the deadline a selection gets a
      fresh probe. */
  lemma {:induction false} OpenHolds(t: Tracked, evs: seq<Event>, at: int)
    requires Shape(t.b) && t.b.state.Open? && forall i :: 0 <= i < |evs| ==> evs[i].now < t.b.openUntil
    ensures var r := TrackAll(t, evs);
            && r.Some? && Shape(r.value.b) && r.value.b.state.Open?
            && r.value.b.openUntil == t.b.openUntil && r.value.b.generation == t.b.generation
            && (if at < t.b.openUntil then Select(r.value.b, at).1.selection.RejectedOpen?
                else Select(r.value.b, at).1.selection.Probe? && Select(r.value.b, at).0.state.HalfOpen?)
    decreases |evs|
  {
    if evs == [] {
      AdvanceFrame(t.b, at);
    } else {
      OpenStep(t.b, evs[0]);
      OpenHolds(Track(t, evs[0]), evs[1..], at);
    }
  }

  // ---------------------------------------------------------------- longer runs

  lemma OneMore(first: Tracked, evs: seq<Event>, t: Tracked, ev: Event)
    requires Reached(first, evs, t) && t.last <= ev.now
    ensures Shape(t.b) && Reached(first, evs + [ev], Track(t, ev))
  {
    TrackAllKeeps(first, evs);
    assert evs == [] ==> t == first;
    forall i, j | 0 <= i < j < |evs + [ev]| ensures (evs + [ev])[i].now <= (evs + [ev])[j].now {
      if j == |evs| { assert evs[i].now <= evs[|evs| - 1].now; }
    }
    Appended(first, evs, t, ev);
  }

  lemma {:induction false} Appended(first: Tracked, evs: seq<Event>, t: Tracked, ev: Event)
    requires TrackAll(first, evs) == Some(t) && Shape(t.b)
    ensures TrackAll(first, evs + [ev]) == Some(Track(t, ev))
    decreases |evs|
  {
    if evs == [] {
      assert (evs + [ev])[1..] == [];
    } else {
      Appended(Track(first, evs[0]), evs[1..], t, ev);
      assert (evs + [ev])[1..] == evs[1..] + [ev];
    }
  }

  // ---------------------------------------------------------------- a counter that wraps

  /** A success counted at `start` in a bucket with no failures. */
  ghost predicate OnlySuccesses(t: Tracked, start: int, n: nat) {
    && t.b.state.Closed? && t.b.generation == 1 && t.last == t.b.epoch == start
    && |t.log| == n && forall i :: 0 <= i < n ==> t.log[i] == Entry(start, 1, 0)
  }

  lemma {:induction false} SuccessesCount(g: Grid, log: seq<Entry>, start: int, cutoff: int)
    requires g.width > 0 && g.epoch == start && cutoff < start
    requires forall i :: 0 <= i < |log| ==> log[i] == Entry(start, 1, 0)
    ensures Count(g, log, 0, true) == |log| == LiveCount(g, log, cutoff, true)
    ensures LiveCount(g, log, cutoff, false) == 0
  {
    DivUnique(0, g.width, 0, 0);
    if log != [] { SuccessesCount(g, log[..|log| - 1], start, cutoff); }
  }

  lemma SuccessKeepsClosed(t: Tracked, start: int, n: nat, ev: Event)
    requires Tracking(t) && OnlySuccesses(t, start, n) && ev == Outcome(start, RequestPermit(Allowed, 1, 0), true)
    ensures OnlySuccesses(Track(t, ev), start, n + 1)
  {
    AdvanceKeepsWindow(t.b, t.log, start, start);
    var a, e := AdvanceTo(t.b, start), Entry(start, 1, 0);
    CountedKeepsWindow(a, t.log, e, true);
    WithinBucket(GridOf(a), start);
    var c := a.(buckets := a.buckets[a.activeIndex := Increment(a.buckets[a.activeIndex], true)]);
    AggregateIsLiveCount(c, t.log + [e], start, false);
    SuccessesCount(GridOf(a), t.log + [e], start, start - WindowNs(a.config));
    NoFailuresNoTrip(a.config, Aggregate(c, start, true));
  }

  lemma NoFailuresNoTrip(config: Config, successes: nat)
    requires ValidConfig(config)
    ensures !Trips(config, successes, 0)
  {
    if successes > 0 { MulAtLeast(config.permille, successes); }
  }

  lemma {:induction false} Successes(config: Config, start: int, n: nat) returns (evs: seq<Event>, t: Tracked)
    requires ValidConfig(config)
    ensures Reached(Fresh(config, start), evs, t) && OnlySuccesses(t, start, n) && t.b.config == config
  {
    if n == 0 {
      FreshTracks(config, start);
      evs, t := [], Fresh(config, start);
    } else {
      evs, t := Successes(config, start, n - 1);
      TrackAllKeeps(Fresh(config, start), evs);
      var ev := Outcome(start, RequestPermit(Allowed, 1, 0), true);
      OneMore(Fresh(config, start), evs, t, ev);
      SuccessKeepsClosed(t, start, n - 1, ev);
      SameConfig(t.b, ev);
      evs, t := evs + [ev], Track(t, ev);
    }
  }

  lemma SameConfig(b: Breaker, ev: Event)
    requires Shape(b)
    ensures After(b, ev).config == b.config
  {
    AdvanceFrame(b, ev.now);
  }

  /** 2^32 successes in one bucket of any new breaker: the aggregate falls short of the log. */
  lemma CounterWraps(config: Config, start: int) returns (evs: seq<Event>, t: Tracked)
    requires ValidConfig(config)
    ensures Reached(Fresh(config, start), evs, t) && t.b.state.Closed? && Shape(t.b) && t.last == start
    ensures LiveCount(GridOf(t.b), t.log, start - WindowNs(config), true) == COUNT_WRAP
    ensures Aggregate(AdvanceTo(t.b, start), start, true) < COUNT_WRAP
  {
    evs, t := Successes(config, start, COUNT_WRAP);
    TrackAllKeeps(Fresh(config, start), evs);
    ClosedAggregateIsLogCount(Fresh(config, start), evs, t, start, true);
    var g := GridOf(t.b);
    SuccessesCount(g, t.log, start, start - WindowNs(config));
    DivUnique(0, g.width, 0, 0);
    assert Count(g, t.log, 0, true) == COUNT_WRAP && BucketNo(g, start) == 0;
  }

  // ---------------------------------------------------------------- a bucket at the clock's zero

  /** A breaker made at the clock's zero loses its first success when it is exported and imported. */
  lemma ZeroBucketLost(config: Config, target: Breaker)
    requires ValidConfig(config) && Shape(target) && target.config == config
    ensures var b := Record(New(config, 0), 0, RequestPermit(Allowed, 1, 0), true);
            && b.state.Closed? && Aggregate(b, 0, true) == 1
            && Aggregate(Import(target, Export(b, 0), 0).0, 0, true) == 0
  {
    FreshTracks(config, 0);
    var t, ev := Fresh(config, 0), Outcome(0, RequestPermit(Allowed, 1, 0), true);
    SuccessKeepsClosed(t, 0, 0, ev);
    TrackKeeps(t, ev);
    var t' := Track(t, ev);
    FirstBucket(t.b);
    SuccessesCount(GridOf(t'.b), t'.log, 0, 0 - WindowNs(config));
    OnlyFirst(t'.b.buckets, 0 - WindowNs(config), BUCKETS);
    MigrationKeepsTotals(t'.b, t'.log, 0, target, 0, 0, 0, true);
  }

  lemma FirstBucket(b: Breaker)
    requires Shape(b) && b == New(b.config, 0)
    ensures var c := Record(b, 0, RequestPermit(Allowed, 1, 0), true);
            c.buckets == NoBuckets()[0 := Bucket(0, 1, 0)] && c.config == b.config
  {
    var a := AdvanceTo(b, 0);
    assert a.buckets == NoBuckets()[0 := Bucket(0, 0, 0)];
    assert NoBuckets()[0 := Bucket(0, 0, 0)][0 := Bucket(0, 1, 0)] == NoBuckets()[0 := Bucket(0, 1, 0)];
  }

  lemma {:induction false} OnlyFirst(buckets: seq<Bucket>, cutoff: int, n: nat)
    requires buckets == NoBuckets()[0 := Bucket(0, 1, 0)] && n <= BUCKETS && cutoff < 0
    ensures Tally(buckets, cutoff, true, n) == Dropped(buckets, cutoff, true, n) == if n > 0 then 1 else 0
  {
    if n > 0 { OnlyFirst(buckets, cutoff, n - 1); }
  }

  // ---------------------------------------------------------------- a permit that comes back

  /** One failure opens it, one probe at a time. */
  const TOUCHY := Config(1000, 1, 500, 1000, 1)

  /** Open in the epoch with this number, with the deadline still to come. */
  ghost predicate OpenAt(t: Tracked, n: nat) {
    Tracking(t) && t.b.state.Open? && t.b.config == TOUCHY && t.b.generation == Epoch(n) && t.last <= t.b.openUntil
  }

  /** Arming at the deadline and a failed probe lead two epochs on. */
  lemma Reopened(first: Tracked, evs: seq<Event>, t: Tracked, n: nat) returns (evs': seq<Event>, t': Tracked)
    requires Reached(first, evs, t) && OpenAt(t, n)
    ensures Reached(first, evs', t') && OpenAt(t', n + 2)
  {
    var id := t.b.nextProbeId;
    var armed := Arming(t.b.openUntil);
    TrackKeeps(t, armed);
    OneMore(first, evs, t, armed);
    var m := Track(t, armed);
    NextEpoch(n);
    NextEpoch(n + 1);
    assert m.b.pending == [id] && m.b.state.HalfOpen? && m.b.generation == Epoch(n + 1);
    var failed := Outcome(t.b.openUntil, RequestPermit(Probe, m.b.generation, id), false);
    AdvanceFrame(m.b, failed.now);
    TrackKeeps(m, failed);
    OneMore(first, evs + [armed], m, failed);
    evs', t' := evs + [armed] + [failed], Track(m, failed);
  }

  lemma FirstOpening() returns (evs: seq<Event>, t: Tracked)
    ensures Reached(Fresh(TOUCHY, 0), evs, t) && OpenAt(t, 1) && t.b.nextProbeId == 1
  {
    FreshTracks(TOUCHY, 0);
    var first, ev := Fresh(TOUCHY, 0), Outcome(0, RequestPermit(Allowed, 1, 0), false);
    OneMore(first, [], first, ev);
    TrackKeeps(first, ev);
    evs, t := [] + [ev], Track(first, ev);
    AdvanceFrame(first.b, 0);
    NextEpoch(0);
    OneFailure();
  }

  lemma OneFailure()
    ensures var b := Record(New(TOUCHY, 0), 0, RequestPermit(Allowed, 1, 0), false);
            b.state.Open? && b.openUntil >= 0 && b.generation == NextGeneration(1) && b.config == TOUCHY && b.nextProbeId == 1
  {
    var a := AdvanceTo(New(TOUCHY, 0), 0);
    var c := a.(buckets := a.buckets[0 := Bucket(0, 0, 1)]);
    assert a.buckets == NoBuckets()[0 := Bucket(0, 0, 0)];
    FailureTally(c.buckets, 0 - WindowNs(TOUCHY), BUCKETS);
  }

  lemma {:induction false} FailureTally(buckets: seq<Bucket>, cutoff: int, n: nat)
    requires |buckets| == BUCKETS && cutoff < 0 && n <= BUCKETS && buckets[0] == Bucket(0, 0, 1)
    requires forall i :: 1 <= i < BUCKETS ==> buckets[i] == NO_BUCKET
    ensures Tally(buckets, cutoff, true, n) == 0 && Tally(buckets, cutoff, false, n) == if n > 0 then 1 else 0
  {
    if n > 0 { FailureTally(buckets, cutoff, n - 1); }
  }

  lemma {:induction false} ManyEpochs(k: nat) returns (evs: seq<Event>, t: Tracked)
    ensures Reached(Fresh(TOUCHY, 0), evs, t) && OpenAt(t, 2 * k + 1)
  {
    if k == 0 {
      evs, t := FirstOpening();
    } else {
      evs, t := ManyEpochs(k - 1);
      evs, t := Reopened(Fresh(TOUCHY, 0), evs, t, 2 * k - 1);
    }
  }

  /** The probe permit of the first half-open cycle, epoch 2, is accepted again by a breaker imported
      2^64 - 1 epochs later: its failure reopens the importer. */
  lemma PermitComesBack() returns (evs: seq<Event>, t: Tracked)
    ensures Reached(Fresh(TOUCHY, 0), evs, t) && OpenAt(t, GENERATION_WRAP - 1) && Shape(t.b)
    ensures var (r, cycle) := Import(t.b, Export(t.b, t.b.openUntil), t.b.openUntil);
            && Shape(r) && r.state.HalfOpen?
            && Record(r, t.b.openUntil, RequestPermit(Probe, Epoch(2), 1), false).state.Open?
  {
    evs, t := ManyEpochs(GENERATION_WRAP / 2 - 1);
    var now := t.b.openUntil;
    NoPermitSurvives(t.b, GENERATION_WRAP - 1, t.b, now, now, 2, RequestPermit(Probe, Epoch(2), 1), now, false);
    MigrationKeepsProtection(t.b, t.b, now, now);
    var (r, cycle) := Import(t.b, Export(t.b, now), now);
    DivUnique(GENERATION_WRAP - 1, GENERATION_WRAP - 1, 1, 0);
    AdvanceFrame(r, now);
  }

  /** That permit was issued: the first cycle's only probe id is 1. */
  lemma FirstCycle() returns (evs: seq<Event>, t: Tracked)
    ensures Reached(Fresh(TOUCHY, 0), evs, t) && t.b.state.HalfOpen? && t.b.generation == Epoch(2) && t.b.pending == [1]
  {
    var opening, open := FirstOpening();
    var armed := Arming(open.b.openUntil);
    OneMore(Fresh(TOUCHY, 0), opening, open, armed);
    NextEpoch(1);
    evs, t := opening + [armed], Track(open, armed);
  }
}
