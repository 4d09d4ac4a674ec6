/** What the ten buckets mean: over every run with non-decreasing times, a Closed breaker's
    aggregate is a count over the log of results it accepted since it last closed. */
module BreakerWindow {
  import opened Arith
  import opened Attempts
  import opened CircuitBreakers

  /** Results accepted into the window at one instant. */
  datatype Entry = Entry(time: int, successes: nat, failures: nat)

  function EntryPart(e: Entry, ok: bool): nat { if ok then e.successes else e.failures }

  /** The fixed bucket grid of one breaker: bucket `k` starts at epoch + k * width. */
  datatype Grid = Grid(epoch: int, width: int)

  function GridOf(b: Breaker): (g: Grid)
    requires ValidConfig(b.config)
    ensures g.width > 0
  {
    Grid(b.epoch, BucketNs(b.config))
  }

  /** The number of the bucket a time falls in. */
  function BucketNo(g: Grid, time: int): int
    requires g.width > 0
  {
    (time - g.epoch) / g.width
  }

  function BucketStart(g: Grid, k: int): int { g.epoch + k * g.width }

  /** Results logged in bucket `k`. */
  ghost function Count(g: Grid, log: seq<Entry>, k: int, ok: bool): nat
    requires g.width > 0
  {
    if log == [] then 0
    else
      var e := log[|log| - 1];
      Count(g, log[..|log| - 1], k, ok) + if BucketNo(g, e.time) == k then EntryPart(e, ok) else 0
  }

  /** Results logged in buckets that start after `cutoff`. */
  ghost function LiveCount(g: Grid, log: seq<Entry>, cutoff: int, ok: bool): nat
    requires g.width > 0
  {
    if log == [] then 0
    else
      var e := log[|log| - 1];
      LiveCount(g, log[..|log| - 1], cutoff, ok)
      + if BucketStart(g, BucketNo(g, e.time)) > cutoff then EntryPart(e, ok) else 0
  }

  function ActiveNo(b: Breaker): int
    requires ValidConfig(b.config)
  {
    BucketNo(GridOf(b), b.activeStart)
  }

  ghost predicate BucketOk(g: Grid, log: seq<Entry>, k: int, bucket: Bucket)
    requires g.width > 0
  {
    && bucket.success == Count(g, log, k, true) % COUNT_WRAP
    && bucket.failure == Count(g, log, k, false) % COUNT_WRAP
    && (bucket.start == BucketStart(g, k) || bucket == NO_BUCKET)
  }

  /** The ring holds the ten newest buckets, the active one last. */
  ghost predicate Window(b: Breaker, log: seq<Entry>) {
    && Shape(b) && b.initialized
    && b.activeStart == BucketStart(GridOf(b), ActiveNo(b))
    && b.activeIndex == ActiveNo(b) % BUCKETS
    && b.buckets[b.activeIndex].start == b.activeStart
    && (forall i :: 0 <= i < |log| ==> BucketNo(GridOf(b), log[i].time) <= ActiveNo(b))
    && (forall k :: ActiveNo(b) - BUCKETS < k <= ActiveNo(b) ==> BucketOk(GridOf(b), log, k, b.buckets[k % BUCKETS]))
  }

  // ---------------------------------------------------------------- counting lemmas

  lemma {:induction false} CountNone(g: Grid, log: seq<Entry>, k: int, ok: bool)
    requires g.width > 0
    requires forall i :: 0 <= i < |log| ==> BucketNo(g, log[i].time) != k
    ensures Count(g, log, k, ok) == 0
  {
    if log != [] { CountNone(g, log[..|log| - 1], k, ok); }
  }

  /** The ten newest buckets of the log together. */
  ghost function Newest(g: Grid, log: seq<Entry>, top: int, ok: bool, n: nat): nat
    requires g.width > 0
  {
    if n == 0 then 0 else Newest(g, log, top, ok, n - 1) + Count(g, log, top - (n - 1), ok)
  }

  lemma {:induction false} NewestAppend(g: Grid, log: seq<Entry>, top: int, ok: bool, n: nat)
    requires g.width > 0 && log != []
    ensures var e := log[|log| - 1]; var no := BucketNo(g, e.time);
            Newest(g, log, top, ok, n)
            == Newest(g, log[..|log| - 1], top, ok, n) + if top - n < no <= top then EntryPart(e, ok) else 0
  {
    if n > 0 { NewestAppend(g, log, top, ok, n - 1); }
  }

  lemma {:induction false} NewestEmpty(g: Grid, top: int, ok: bool, n: nat)
    requires g.width > 0
    ensures Newest(g, [], top, ok, n) == 0
  {
    if n > 0 { NewestEmpty(g, top, ok, n - 1); }
  }

  /** Seen from inside the active bucket, the live buckets are exactly the ten newest. */
  lemma LiveIffNewest(g: Grid, top: int, k: int, now: int)
    requires g.width > 0 && k <= top
    requires BucketStart(g, top) <= now < BucketStart(g, top + 1)
    ensures BucketStart(g, k) > now - BUCKETS * g.width <==> top - BUCKETS < k
  {
    var d := g.width;
    assert (top + 1) * d == top * d + d;
    assert (top - BUCKETS) * d == top * d - BUCKETS * d;
    assert (top + 1 - BUCKETS) * d == (top + 1) * d - BUCKETS * d;
    if top - BUCKETS < k { MulMonotone(top + 1 - BUCKETS, k, d); } else { MulMonotone(k, top - BUCKETS, d); }
  }

  lemma {:induction false} LiveIsNewest(g: Grid, log: seq<Entry>, top: int, now: int, ok: bool)
    requires g.width > 0
    requires BucketStart(g, top) <= now < BucketStart(g, top + 1)
    requires forall i :: 0 <= i < |log| ==> BucketNo(g, log[i].time) <= top
    ensures LiveCount(g, log, now - BUCKETS * g.width, ok) == Newest(g, log, top, ok, BUCKETS)
  {
    if log == [] {
      NewestEmpty(g, top, ok, BUCKETS);
    } else {
      LiveIsNewest(g, log[..|log| - 1], top, now, ok);
      NewestAppend(g, log, top, ok, BUCKETS);
      LiveIffNewest(g, top, BucketNo(g, log[|log| - 1].time), now);
    }
  }

  // ---------------------------------------------------------------- the ring, read in two orders

  function ByIndex(buckets: seq<Bucket>, ok: bool, n: nat): nat
    requires n <= |buckets|
  {
    if n == 0 then 0 else ByIndex(buckets, ok, n - 1) + Part(buckets[n - 1], ok)
  }

  function ByAge(buckets: seq<Bucket>, top: int, ok: bool, n: nat): nat
    requires |buckets| == BUCKETS
  {
    if n == 0 then 0 else ByAge(buckets, top, ok, n - 1) + Part(buckets[(top - (n - 1)) % BUCKETS], ok)
  }

  /** Moving the newest end up by one takes in the next slot and drops none of the others. */
  lemma {:induction false} ByAgeShift(bs: seq<Bucket>, top: int, ok: bool, n: nat)
    requires |bs| == BUCKETS
    ensures ByAge(bs, top + 1, ok, n + 1) == Part(bs[(top + 1) % BUCKETS], ok) + ByAge(bs, top, ok, n)
  {
    if n > 0 { ByAgeShift(bs, top, ok, n - 1); }
  }

  lemma ByAgeSame(bs: seq<Bucket>, top: int, ok: bool)
    requires |bs| == BUCKETS
    ensures ByAge(bs, top + 1, ok, BUCKETS) == ByAge(bs, top, ok, BUCKETS)
  {
    ByAgeShift(bs, top, ok, BUCKETS - 1);
    ModPeriod(top - (BUCKETS - 1), BUCKETS);
    assert top - (BUCKETS - 1) + BUCKETS == top + 1;
  }

  lemma {:induction false} ByIndexIsByAge(bs: seq<Bucket>, ok: bool, n: nat)
    requires |bs| == BUCKETS && n <= BUCKETS
    ensures ByIndex(bs, ok, n) == ByAge(bs, n - 1, ok, n)
  {
    if n > 0 {
      ByIndexIsByAge(bs, ok, n - 1);
      ByAgeShift(bs, n - 2, ok, n - 1);
    }
  }

  /** Summing the ring by slot or by age gives the same total. */
  lemma {:induction false} RotationSum(bs: seq<Bucket>, top: int, ok: bool)
    requires |bs| == BUCKETS
    ensures ByAge(bs, top, ok, BUCKETS) == ByIndex(bs, ok, BUCKETS)
    decreases Max(top - (BUCKETS - 1), (BUCKETS - 1) - top)
  {
    if top > BUCKETS - 1 {
      RotationSum(bs, top - 1, ok);
      ByAgeSame(bs, top - 1, ok);
    } else if top < BUCKETS - 1 {
      RotationSum(bs, top + 1, ok);
      ByAgeSame(bs, top, ok);
    } else {
      ByIndexIsByAge(bs, ok, BUCKETS);
    }
  }

  // ---------------------------------------------------------------- the aggregate

  /** No live bucket has collected 2^32 results of one kind. */
  ghost predicate NoCounterWrap(g: Grid, log: seq<Entry>, top: int, ok: bool)
    requires g.width > 0
  {
    forall k :: top - BUCKETS < k <= top ==> Count(g, log, k, ok) < COUNT_WRAP
  }

  lemma {:induction false} AgesBelowCounts(b: Breaker, log: seq<Entry>, top: int, ok: bool, n: nat)
    requires Shape(b) && n <= BUCKETS
    requires forall k :: top - BUCKETS < k <= top ==> Part(b.buckets[k % BUCKETS], ok) == Count(GridOf(b), log, k, ok) % COUNT_WRAP
    ensures ByAge(b.buckets, top, ok, n) <= Newest(GridOf(b), log, top, ok, n)
    ensures ByAge(b.buckets, top, ok, n) == Newest(GridOf(b), log, top, ok, n)
            <==> forall k :: top - n < k <= top ==> Count(GridOf(b), log, k, ok) < COUNT_WRAP
  {
    if n > 0 {
      AgesBelowCounts(b, log, top, ok, n - 1);
      var k := top - (n - 1);
      assert Part(b.buckets[k % BUCKETS], ok) == Count(GridOf(b), log, k, ok) % COUNT_WRAP;
      ModLess(Count(GridOf(b), log, k, ok), COUNT_WRAP);
    }
  }

  /** Every bucket that counts anything starts inside the window. */
  lemma {:induction false} TallyAll(b: Breaker, log: seq<Entry>, now: int, ok: bool, n: nat)
    requires Window(b, log) && n <= BUCKETS
    requires BucketStart(GridOf(b), ActiveNo(b)) <= now < BucketStart(GridOf(b), ActiveNo(b) + 1)
    ensures Tally(b.buckets, now - WindowNs(b.config), ok, n) == ByIndex(b.buckets, ok, n)
  {
    if n > 0 {
      TallyAll(b, log, now, ok, n - 1);
      var top := ActiveNo(b);
      var k := top - (top - (n - 1)) % BUCKETS;
      assert k % BUCKETS == n - 1;
      assert BucketOk(GridOf(b), log, k, b.buckets[n - 1]);
      LiveIffNewest(GridOf(b), top, k, now);
    }
  }

  /** With the active bucket current, the aggregate never exceeds the number of logged results
      whose bucket starts inside the window, and equals it exactly when no counter wrapped. */
  lemma AggregateIsLiveCount(b: Breaker, log: seq<Entry>, now: int, ok: bool)
    requires Window(b, log)
    requires BucketStart(GridOf(b), ActiveNo(b)) <= now < BucketStart(GridOf(b), ActiveNo(b) + 1)
    ensures Aggregate(b, now, ok) <= LiveCount(GridOf(b), log, now - WindowNs(b.config), ok)
    ensures Aggregate(b, now, ok) == LiveCount(GridOf(b), log, now - WindowNs(b.config), ok)
            <==> NoCounterWrap(GridOf(b), log, ActiveNo(b), ok)
  {
    var top := ActiveNo(b);
    TallyAll(b, log, now, ok, BUCKETS);
    RotationSum(b.buckets, top, ok);
    forall k | top - BUCKETS < k <= top
      ensures Part(b.buckets[k % BUCKETS], ok) == Count(GridOf(b), log, k, ok) % COUNT_WRAP
    {
      assert BucketOk(GridOf(b), log, k, b.buckets[k % BUCKETS]);
    }
    AgesBelowCounts(b, log, top, ok, BUCKETS);
    LiveIsNewest(GridOf(b), log, top, now, ok);
  }

  // ---------------------------------------------------------------- advancing keeps the window

  lemma StartOfNo(g: Grid, k: int)
    requires g.width > 0
    ensures BucketNo(g, BucketStart(g, k)) == k
  {
    DivShift(0, k, g.width);
  }

  /** A time lies in the bucket its number names. */
  lemma WithinBucket(g: Grid, time: int)
    requires g.width > 0
    ensures BucketStart(g, BucketNo(g, time)) <= time < BucketStart(g, BucketNo(g, time) + 1)
  {
    var k := BucketNo(g, time);
    assert time - g.epoch == k * g.width + (time - g.epoch) % g.width;
    assert (k + 1) * g.width == k * g.width + g.width;
  }

  lemma NextSlotFree(top: int, k: int)
    requires top + 1 - BUCKETS < k <= top
    ensures k % BUCKETS != (top + 1) % BUCKETS
    ensures (top % BUCKETS + 1) % BUCKETS == (top + 1) % BUCKETS
  {
    ModAdd(top, 1, BUCKETS);
  }

  lemma WindowStep(b: Breaker, log: seq<Entry>)
    requires Window(b, log)
    ensures Window(StepOne(b), log) && ActiveNo(StepOne(b)) == ActiveNo(b) + 1
  {
    var g, top, b' := GridOf(b), ActiveNo(b), StepOne(b);
    assert b'.activeStart == BucketStart(g, top + 1) by { assert (top + 1) * g.width == top * g.width + g.width; }
    StartOfNo(g, top + 1);
    NextSlotFree(top, top);
    forall k | top + 1 - BUCKETS < k <= top + 1 ensures BucketOk(g, log, k, b'.buckets[k % BUCKETS]) {
      if k <= top {
        NextSlotFree(top, k);
        assert BucketOk(g, log, k, b.buckets[k % BUCKETS]);
      } else {
        CountNone(g, log, k, true);
        CountNone(g, log, k, false);
      }
    }
  }

  lemma {:induction false} WindowSteps(b: Breaker, log: seq<Entry>, n: nat)
    requires Window(b, log)
    ensures Window(StepMany(b, n), log) && ActiveNo(StepMany(b, n)) == ActiveNo(b) + n
    ensures b.(activeStart := 0, activeIndex := 0, buckets := [])
            == StepMany(b, n).(activeStart := 0, activeIndex := 0, buckets := [])
    decreases n
  {
    if n > 0 {
      WindowStep(b, log);
      WindowSteps(StepOne(b), log, n - 1);
    }
  }

  /** The clock has moved `Skipped` buckets past the active one. */
  lemma SkippedIsDistance(b: Breaker, now: int)
    requires Shape(b) && b.activeStart == BucketStart(GridOf(b), ActiveNo(b))
    ensures BucketNo(GridOf(b), now) == ActiveNo(b) + Skipped(b, now)
  {
    DivShift(now - b.activeStart, ActiveNo(b), BucketNs(b.config));
  }

  lemma WindowJump(b: Breaker, log: seq<Entry>, now: int)
    requires Window(b, log) && b.epoch <= now && Skipped(b, now) >= BUCKETS
    ensures Window(Jump(b, now), log) && ActiveNo(Jump(b, now)) == BucketNo(GridOf(b), now)
  {
    var g, b' := GridOf(b), Jump(b, now);
    var top := BucketNo(g, now);
    SkippedIsDistance(b, now);
    assert b'.activeStart == BucketStart(g, top) by { WithinBucket(g, now); }
    StartOfNo(g, top);
    forall k | top - BUCKETS < k <= top ensures BucketOk(g, log, k, b'.buckets[k % BUCKETS]) {
      CountNone(g, log, k, true);
      CountNone(g, log, k, false);
      if k < top { SlotsApart(top, k); }
    }
  }

  lemma WindowInit(b: Breaker)
    requires Shape(b) && !b.initialized && b.buckets == NoBuckets()
    ensures Window(Initialized(b), []) && ActiveNo(Initialized(b)) == 0
  {
    StartOfNo(GridOf(b), 0);
  }

  /** A Closed breaker between operations: never yet touched since it closed, or with its ring
      describing the log. */
  ghost predicate Ready(b: Breaker, log: seq<Entry>, last: int) {
    && Shape(b) && b.epoch <= last
    && if b.initialized then Window(b, log) && b.activeStart <= last else log == [] && b.buckets == NoBuckets()
  }

  /** Advancing makes the bucket of `now` the active one, forgets nothing live, and changes
      nothing but the ring. */
  lemma AdvanceKeepsWindow(b: Breaker, log: seq<Entry>, last: int, now: int)
    requires Ready(b, log, last) && last <= now
    ensures var a := AdvanceTo(b, now);
            && Window(a, log) && ActiveNo(a) == BucketNo(GridOf(b), now) && a.activeStart <= now
            && a == b.(activeStart := a.activeStart, activeIndex := a.activeIndex, buckets := a.buckets, initialized := true)
  {
    var g, i := GridOf(b), Initialized(b);
    if !b.initialized { WindowInit(b); }
    WithinBucket(g, now);
    if now < i.activeStart + BucketNs(b.config) {
      DivUnique(now - i.activeStart, g.width, 0, now - i.activeStart);
      SkippedIsDistance(i, now);
    } else {
      DivMonotone(0, now - i.activeStart, g.width);
      SkippedIsDistance(i, now);
      if Skipped(i, now) >= BUCKETS {
        WindowJump(i, log, now);
      } else {
        WindowSteps(i, log, Skipped(i, now));
      }
    }
  }

  // ---------------------------------------------------------------- the jump against stepping

  /** Equal but for the start times of buckets that count nothing. */
  ghost predicate Alike(a: Breaker, b: Breaker) {
    && a == b.(buckets := a.buckets) && |a.buckets| == |b.buckets|
    && forall i :: 0 <= i < |a.buckets| ==>
         a.buckets[i] == b.buckets[i]
         || (a.buckets[i].success == a.buckets[i].failure == b.buckets[i].success == b.buckets[i].failure == 0)
  }

  lemma {:induction false} TallyAlike(a: seq<Bucket>, b: seq<Bucket>, cutoff: int, ok: bool, n: nat)
    requires |a| == |b| && n <= |a|
    requires forall i :: 0 <= i < |a| ==>
               a[i] == b[i] || (a[i].success == a[i].failure == b[i].success == b[i].failure == 0)
    ensures Tally(a, cutoff, ok, n) == Tally(b, cutoff, ok, n)
  {
    if n > 0 { TallyAlike(a, b, cutoff, ok, n - 1); }
  }

  /** The bucket number that slot i of the ring holds while `top` is active. */
  lemma SlotOwner(top: int, i: int) returns (k: int)
    requires 0 <= i < BUCKETS
    ensures top - BUCKETS < k <= top && k % BUCKETS == i
  {
    k := top - (top - i) % BUCKETS;
    DivShift(i, (top - i) / BUCKETS, BUCKETS);
    ModSmall(i, BUCKETS);
    assert k == i + (top - i) / BUCKETS * BUCKETS;
  }

  /** Once ten buckets lie past everything logged, nothing is counted. */
  lemma AllEmpty(b: Breaker, log: seq<Entry>)
    requires Window(b, log)
    requires forall i :: 0 <= i < |log| ==> BucketNo(GridOf(b), log[i].time) <= ActiveNo(b) - BUCKETS
    ensures forall i :: 0 <= i < BUCKETS ==> b.buckets[i].success == 0 && b.buckets[i].failure == 0
  {
    var g, top := GridOf(b), ActiveNo(b);
    forall i | 0 <= i < BUCKETS ensures b.buckets[i].success == 0 && b.buckets[i].failure == 0 {
      var k := SlotOwner(top, i);
      CountNone(g, log, k, true);
      CountNone(g, log, k, false);
      assert BucketOk(g, log, k, b.buckets[i]);
    }
  }

  /** The one-step jump is the same as opening one bucket at a time, up to the recorded start of
      empty buckets; no aggregate at any time can tell them apart. */
  lemma AdvanceIsStepping(b: Breaker, log: seq<Entry>, now: int)
    requires Window(b, log) && b.activeStart <= now && b.epoch <= now
    ensures Skipped(b, now) >= 0 && Alike(AdvanceTo(b, now), StepMany(b, Skipped(b, now)))
    ensures forall at, ok :: Aggregate(AdvanceTo(b, now), at, ok) == Aggregate(StepMany(b, Skipped(b, now)), at, ok)
  {
    AdvanceAlike(b, log, now);
    AlikeAggregates(AdvanceTo(b, now), StepMany(b, Skipped(b, now)));
  }

  lemma AlikeAggregates(a: Breaker, b: Breaker)
    requires Alike(a, b)
    ensures forall at, ok :: Aggregate(a, at, ok) == Aggregate(b, at, ok)
  {
    forall at, ok ensures Aggregate(a, at, ok) == Aggregate(b, at, ok) {
      TallyAlike(a.buckets, b.buckets, at - WindowNs(b.config), ok, |b.buckets|);
    }
  }

  lemma AdvanceAlike(b: Breaker, log: seq<Entry>, now: int)
    requires Window(b, log) && b.activeStart <= now && b.epoch <= now
    ensures Skipped(b, now) >= 0 && Alike(AdvanceTo(b, now), StepMany(b, Skipped(b, now)))
  {
    var g, n := GridOf(b), Skipped(b, now);
    DivMonotone(0, now - b.activeStart, g.width);
    SkippedIsDistance(b, now);
    WindowSteps(b, log, n);
    if now < b.activeStart + g.width {
      DivUnique(now - b.activeStart, g.width, 0, now - b.activeStart);
    } else if n >= BUCKETS {
      WindowJump(b, log, now);
      AllEmpty(AdvanceTo(b, now), log);
      AllEmpty(StepMany(b, n), log);
    }
  }

  // ---------------------------------------------------------------- runs

  datatype Event =
    | Outcome(now: int, permit: RequestPermit, ok: bool)
    | Selecting(now: int)
    | Arming(now: int)

  /** CoordinatorState::ArmHalfOpen on one breaker. */
  function ArmHalfOpen(b: Breaker, now: int): Breaker {
    if !b.state.Open? || now < b.openUntil then b else BeginFreshHalfOpenCycle(b).0
  }

  function After(b: Breaker, ev: Event): Breaker
    requires Shape(b)
  {
    match ev
    case Outcome(now, permit, ok) => Record(b, now, permit, ok)
    case Selecting(now) => Select(b, now).0
    case Arming(now) => ArmHalfOpen(b, now)
  }

  /** The result is one the window counts. */
  predicate Accepts(b: Breaker, ev: Event) {
    ev.Outcome? && b.state.Closed? && ev.permit.selection.Allowed? && ev.permit.generation == b.generation
  }

  /** A breaker with the log of results it accepted since it last closed. */
  datatype Tracked = Tracked(b: Breaker, log: seq<Entry>, last: int)

  function Track(t: Tracked, ev: Event): Tracked
    requires Shape(t.b)
  {
    var b' := After(t.b, ev);
    var log' :=
      if Accepts(t.b, ev) then t.log + [Entry(ev.now, if ev.ok then 1 else 0, if ev.ok then 0 else 1)]
      else if !t.b.state.Closed? && b'.state.Closed? then []
      else t.log;
    Tracked(b', log', ev.now)
  }

  ghost predicate Tracking(t: Tracked) {
    && Shape(t.b) && t.b.epoch <= t.last
    && (t.b.state.Closed? ==> Ready(t.b, t.log, t.last))
  }

  lemma CountAppend(g: Grid, log: seq<Entry>, e: Entry, k: int, ok: bool)
    requires g.width > 0
    ensures Count(g, log + [e], k, ok) == Count(g, log, k, ok) + if BucketNo(g, e.time) == k then EntryPart(e, ok) else 0
  {
    assert (log + [e])[..|log|] == log;
  }

  /** The window after one accepted result, before the threshold is looked at. */
  lemma CountedKeepsWindow(a: Breaker, log: seq<Entry>, e: Entry, ok: bool)
    requires Window(a, log) && BucketNo(GridOf(a), e.time) == ActiveNo(a)
    requires e == Entry(e.time, if ok then 1 else 0, if ok then 0 else 1)
    ensures Window(a.(buckets := a.buckets[a.activeIndex := Increment(a.buckets[a.activeIndex], ok)]), log + [e])
  {
    var g, top := GridOf(a), ActiveNo(a);
    var c := a.(buckets := a.buckets[a.activeIndex := Increment(a.buckets[a.activeIndex], ok)]);
    assert a.activeStart == BucketStart(g, top) && BucketOk(g, log, top, a.buckets[top % BUCKETS]);
    forall k | top - BUCKETS < k <= top ensures BucketOk(g, log + [e], k, c.buckets[k % BUCKETS]) {
      assert BucketOk(g, log, k, a.buckets[k % BUCKETS]);
      CountAppend(g, log, e, k, true);
      CountAppend(g, log, e, k, false);
      if k != top { SlotsApart(top, k); } else { CountedBucket(g, log, e, k, a.buckets[k % BUCKETS], ok); }
    }
  }

  lemma SlotsApart(top: int, k: int)
    requires top - BUCKETS < k < top
    ensures k % BUCKETS != top % BUCKETS
  {
  }

  /** One more result in the bucket it falls into. */
  lemma CountedBucket(g: Grid, log: seq<Entry>, e: Entry, k: int, bucket: Bucket, ok: bool)
    requires g.width > 0 && BucketOk(g, log, k, bucket) && bucket.start == BucketStart(g, k)
    requires BucketNo(g, e.time) == k && e == Entry(e.time, if ok then 1 else 0, if ok then 0 else 1)
    ensures BucketOk(g, log + [e], k, Increment(bucket, ok))
  {
    CountAppend(g, log, e, k, true);
    CountAppend(g, log, e, k, false);
    ModAdd(Count(g, log, k, true), e.successes, COUNT_WRAP);
    ModAdd(Count(g, log, k, false), e.failures, COUNT_WRAP);
  }

  lemma TrackKeeps(t: Tracked, ev: Event)
    requires Tracking(t) && t.last <= ev.now
    ensures Tracking(Track(t, ev))
  {
    if t.b.state.Closed? {
      AdvanceKeepsWindow(t.b, t.log, t.last, ev.now);
      var a := AdvanceTo(t.b, ev.now);
      if Accepts(t.b, ev) {
        CountedKeepsWindow(a, t.log, Entry(ev.now, if ev.ok then 1 else 0, if ev.ok then 0 else 1), ev.ok);
      }
    } else {
      AdvanceFrame(t.b, ev.now);
    }
  }

  /** Whatever the state, advancing touches the ring alone. */
  lemma AdvanceFrame(b: Breaker, now: int)
    requires Shape(b)
    ensures var a := AdvanceTo(b, now);
            a == b.(activeStart := a.activeStart, activeIndex := a.activeIndex, buckets := a.buckets,
                    initialized := a.initialized)
  {
    if b.epoch <= now {
      var i := Initialized(b);
      if now >= i.activeStart + BucketNs(b.config) {
        DivMonotone(0, now - i.activeStart, BucketNs(b.config));
        StepFrame(i, Skipped(i, now));
      }
    }
  }

  lemma {:induction false} StepFrame(b: Breaker, n: nat)
    requires Shape(b)
    ensures var r := StepMany(b, n);
            r == b.(activeStart := r.activeStart, activeIndex := r.activeIndex, buckets := r.buckets)
    decreases n
  {
    if n > 0 { StepFrame(StepOne(b), n - 1); }
  }

  ghost predicate Ordered(from: int, evs: seq<Event>) {
    && (forall i :: 0 <= i < |evs| ==> from <= evs[i].now)
    && (forall i, j :: 0 <= i < j < |evs| ==> evs[i].now <= evs[j].now)
  }

  ghost function TrackAll(t: Tracked, evs: seq<Event>): Option<Tracked>
    decreases |evs|
  {
    if evs == [] then Some(t)
    else if !Shape(t.b) then None
    else TrackAll(Track(t, evs[0]), evs[1..])
  }

  lemma {:induction false} TrackAllKeeps(t: Tracked, evs: seq<Event>)
    requires Tracking(t) && Ordered(t.last, evs)
    ensures var r := TrackAll(t, evs);
            r.Some? && Tracking(r.value) && r.value.last == if evs == [] then t.last else evs[|evs| - 1].now
    decreases |evs|
  {
    if evs != [] {
      TrackKeeps(t, evs[0]);
      TrackAllKeeps(Track(t, evs[0]), evs[1..]);
    }
  }

  /** A state that a run with non-decreasing times reaches from any sound start: a new breaker, or an
      imported one with the log its snapshot stands for. */
  ghost predicate Reached(first: Tracked, evs: seq<Event>, t: Tracked) {
    Tracking(first) && Ordered(first.last, evs) && TrackAll(first, evs) == Some(t)
  }

  function Fresh(config: Config, start: int): Tracked { Tracked(New(config, start), [], start) }

  lemma FreshTracks(config: Config, start: int)
    requires ValidConfig(config)
    ensures Tracking(Fresh(config, start)) && Reached(Fresh(config, start), [], Fresh(config, start))
  {
  }

  /** In every run, a Closed breaker's aggregate at any later time is the number of results
      accepted since it last closed or was imported whose bucket starts inside the window - short of that only
      where some live bucket has counted 2^32 results of one kind. */
  lemma ClosedAggregateIsLogCount(first: Tracked, evs: seq<Event>, t: Tracked, now: int, ok: bool)
    requires Reached(first, evs, t) && t.last <= now && t.b.state.Closed?
    ensures Shape(t.b)
    ensures var live := LiveCount(GridOf(t.b), t.log, now - WindowNs(t.b.config), ok);
            && Aggregate(AdvanceTo(t.b, now), now, ok) <= live
            && (Aggregate(AdvanceTo(t.b, now), now, ok) == live
                <==> NoCounterWrap(GridOf(t.b), t.log, BucketNo(GridOf(t.b), now), ok))
  {
    TrackAllKeeps(first, evs);
    AdvanceKeepsWindow(t.b, t.log, t.last, now);
    WithinBucket(GridOf(t.b), now);
    AggregateIsLiveCount(AdvanceTo(t.b, now), t.log, now, ok);
  }

  /** In every run a Closed breaker leaves that state only at an accepted result, and then exactly
      when the logged results inside the window, that one included, reach the sample floor and
      the failure rate. */
  lemma TripsExactly(first: Tracked, evs: seq<Event>, t: Tracked, ev: Event)
    requires Reached(first, evs, t) && t.last <= ev.now && t.b.state.Closed?
    ensures Shape(t.b)
    ensures !Accepts(t.b, ev) ==> Track(t, ev).b.state.Closed? && Track(t, ev).log == t.log
    ensures var t' := Track(t, ev);
            var g, cutoff := GridOf(t.b), ev.now - WindowNs(t.b.config);
            && Accepts(t.b, ev)
            && NoCounterWrap(g, t'.log, BucketNo(g, ev.now), true)
            && NoCounterWrap(g, t'.log, BucketNo(g, ev.now), false) ==>
              && |t'.log| == |t.log| + 1
              && (if Trips(t.b.config, LiveCount(g, t'.log, cutoff, true), LiveCount(g, t'.log, cutoff, false))
                  then t'.b.state.Open? && t'.b.openUntil == ev.now + t.b.config.openDuration * NS_PER_MS
                  else t'.b.state.Closed?)
  {
    TrackAllKeeps(first, evs);
    AdvanceKeepsWindow(t.b, t.log, t.last, ev.now);
    if Accepts(t.b, ev) {
      var a := AdvanceTo(t.b, ev.now);
      var e := Entry(ev.now, if ev.ok then 1 else 0, if ev.ok then 0 else 1);
      CountedKeepsWindow(a, t.log, e, ev.ok);
      WithinBucket(GridOf(t.b), ev.now);
      var c := a.(buckets := a.buckets[a.activeIndex := Increment(a.buckets[a.activeIndex], ev.ok)]);
      AggregateIsLiveCount(c, t.log + [e], ev.now, true);
      AggregateIsLiveCount(c, t.log + [e], ev.now, false);
    }
  }
}
