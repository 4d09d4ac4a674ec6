/** Fixed-point token admission: the shared credit pool of one route, the single-loop token bucket
    it mirrors, and the arithmetic both do in signed 64 bits.  One token is 10^9 units of credit, so
    a rate in tokens per second is also a rate in units per nanosecond. */
module Admission {
  import opened Arith

  const SCALE: int := 1_000_000_000
  const UINT32: int := 0x1_0000_0000

  newtype int64 = x: int | -0x8000_0000_0000_0000 <= x < 0x8000_0000_0000_0000
  newtype uint32 = x: int | 0 <= x < 0x1_0000_0000

  // ---------------------------------------------------------------- what the arithmetic computes

  /** Credit after `elapsed` nanoseconds at `rate`, never above capacity. */
  function Refilled(credit: int, capacity: int, rate: int, elapsed: int): int {
    Min(capacity, credit + rate * elapsed)
  }

  /** Whole tokens taken when `want` are asked for. */
  function Taken(credit: int, want: int): int {
    Max(0, Min(credit / SCALE, want))
  }

  function Restored(credit: int, capacity: int, tokens: int): int {
    Max(credit, Min(capacity, credit + tokens * SCALE))
  }

  /** Splitting an interval into two refills changes nothing. */
  lemma RefillSplits(credit: int, capacity: int, rate: int, first: int, second: int)
    requires credit <= capacity && rate >= 0 && first >= 0 && second >= 0
    ensures Refilled(Refilled(credit, capacity, rate, first), capacity, rate, second)
            == Refilled(credit, capacity, rate, first + second)
  {
    assert rate * (first + second) == rate * first + rate * second;
    assert rate * first >= 0 && rate * second >= 0;
  }

  function SumOf(ticks: seq<nat>): nat {
    if ticks == [] then 0 else ticks[0] + SumOf(ticks[1..])
  }

  function RefillAll(credit: int, capacity: int, rate: int, ticks: seq<nat>): int
    decreases |ticks|
  {
    if ticks == [] then credit else RefillAll(Refilled(credit, capacity, rate, ticks[0]), capacity, rate, ticks[1..])
  }

  /** Any number of ticks leaves the credit one refill over the whole interval would. */
  lemma {:induction false} TicksDoNotMatter(credit: int, capacity: int, rate: int, ticks: seq<nat>)
    requires 0 <= credit <= capacity && rate >= 0
    ensures RefillAll(credit, capacity, rate, ticks) == Refilled(credit, capacity, rate, SumOf(ticks))
    decreases |ticks|
  {
    if ticks != [] {
      assert rate * ticks[0] >= 0;
      TicksDoNotMatter(Refilled(credit, capacity, rate, ticks[0]), capacity, rate, ticks[1..]);
      RefillSplits(credit, capacity, rate, ticks[0], SumOf(ticks[1..]));
    }
  }

  /** Comparing elapsed time with the time needed, rounded up, picks the smaller amount. */
  lemma RefillBranch(missing: int, rate: int, elapsed: int)
    requires missing >= 0 && rate > 0 && elapsed >= 0
    ensures elapsed >= (missing + rate - 1) / rate <==> rate * elapsed >= missing
    ensures elapsed < (missing + rate - 1) / rate ==> rate * elapsed < missing
    ensures 0 <= rate * elapsed
  {
    var needed := (missing + rate - 1) / rate;
    var r := (missing + rate - 1) % rate;
    assert missing + rate - 1 == rate * needed + r;
    assert rate * elapsed == elapsed * rate;
    if elapsed >= needed {
      MulMonotone(needed, elapsed, rate);
    } else {
      MulMonotone(elapsed, needed - 1, rate);
      assert (needed - 1) * rate == needed * rate - rate;
    }
  }

  // ---------------------------------------------------------------- the objects

  /** The admission limits hold 32-bit positive numbers. */
  ghost predicate Limits(rate: int, burst: int) {
    0 < rate < UINT32 && 0 < burst < UINT32
  }

  /** GlobalAdmission with its operations run one at a time; every intermediate value is checked
      to fit its 64-bit type.  The interleaved form is module Leases. */
  class GlobalAdmission {
    const rate: uint32
    const burst: uint32
    const capacity: int64
    var credit: int64
    var lastRefill: int64
    var inflight: uint32
    const maximum: uint32

    ghost predicate Valid()
      reads this
    {
      && Limits(rate as int, burst as int) && capacity as int == burst as int * SCALE
      && 0 <= credit <= capacity && 0 <= lastRefill && inflight <= maximum
    }

    constructor (rate: uint32, burst: uint32, maximum: uint32, now: int64)
      requires rate > 0 && burst > 0 && maximum > 0 && now >= 0
      ensures Valid() && credit == capacity && lastRefill == now && inflight == 0
      ensures this.rate == rate && this.burst == burst && this.maximum == maximum
    {
      this.rate, this.burst, this.maximum := rate, burst, maximum;
      capacity := burst as int64 * 1_000_000_000;
      credit := burst as int64 * 1_000_000_000;
      lastRefill, inflight := now, 0;
    }

    method Refill(now: int64)
      requires Valid() && now >= 0
      modifies this`credit, this`lastRefill
      ensures Valid()
      ensures lastRefill as int == Max(old(lastRefill) as int, now as int)
      ensures credit as int == Refilled(old(credit) as int, capacity as int, rate as int,
                                        Max(0, now as int - old(lastRefill) as int))
    {
      if now <= lastRefill { return; }
      var elapsed := now - lastRefill;
      lastRefill := now;
      var missing := capacity - credit;
      RefillBranch(missing as int, rate as int, elapsed as int);
      if missing <= 0 { return; }
      var r := rate as int64;
      var needed := (missing + r - 1) / r;
      var refilled: int64;
      if elapsed >= needed {
        refilled := missing;
      } else {
        refilled := r * elapsed;
      }
      credit := credit + refilled;
    }

    method Draw(want: uint32) returns (take: uint32)
      requires Valid()
      modifies this`credit
      ensures Valid() && take <= want
      ensures take as int == Taken(old(credit) as int, want as int)
      ensures credit as int == old(credit) as int - take as int * SCALE
    {
      var whole := credit / 1_000_000_000;
      if whole <= 0 { return 0; }
      var taken := if whole < want as int64 then whole else want as int64;
      credit := credit - taken * 1_000_000_000;
      take := taken as uint32;
    }

    method Return(tokens: uint32)
      requires Valid()
      modifies this`credit
      ensures Valid() && credit as int == Restored(old(credit) as int, capacity as int, tokens as int)
    {
      if tokens == 0 { return; }
      var value := tokens as int64 * 1_000_000_000;
      var returned := if capacity - credit < value then capacity - credit else value;
      if returned <= 0 { return; }
      credit := credit + returned;
    }

    method TryAcquireInflight() returns (ok: bool)
      requires Valid()
      modifies this`inflight
      ensures Valid() && (ok <==> old(inflight) < maximum)
      ensures inflight == if ok then old(inflight) + 1 else old(inflight)
    {
      ok := inflight < maximum;
      if ok { inflight := inflight + 1; }
    }

    method ReleaseOne()
      requires Valid()
      modifies this`inflight
      ensures Valid() && inflight == if old(inflight) == 0 then 0 else old(inflight) - 1
    {
      if inflight != 0 { inflight := inflight - 1; }
    }
  }

  class TokenBucket {
    const rate: uint32
    const capacity: int64
    var credit: int64
    var lastRefill: int64

    ghost predicate Valid()
      reads this
    {
      0 < rate && SCALE <= capacity as int < UINT32 * SCALE && 0 <= credit <= capacity && 0 <= lastRefill
    }

    constructor (rate: uint32, burst: uint32, now: int64)
      requires rate > 0 && burst > 0 && now >= 0
      ensures Valid() && credit == capacity && capacity as int == burst as int * SCALE && lastRefill == now
      ensures this.rate == rate
    {
      this.rate := rate;
      capacity := burst as int64 * 1_000_000_000;
      credit := burst as int64 * 1_000_000_000;
      lastRefill := now;
    }

    /** Grants exactly when a refilled pool would yield one token to a draw of one, and ends with
        the same credit. */
    method TryAcquire(now: int64) returns (ok: bool)
      requires Valid() && now >= 0
      modifies this`credit, this`lastRefill
      ensures Valid()
      ensures lastRefill as int == Max(old(lastRefill) as int, now as int)
      ensures var c := Refilled(old(credit) as int, capacity as int, rate as int, Max(0, now as int - old(lastRefill) as int));
              (ok <==> Taken(c, 1) == 1) && credit as int == c - Taken(c, 1) * SCALE
    {
      if now > lastRefill {
        var elapsed := now - lastRefill;
        var missing := capacity - credit;
        var r := rate as int64;
        RefillBranch(missing as int, rate as int, elapsed as int);
        var needed := (missing + r - 1) / r;
        if elapsed >= needed {
          credit := capacity;
        } else {
          credit := credit + r * elapsed;
        }
        lastRefill := now;
      }
      if credit < 1_000_000_000 { return false; }
      credit := credit - 1_000_000_000;
      return true;
    }
  }

  /** Asked at any sequence of times, in any order, a pool that is refilled and drawn for one token
      answers as the token bucket does. */
  method SameAnswers(rate: uint32, burst: uint32, maximum: uint32, start: int64, times: seq<int64>)
    returns (pool: seq<bool>, bucket: seq<bool>)
    requires rate > 0 && burst > 0 && maximum > 0 && start >= 0
    requires forall i :: 0 <= i < |times| ==> times[i] >= 0
    ensures |pool| == |times| && pool == bucket
  {
    var a := new GlobalAdmission(rate, burst, maximum, start);
    var b := new TokenBucket(rate, burst, start);
    pool, bucket := [], [];
    for i := 0 to |times|
      invariant a.Valid() && b.Valid() && a.rate == rate == b.rate && a.capacity == b.capacity
      invariant a.credit == b.credit && a.lastRefill == b.lastRefill
      invariant |pool| == i && pool == bucket
      invariant fresh(a) && fresh(b)
    {
      a.Refill(times[i]);
      var take := a.Draw(1);
      var ok := b.TryAcquire(times[i]);
      pool, bucket := pool + [take == 1], bucket + [ok];
    }
  }

  // ---------------------------------------------------------------- the lease size

  /** ceil(rate / workers), at least one, at most the burst; zero when there is no worker. */
  function LeaseBatch(rate: nat, workers: nat, burst: nat): (batch: nat)
    requires rate < UINT32 && workers < UINT32 && burst < UINT32
    ensures batch <= burst && (batch > 0 <==> workers > 0 && burst > 0)
    ensures workers > 0 ==> batch * workers >= rate || batch == burst   // together the workers can hold the rate
    ensures batch > 1 ==> (batch - 1) * workers < rate                  // and no smaller lease would do
  {
    if workers == 0 then 0
    else
      var batch := (rate + workers - 1) / workers;
      assert rate + workers - 1 == batch * workers + (rate + workers - 1) % workers;
      assert (batch - 1) * workers == batch * workers - workers;
      DivMonotone(0, rate + workers - 1, workers);
      if batch >= burst then
        MulMonotone(burst - 1, batch - 1, workers);
        burst
      else if batch > 0 then batch
      else 1
  }

  /** A worker refreshes its lease when twice the balance, in 32 bits, is below the batch. */
  predicate RunsLow(balance: nat, batch: nat) {
    (balance * 2) % UINT32 < batch
  }

  /** The 32-bit doubling agrees with the intended "below half a batch" exactly below 2^31; from
      there on it always refreshes. */
  lemma RunsLowIff(balance: nat, batch: nat)
    requires balance <= batch < UINT32 && batch > 0
    ensures (RunsLow(balance, batch) <==> balance * 2 < batch) <==> balance < 0x8000_0000
    ensures balance >= 0x8000_0000 ==> RunsLow(balance, batch)
    ensures balance == 0 ==> RunsLow(balance, batch)
  {
    if balance >= 0x8000_0000 { DivUnique(balance * 2, UINT32, 1, balance * 2 - UINT32); }
    else { DivUnique(balance * 2, UINT32, 0, balance * 2); }
  }
}
