/** Global admission shared by any number of workers: a refilling coordinator, workers that return
    and draw leases and spend them locally, requests that finish.  Each load and each
    compare-exchange on the shared credit is a step of its own; all interleavings are runs.
    `admitted` and `outstanding` are history: requests let through, and those still in flight. */
module Leases {
  import opened Arith
  import opened Admission

  datatype Limit = Limit(rate: nat, burst: nat, workers: nat, maxInflight: nat, start: int)

  ghost predicate ValidLimit(l: Limit) {
    Limits(l.rate, l.burst) && 0 < l.workers < UINT32 && 0 < l.maxInflight
  }

  function Capacity(l: Limit): int { l.burst * SCALE }

  function Batch(l: Limit): nat
    requires ValidLimit(l)
  {
    LeaseBatch(l.rate, l.workers, l.burst)
  }

  /** The coordinator inside Refill: the clock already moved, the credit not yet. */
  datatype RefillPc = NoRefill | Moved(elapsed: int) | RefillLoaded(elapsed: int, loaded: int)

  /** A worker inside TryAdmit, or giving its lease back (`leaving`). */
  datatype Pc =
    | Idle
    | Entered
    | ReturnStart(leaving: bool)
    | Returning(leaving: bool, loaded: int)
    | Returned(leaving: bool)
    | DrawStart
    | Drawing(loaded: int)
    | Settled

  datatype Worker = Worker(balance: nat, pc: Pc)

  datatype Pool = Pool(
    limit: Limit,
    credit: int,
    lastRefill: int,
    refill: RefillPc,
    workers: seq<Worker>,
    inflight: nat,
    outstanding: nat,
    admitted: nat)

  datatype Step =
    | Tick(now: int)
    | LoadRefill
    | CasRefill(spurious: bool)
    | Enter(w: nat)
    | TestBalance(w: nat)
    | LoadReturn(w: nat)
    | CasReturn(w: nat, spurious: bool)
    | ZeroBalance(w: nat)
    | LoadDraw(w: nat)
    | CasDraw(w: nat, spurious: bool)
    | Spend(w: nat)
    | GiveBack(w: nat)
    | FinishRequest

  function Init(l: Limit): Pool {
    Pool(l, Capacity(l), l.start, NoRefill, seq(l.workers, _ => Worker(0, Idle)), 0, 0, 0)
  }

  function WorkerOf(step: Step): nat {
    match step
    case Enter(w) => w case TestBalance(w) => w case LoadReturn(w) => w case CasReturn(w, _) => w
    case ZeroBalance(w) => w case LoadDraw(w) => w case CasDraw(w, _) => w case Spend(w) => w
    case GiveBack(w) => w
    case _ => 0
  }

  predicate Enabled(s: Pool, step: Step) {
    match step
    case Tick(_) => s.refill.NoRefill?
    case LoadRefill => s.refill.Moved?
    case CasRefill(_) => s.refill.RefillLoaded?
    case FinishRequest => s.outstanding > 0
    case _ =>
      && WorkerOf(step) < |s.workers|
      && var pc := s.workers[WorkerOf(step)].pc;
         match step
         case Enter(_) => pc.Idle?
         case GiveBack(_) => pc.Idle?
         case TestBalance(_) => pc.Entered?
         case LoadReturn(_) => pc.ReturnStart?
         case CasReturn(_, _) => pc.Returning?
         case ZeroBalance(_) => pc.Returned?
         case LoadDraw(_) => pc.DrawStart?
         case CasDraw(_, _) => pc.Drawing?
         case _ => pc.Settled?
  }

  function Set(s: Pool, w: nat, worker: Worker): Pool
    requires w < |s.workers|
  {
    s.(workers := s.workers[w := worker])
  }

  function ApplyRefill(s: Pool, spurious: bool): Pool
    requires s.refill.RefillLoaded? && s.limit.rate > 0
  {
    var RefillLoaded(elapsed, loaded) := s.refill;
    var missing := Capacity(s.limit) - loaded;
    if missing <= 0 then s.(refill := NoRefill)
    else if s.credit == loaded && !spurious then
      var needed := (missing + s.limit.rate - 1) / s.limit.rate;
      s.(credit := loaded + (if elapsed >= needed then missing else s.limit.rate * elapsed), refill := NoRefill)
    else s.(refill := RefillLoaded(elapsed, s.credit))
  }

  function ApplyReturn(s: Pool, w: nat, spurious: bool): Pool
    requires w < |s.workers| && s.workers[w].pc.Returning?
  {
    var Worker(balance, Returning(leaving, loaded)) := s.workers[w];
    var returned := Min(Capacity(s.limit) - loaded, balance * SCALE);
    if returned <= 0 then Set(s, w, Worker(balance, Returned(leaving)))
    else if s.credit == loaded && !spurious then
      Set(s.(credit := loaded + returned), w, Worker(balance, Returned(leaving)))
    else Set(s, w, Worker(balance, Returning(leaving, s.credit)))
  }

  function ApplyDraw(s: Pool, w: nat, spurious: bool): Pool
    requires w < |s.workers| && s.workers[w].pc.Drawing? && ValidLimit(s.limit)
  {
    var loaded := s.workers[w].pc.loaded;
    var whole := loaded / SCALE;
    if whole <= 0 then Set(s, w, Worker(0, Settled))
    else
      var take := Min(whole, Batch(s.limit));
      if s.credit == loaded && !spurious then Set(s.(credit := loaded - take * SCALE), w, Worker(take, Settled))
      else Set(s, w, s.workers[w].(pc := Drawing(s.credit)))
  }

  function ApplySpend(s: Pool, w: nat): Pool
    requires w < |s.workers|
  {
    var balance := s.workers[w].balance;
    if balance == 0 then
      Set(s, w, Worker(0, Idle)).(inflight := if s.inflight == 0 then 0 else s.inflight - 1)
    else
      Set(s, w, Worker(balance - 1, Idle)).(admitted := s.admitted + 1, outstanding := s.outstanding + 1)
  }

  function Apply(s: Pool, step: Step): Pool
    requires ValidLimit(s.limit) && Enabled(s, step)
  {
    match step
    case Tick(now) => if now <= s.lastRefill then s else s.(lastRefill := now, refill := Moved(now - s.lastRefill))
    case LoadRefill => s.(refill := RefillLoaded(s.refill.elapsed, s.credit))
    case CasRefill(spurious) => ApplyRefill(s, spurious)
    case Enter(w) =>
      if s.inflight < s.limit.maxInflight
      then Set(s.(inflight := s.inflight + 1), w, s.workers[w].(pc := Entered)) else s
    case TestBalance(w) =>
      var balance := s.workers[w].balance;
      Set(s, w, Worker(balance, if !RunsLow(balance, Batch(s.limit)) then Settled
                                else if balance == 0 then DrawStart else ReturnStart(false)))
    case LoadReturn(w) => Set(s, w, s.workers[w].(pc := Returning(s.workers[w].pc.leaving, s.credit)))
    case CasReturn(w, spurious) => ApplyReturn(s, w, spurious)
    case ZeroBalance(w) => Set(s, w, Worker(0, if s.workers[w].pc.leaving then Idle else DrawStart))
    case LoadDraw(w) => Set(s, w, s.workers[w].(pc := Drawing(s.credit)))
    case CasDraw(w, spurious) => ApplyDraw(s, w, spurious)
    case Spend(w) => ApplySpend(s, w)
    case GiveBack(w) => if s.workers[w].balance == 0 then s else Set(s, w, s.workers[w].(pc := ReturnStart(true)))
    case FinishRequest =>
      s.(outstanding := s.outstanding - 1, inflight := if s.inflight == 0 then 0 else s.inflight - 1)
  }

  // ---------------------------------------------------------------- invariant

  /** Tokens a worker may still spend; a balance already returned no longer counts. */
  function HeldBy(w: Worker): nat { if w.pc.Returned? then 0 else w.balance }

  /** The worker occupies an in-flight slot it has not yet passed to a request. */
  function SlotOf(w: Worker): nat {
    match w.pc
    case Idle => 0
    case ReturnStart(leaving) => if leaving then 0 else 1
    case Returning(leaving, _) => if leaving then 0 else 1
    case Returned(leaving) => if leaving then 0 else 1
    case _ => 1
  }

  function Held(ws: seq<Worker>): nat {
    if ws == [] then 0 else Held(ws[..|ws| - 1]) + HeldBy(ws[|ws| - 1])
  }

  function Slots(ws: seq<Worker>): nat {
    if ws == [] then 0 else Slots(ws[..|ws| - 1]) + SlotOf(ws[|ws| - 1])
  }

  /** Time the clock has already moved for, whose credit is still to be added. */
  function Owed(r: RefillPc): int { if r.NoRefill? then 0 else r.elapsed }

  ghost predicate RateBound(s: Pool) {
    SCALE * (s.admitted + Held(s.workers)) + s.credit + s.limit.rate * Owed(s.refill)
    <= Capacity(s.limit) + s.limit.rate * (s.lastRefill - s.limit.start)
  }

  /** No lease exceeds the batch, and a worker that is drawing holds none. */
  ghost predicate WorkerOk(w: Worker, batch: nat) {
    w.balance <= batch && (w.pc.DrawStart? || w.pc.Drawing? ==> w.balance == 0)
  }

  ghost predicate WorkersOk(ws: seq<Worker>, batch: nat) {
    forall w :: 0 <= w < |ws| ==> WorkerOk(ws[w], batch)
  }

  ghost predicate Inv(s: Pool) {
    && ValidLimit(s.limit) && |s.workers| == s.limit.workers
    && 0 <= s.credit <= Capacity(s.limit)
    && Owed(s.refill) >= 0
    && WorkersOk(s.workers, Batch(s.limit))
    && s.inflight == s.outstanding + Slots(s.workers) <= s.limit.maxInflight
    && RateBound(s)
  }

  // ---------------------------------------------------------------- preservation

  lemma {:induction false} SumsAfterSet(ws: seq<Worker>, i: nat, w: Worker)
    requires i < |ws|
    ensures Held(ws[i := w]) == Held(ws) - HeldBy(ws[i]) + HeldBy(w)
    ensures Slots(ws[i := w]) == Slots(ws) - SlotOf(ws[i]) + SlotOf(w)
  {
    var n := |ws| - 1;
    if i < n {
      SumsAfterSet(ws[..n], i, w);
      assert ws[i := w][..n] == ws[..n][i := w];
    } else {
      assert ws[i := w][..n] == ws[..n];
    }
  }

  /** A refill adds exactly the missing credit or the rate times the elapsed time, whichever is less. */
  lemma KeepsRefill(s: Pool, spurious: bool)
    requires Inv(s) && s.refill.RefillLoaded?
    ensures Inv(ApplyRefill(s, spurious))
  {
    var RefillLoaded(elapsed, loaded) := s.refill;
    if Capacity(s.limit) - loaded > 0 && s.credit == loaded {
      RefillBranch(Capacity(s.limit) - loaded, s.limit.rate, elapsed);
    }
    assert s.limit.rate * elapsed >= 0;
  }

  lemma KeepsReturn(s: Pool, w: nat, spurious: bool)
    requires Inv(s) && w < |s.workers| && s.workers[w].pc.Returning?
    ensures Inv(ApplyReturn(s, w, spurious))
  {
    SumsAfterSet(s.workers, w, ApplyReturn(s, w, spurious).workers[w]);
  }

  lemma KeepsDraw(s: Pool, w: nat, spurious: bool)
    requires Inv(s) && w < |s.workers| && s.workers[w].pc.Drawing?
    ensures Inv(ApplyDraw(s, w, spurious))
  {
    SumsAfterSet(s.workers, w, ApplyDraw(s, w, spurious).workers[w]);
  }

  lemma KeepsTick(s: Pool, now: int)
    requires Inv(s) && s.refill.NoRefill?
    ensures Inv(Apply(s, Tick(now)))
  {
    if now > s.lastRefill {
      var d, e := now - s.lastRefill, s.lastRefill - s.limit.start;
      MulSplit(s.limit.rate, d, e);
      assert d + e == now - s.limit.start;
    }
  }

  /** A move of one worker that gains no token and keeps its in-flight slot. */
  lemma KeepsLocal(s: Pool, w: nat, x: Worker)
    requires Inv(s) && w < |s.workers|
    requires HeldBy(x) <= HeldBy(s.workers[w]) && SlotOf(x) == SlotOf(s.workers[w]) && WorkerOk(x, Batch(s.limit))
    ensures Inv(Set(s, w, x))
  {
    SumsAfterSet(s.workers, w, x);
  }

  lemma KeepsEnter(s: Pool, w: nat)
    requires Inv(s) && Enabled(s, Enter(w))
    ensures Inv(Apply(s, Enter(w)))
  {
    SumsAfterSet(s.workers, w, s.workers[w].(pc := Entered));
  }

  /** Spending moves one token from the worker to the admitted requests, or lets the slot go. */
  lemma KeepsSpend(s: Pool, w: nat)
    requires Inv(s) && Enabled(s, Spend(w))
    ensures Inv(ApplySpend(s, w))
  {
    assert WorkerOk(s.workers[w], Batch(s.limit));
    SumsAfterSet(s.workers, w, ApplySpend(s, w).workers[w]);
  }

  lemma KeepsStep(s: Pool, step: Step)
    requires Inv(s) && Enabled(s, step)
    ensures Inv(Apply(s, step)) && Apply(s, step).limit == s.limit
  {
    match step
    case Tick(now) => KeepsTick(s, now);
    case LoadRefill => KeepsLoadRefill(s);
    case CasRefill(spurious) => KeepsRefill(s, spurious);
    case CasReturn(w, spurious) => KeepsReturn(s, w, spurious);
    case CasDraw(w, spurious) => KeepsDraw(s, w, spurious);
    case Enter(w) => KeepsEnter(s, w);
    case Spend(w) => KeepsSpend(s, w);
    case FinishRequest => KeepsFinish(s);
    case _ => KeepsOwn(s, step);
  }

  lemma KeepsLoadRefill(s: Pool)
    requires Inv(s) && Enabled(s, LoadRefill)
    ensures Inv(Apply(s, LoadRefill))
  {
  }

  lemma KeepsFinish(s: Pool)
    requires Inv(s) && Enabled(s, FinishRequest)
    ensures Inv(Apply(s, FinishRequest))
  {
  }

  /** The steps of a worker that touch nothing shared. */
  lemma KeepsOwn(s: Pool, step: Step)
    requires Inv(s) && Enabled(s, step)
    requires step.TestBalance? || step.LoadReturn? || step.ZeroBalance? || step.LoadDraw? || step.GiveBack?
    ensures Inv(Apply(s, step))
  {
    KeepsLocal(s, step.w, Apply(s, step).workers[step.w]);
  }

  // ---------------------------------------------------------------- every run

  ghost predicate Runs(s: Pool, steps: seq<Step>, s': Pool)
    decreases |steps|
  {
    if steps == [] then s' == s
    else ValidLimit(s.limit) && Enabled(s, steps[0]) && Runs(Apply(s, steps[0]), steps[1..], s')
  }

  lemma {:induction false} RunKeeps(s: Pool, steps: seq<Step>, s': Pool)
    requires Inv(s) && Runs(s, steps, s')
    ensures Inv(s') && s'.limit == s.limit
    decreases |steps|
  {
    if steps != [] {
      KeepsStep(s, steps[0]);
      RunKeeps(Apply(s, steps[0]), steps[1..], s');
    }
  }

  lemma {:induction false} IdleSums(n: nat)
    ensures Held(seq(n, _ => Worker(0, Idle))) == 0 && Slots(seq(n, _ => Worker(0, Idle))) == 0
  {
    if n > 0 {
      IdleSums(n - 1);
      assert seq(n, _ => Worker(0, Idle))[..n - 1] == seq(n - 1, _ => Worker(0, Idle));
    }
  }

  /** For any number of workers and any interleaving: what has been admitted, what workers still
      hold and what is left never exceed the burst plus the rate times the time since the start;
      credit stays within capacity, no lease exceeds the batch, and the in-flight counter is
      exactly the requests in flight plus the admissions in progress, never above its maximum. */
  lemma RateNeverExceeded(l: Limit, steps: seq<Step>, s: Pool, now: int)
    requires ValidLimit(l) && Runs(Init(l), steps, s) && s.lastRefill <= now
    ensures SCALE * (s.admitted + Held(s.workers)) + s.credit <= l.burst * SCALE + l.rate * (now - l.start)
    ensures SCALE * s.admitted <= l.burst * SCALE + l.rate * (now - l.start)
    ensures 0 <= s.credit <= l.burst * SCALE
    ensures forall w :: 0 <= w < |s.workers| ==> s.workers[w].balance <= LeaseBatch(l.rate, l.workers, l.burst)
    ensures s.outstanding <= s.inflight <= l.maxInflight && s.inflight == s.outstanding + Slots(s.workers)
  {
    InitHolds(l);
    RunKeeps(Init(l), steps, s);
    BoundAt(s, now);
    assert forall w :: 0 <= w < |s.workers| ==> WorkerOk(s.workers[w], Batch(l));
  }

  lemma InitHolds(l: Limit)
    requires ValidLimit(l)
    ensures Inv(Init(l))
  {
    IdleSums(l.workers);
  }

  /** The bound at the last refill also holds at any later time. */
  lemma BoundAt(s: Pool, now: int)
    requires RateBound(s) && Owed(s.refill) >= 0 && s.lastRefill <= now
    ensures SCALE * (s.admitted + Held(s.workers)) + s.credit
            <= s.limit.burst * SCALE + s.limit.rate * (now - s.limit.start)
  {
    var rate, d, e := s.limit.rate, now - s.lastRefill, s.lastRefill - s.limit.start;
    MulSplit(rate, d, e);
    assert d + e == now - s.limit.start;
    MulNonNegative(rate, d);
    MulNonNegative(rate, Owed(s.refill));
  }
}
