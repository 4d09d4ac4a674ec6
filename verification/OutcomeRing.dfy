/** The outcome channel's bounded multi-producer, single-consumer ring, as a machine whose
    steps are the individual atomic operations of reserving, publishing, cancelling, moving
    and draining.  Any number of threads and handles may interleave in any order.

    `head` and `tail` count every claim and every drain; the program keeps them in 32 bits,
    which is visible only where a counter selects a slot (`SlotOf`) and in the overflow test.
    `log` and `consumed` are history: every claim in claim order, every delivery in order. */
module OutcomeRing {
  import opened Arith
  import opened Attempts

  const WRAP: nat := 0x1_0000_0000

  datatype Slot = Slot(value: Option<AttemptResult>, ready: bool)

  /** A thread inside TryReserve: past the accepting test, or holding a loaded credit value. */
  datatype ReservePc = PastAccepting | Loaded(current: nat)

  /** A Reservation object: Empty has no channel; Live is unfinalised; the others are the
      positions inside Publish, ending with Published (finalised, nothing left to do). */
  datatype Handle =
    | Empty
    | Live
    | Claiming(result: AttemptResult)
    | Claimed(index: nat, result: AttemptResult)
    | Checked(index: nat, result: AttemptResult)
    | Written(index: nat, result: AttemptResult)
    | Signalling(index: nat)
    | Published

  /** The consumer's position inside DrainOnCoordinatorLoop. */
  datatype DrainPc =
    | Idle
    | Looking
    | Seen
    | Read(value: AttemptResult)
    | Unready(value: AttemptResult)
    | Cleared(value: AttemptResult)
    | Advanced(value: AttemptResult)
    | Delivered

  datatype Claim = Claim(owner: nat, result: AttemptResult)

  datatype Ring = Ring(
    capacity: nat,
    accepting: bool,
    available: nat,
    head: nat,
    tail: nat,
    rejected: nat,
    slots: seq<Slot>,
    wake: bool,
    terminated: bool,
    reserving: map<nat, ReservePc>,
    handles: map<nat, Handle>,
    drain: DrainPc,
    log: seq<Claim>,
    consumed: seq<AttemptResult>)

  datatype Step =
    | TestAccepting(t: nat)
    | LoadCredit(t: nat)
    | CompareExchange(t: nat, o: nat, spurious: bool)
    | BeginPublish(o: nat, result: AttemptResult)
    | ClaimHead(o: nat)
    | CheckTail(o: nat)
    | WriteValue(o: nat)
    | StoreReady(o: nat)
    | SignalWake(o: nat)
    | Finalize(o: nat)
    | MoveAssign(from: nat, o: nat)
    | BeginStopping
    | StartDrain
    | Look
    | ReadValue
    | ClearReady
    | ClearValue
    | AdvanceTail
    | Deliver
    | ReturnCredit

  function SlotOf(counter: nat, capacity: nat): (k: nat)
    requires capacity > 0
    ensures k < capacity
  {
    (counter % WRAP) % capacity
  }

  /** The slot a counter value selects. */
  function Cell(slots: seq<Slot>, counter: nat): Slot
    requires |slots| > 0
  {
    slots[SlotOf(counter, |slots|)]
  }

  /** A cleared slot holds the default result. */
  function ValueIn(slot: Slot): AttemptResult {
    if slot.value.Some? then slot.value.value else AttemptResult(0, 0, AttemptPermit(false, 0, 0), false)
  }

  function Init(capacity: nat): Ring {
    Ring(capacity, true, capacity, 0, 0, 0, seq(capacity, _ => Slot(None, false)), false, false,
         map[], map[], Idle, [], [])
  }

  function HandleOf(handles: map<nat, Handle>, o: nat): Handle {
    if o in handles then handles[o] else Empty
  }

  /** A handle no method is running on. */
  predicate AtRest(h: Handle) {
    h.Empty? || h.Live? || h.Published?
  }

  predicate Enabled(s: Ring, step: Step) {
    && !s.terminated && s.capacity > 0 && |s.slots| == s.capacity
    && match step
       case TestAccepting(t) => t !in s.reserving
       case LoadCredit(t) => t in s.reserving && s.reserving[t].PastAccepting?
       case CompareExchange(t, o, _) => t in s.reserving && s.reserving[t].Loaded? && HandleOf(s.handles, o).Empty?
       case BeginPublish(o, _) => AtRest(HandleOf(s.handles, o))
       case ClaimHead(o) => HandleOf(s.handles, o).Claiming?
       case CheckTail(o) => HandleOf(s.handles, o).Claimed?
       case WriteValue(o) => HandleOf(s.handles, o).Checked?
       case StoreReady(o) => HandleOf(s.handles, o).Written?
       case SignalWake(o) => HandleOf(s.handles, o).Signalling?
       case Finalize(o) => AtRest(HandleOf(s.handles, o))
       case MoveAssign(from, o) => from != o && AtRest(HandleOf(s.handles, from)) && AtRest(HandleOf(s.handles, o))
       case BeginStopping => true
       case StartDrain => s.drain.Idle?
       case Look => s.drain.Looking?
       case ReadValue => s.drain.Seen?
       case ClearReady => s.drain.Read?
       case ClearValue => s.drain.Unready?
       case AdvanceTail => s.drain.Cleared?
       case Deliver => s.drain.Advanced?
       case ReturnCredit => s.drain.Delivered?
  }

  function Put(s: Ring, o: nat, h: Handle): Ring {
    s.(handles := s.handles[o := h])
  }

  function SetSlot(s: Ring, counter: nat, slot: Slot): Ring
    requires s.capacity > 0 && |s.slots| == s.capacity
  {
    s.(slots := s.slots[SlotOf(counter, s.capacity) := slot])
  }

  /** TryReserve after its first load: no credit left refuses, a matching credit is taken,
      any other value (or a spurious failure) reloads. */
  function ApplyCas(s: Ring, t: nat, o: nat, spurious: bool): Ring
    requires t in s.reserving && s.reserving[t].Loaded?
  {
    var current := s.reserving[t].current;
    if current == 0 then
      s.(rejected := s.rejected + 1, reserving := s.reserving - {t})
    else if s.available == current && !spurious then
      Put(s.(available := current - 1, reserving := s.reserving - {t}), o, Live)
    else
      s.(reserving := s.reserving[t := Loaded(s.available)])
  }

  /** Reservation::Finalize: an unpublished handle gives its credit back. */
  function ApplyFinalize(s: Ring, o: nat): Ring {
    Put(if HandleOf(s.handles, o).Live? then s.(available := s.available + 1) else s, o, Empty)
  }

  function ApplyMove(s: Ring, from: nat, o: nat): Ring {
    Put(Put(ApplyFinalize(s, o), o, HandleOf(s.handles, from)), from, Empty)
  }

  function Apply(s: Ring, step: Step): Ring
    requires Enabled(s, step)
  {
    match step
    case TestAccepting(t) =>
      if s.accepting then s.(reserving := s.reserving[t := PastAccepting])
      else s.(rejected := s.rejected + 1)
    case LoadCredit(t) => s.(reserving := s.reserving[t := Loaded(s.available)])
    case CompareExchange(t, o, spurious) => ApplyCas(s, t, o, spurious)
    case BeginPublish(o, result) =>
      if HandleOf(s.handles, o).Live? then Put(s, o, Claiming(result)) else s
    case ClaimHead(o) =>
      var result := HandleOf(s.handles, o).result;
      Put(s.(head := s.head + 1, log := s.log + [Claim(o, result)]), o, Claimed(s.head, result))
    case CheckTail(o) =>
      var h := HandleOf(s.handles, o);
      // 32-bit subtraction of the two counters
      if (h.index - s.tail) % WRAP >= s.capacity then s.(terminated := true)
      else Put(s, o, Checked(h.index, h.result))
    case WriteValue(o) =>
      var h := HandleOf(s.handles, o);
      var cell := Cell(s.slots, h.index);
      Put(SetSlot(s, h.index, cell.(value := Some(h.result))), o, Written(h.index, h.result))
    case StoreReady(o) =>
      var h := HandleOf(s.handles, o);
      var cell := Cell(s.slots, h.index);
      Put(SetSlot(s, h.index, cell.(ready := true)), o, Signalling(h.index))
    case SignalWake(o) => Put(s.(wake := true), o, Published)
    case Finalize(o) => ApplyFinalize(s, o)
    case MoveAssign(from, o) => ApplyMove(s, from, o)
    case BeginStopping => s.(accepting := false)
    case StartDrain => s.(wake := false, drain := Looking)
    case Look => s.(drain := if Cell(s.slots, s.tail).ready then Seen else Idle)
    case ReadValue => s.(drain := Read(ValueIn(Cell(s.slots, s.tail))))
    case ClearReady =>
      SetSlot(s, s.tail, Cell(s.slots, s.tail).(ready := false)).(drain := Unready(s.drain.value))
    case ClearValue =>
      SetSlot(s, s.tail, Cell(s.slots, s.tail).(value := None)).(drain := Cleared(s.drain.value))
    case AdvanceTail => s.(tail := s.tail + 1, drain := Advanced(s.drain.value))
    case Deliver => s.(consumed := s.consumed + [s.drain.value], drain := Delivered)
    case ReturnCredit => s.(available := s.available + 1, drain := Looking)
  }

  /** `s'` is reached from `s` by the given steps. */
  ghost predicate Runs(s: Ring, steps: seq<Step>, s': Ring)
    decreases |steps|
  {
    if steps == [] then s' == s
    else Enabled(s, steps[0]) && Runs(Apply(s, steps[0]), steps[1..], s')
  }

  // ---------------------------------------------------------------- invariant

  predicate Holding(h: Handle) {
    h.Live? || h.Claiming?
  }

  /** The handles holding an unfinalised reservation. */
  function Holders(handles: map<nat, Handle>): set<nat> {
    set o | o in handles && Holding(handles[o])
  }

  predicate InFlight(h: Handle) {
    h.Claimed? || h.Checked? || h.Written?
  }

  function BetweenAdvanceAndReturn(s: Ring): nat {
    if s.drain.Advanced? || s.drain.Delivered? then 1 else 0
  }

  /** Every credit is somewhere: available, held by an unfinalised reservation, in the ring,
      or in the consumer's hand between advancing the tail and returning the credit. */
  ghost predicate CreditsConserved(s: Ring) {
    && s.tail <= s.head
    && s.available + |Holders(s.handles)| + (s.head - s.tail) + BetweenAdvanceAndReturn(s) == s.capacity
  }

  /** The consumer is at the tail cell and has already taken its ready flag down. */
  predicate Draining(drain: DrainPc) {
    drain.Unready? || drain.Cleared?
  }

  predicate WriterAt(handles: map<nat, Handle>, o: nat, c: nat) {
    InFlight(HandleOf(handles, o)) && HandleOf(handles, o).index == c
  }

  /** A claimed, undrained cell: published with the claimed result, or still owned by the
      handle that claimed it, or under the consumer's hand. */
  ghost predicate CellOk(slot: Slot, claim: Claim, handles: map<nat, Handle>, draining: bool, c: nat) {
    if slot.ready then
      slot.value == Some(claim.result) && !WriterAt(handles, claim.owner, c) && !draining
    else if draining then
      !WriterAt(handles, claim.owner, c)
    else
      WriterAt(handles, claim.owner, c)
      && (HandleOf(handles, claim.owner).Written? ==> slot.value == Some(claim.result))
  }

  ghost predicate CellAt(s: Ring, c: nat)
    requires s.capacity > 0 && |s.slots| == s.capacity && c < |s.log|
  {
    CellOk(Cell(s.slots, c), s.log[c], s.handles, c == s.tail && Draining(s.drain), c)
  }

  ghost predicate CellsOk(s: Ring)
    requires s.capacity > 0 && |s.slots| == s.capacity && s.head == |s.log|
  {
    && (forall c :: s.tail <= c < s.head ==> CellAt(s, c))
    && (forall c :: s.head <= c < s.tail + s.capacity ==> !Cell(s.slots, c).ready)
  }

  ghost predicate WritersOk(s: Ring)
    requires s.head == |s.log|
  {
    forall o :: o in s.handles && InFlight(s.handles[o]) ==>
      var h := s.handles[o];
      s.tail <= h.index < s.head && s.log[h.index] == Claim(o, h.result)
  }

  ghost predicate DrainOk(s: Ring)
    requires s.capacity > 0 && |s.slots| == s.capacity && s.head == |s.log|
  {
    match s.drain
    case Seen => s.tail < s.head && Cell(s.slots, s.tail).ready
    case Read(v) => s.tail < s.head && Cell(s.slots, s.tail).ready && v == s.log[s.tail].result
    case Unready(v) => s.tail < s.head && v == s.log[s.tail].result
    case Cleared(v) => s.tail < s.head && v == s.log[s.tail].result
    case Advanced(v) => 0 < s.tail <= s.head && v == s.log[s.tail - 1].result
    case _ => true
  }

  /** What has been delivered is exactly the claim log up to the tail, in claim order. */
  ghost predicate DeliveredInOrder(s: Ring) {
    && |s.consumed| == s.tail - (if s.drain.Advanced? then 1 else 0)
    && |s.consumed| <= |s.log|
    && forall i :: 0 <= i < |s.consumed| ==> s.consumed[i] == s.log[i].result
  }

  /** A ready result the consumer is not looking at has a wake pending, or its publisher is
      between storing `ready` and writing the wake. */
  ghost predicate WakePending(s: Ring)
    requires s.capacity > 0 && |s.slots| == s.capacity && s.head == |s.log|
  {
    s.drain.Idle? && s.tail < s.head && Cell(s.slots, s.tail).ready ==>
      s.wake || HandleOf(s.handles, s.log[s.tail].owner) == Signalling(s.tail)
  }

  /** The ring part of the invariant, everything but the credits. */
  ghost predicate RingOk(s: Ring) {
    && s.capacity > 0 && |s.slots| == s.capacity && !s.terminated
    && s.head == |s.log|
    && WritersOk(s)
    && CellsOk(s)
    && DrainOk(s)
    && DeliveredInOrder(s)
    && WakePending(s)
  }

  ghost predicate Inv(s: Ring) {
    RingOk(s) && CreditsConserved(s)
  }

  /** The slots of any `capacity` consecutive counters from `from` on are distinct. */
  ghost predicate DistinctSlots(from: nat, capacity: nat)
    requires capacity > 0
  {
    forall c, d :: from <= c < d < from + capacity ==> SlotOf(c, capacity) != SlotOf(d, capacity)
  }

  // ---------------------------------------------------------------- preservation, step by step

  /** Setting one handle changes the number of holders by that handle alone. */
  lemma HoldersChange(handles: map<nat, Handle>, o: nat, h: Handle)
    ensures |Holders(handles[o := h])|
            == |Holders(handles)| + (if Holding(h) then 1 else 0)
               - (if o in handles && Holding(handles[o]) then 1 else 0)
  {
    var rest := Holders(handles) - {o};
    assert Holders(handles) == if o in handles && Holding(handles[o]) then rest + {o} else rest;
    assert Holders(handles[o := h]) == if Holding(h) then rest + {o} else rest;
  }

  /** Changing a handle that is not in flight to another such state disturbs no ring cell. */
  lemma CellsKept(s: Ring, s': Ring, o: nat)
    requires RingOk(s)
    requires s'.handles == s.handles[o := HandleOf(s'.handles, o)]
    requires !InFlight(HandleOf(s.handles, o)) && !InFlight(HandleOf(s'.handles, o))
    requires !HandleOf(s.handles, o).Signalling?
    requires s' == s.(handles := s'.handles, available := s'.available,
                      rejected := s'.rejected, reserving := s'.reserving)
    ensures RingOk(s')
  {
    forall c | s'.tail <= c < s'.head ensures CellAt(s', c) {
      assert CellAt(s, c);
    }
  }

  /** Within a window of distinct slots, writing one counter's slot changes that cell only. */
  lemma CellAfterSet(slots: seq<Slot>, from: nat, c: nat, slot: Slot)
    requires |slots| > 0 && DistinctSlots(from, |slots|) && from <= c < from + |slots|
    ensures var slots' := slots[SlotOf(c, |slots|) := slot];
            forall d :: from <= d < from + |slots| ==> Cell(slots', d) == if d == c then slot else Cell(slots, d)
  {
    forall d | from <= d < from + |slots| && d != c ensures SlotOf(d, |slots|) != SlotOf(c, |slots|) {
      if d < c { assert SlotOf(d, |slots|) != SlotOf(c, |slots|); }
    }
  }

  lemma KeepsReserve(s: Ring, step: Step)
    requires Inv(s) && Enabled(s, step)
    requires step.TestAccepting? || step.LoadCredit? || step.BeginStopping?
    ensures Inv(Apply(s, step))
  {
    var s' := Apply(s, step);
    forall c | s'.tail <= c < s'.head ensures CellAt(s', c) {
      assert CellAt(s, c);
    }
  }

  /** A refused or reloading reservation touches nothing else. */
  lemma ReservingOnly(s: Ring, s': Ring)
    requires Inv(s) && s' == s.(rejected := s'.rejected, reserving := s'.reserving)
    ensures Inv(s')
  {
    forall c | s'.tail <= c < s'.head ensures CellAt(s', c) {
      assert CellAt(s, c);
    }
  }

  /** Taking a credit makes the handle its holder. */
  lemma CreditTaken(s: Ring, s': Ring, o: nat)
    requires Inv(s) && HandleOf(s.handles, o).Empty? && s.available > 0
    requires s' == Put(s.(available := s.available - 1, reserving := s'.reserving), o, Live)
    ensures Inv(s')
  {
    HoldersChange(s.handles, o, Live);
    CellsKept(s, s', o);
  }

  lemma KeepsCas(s: Ring, step: Step)
    requires Inv(s) && Enabled(s, step) && step.CompareExchange?
    ensures Inv(ApplyCas(s, step.t, step.o, step.spurious))
  {
    var s' := ApplyCas(s, step.t, step.o, step.spurious);
    var current := s.reserving[step.t].current;
    if current > 0 && s.available == current && !step.spurious {
      CreditTaken(s, s', step.o);
    } else {
      ReservingOnly(s, s');
    }
  }

  lemma KeepsBeginPublish(s: Ring, step: Step)
    requires Inv(s) && Enabled(s, step) && step.BeginPublish?
    ensures Inv(Apply(s, step))
  {
    var s' := Apply(s, step);
    if HandleOf(s.handles, step.o).Live? {
      HoldersChange(s.handles, step.o, HandleOf(s'.handles, step.o));
      CellsKept(s, s', step.o);
    }
  }

  lemma KeepsFinalize(s: Ring, o: nat)
    requires Inv(s) && Enabled(s, Finalize(o))
    ensures Inv(ApplyFinalize(s, o))
  {
    HoldersChange(s.handles, o, Empty);
    CellsKept(s, ApplyFinalize(s, o), o);
  }

  /** A move hands the credit on: the target's own credit is returned first, the source is
      left empty, and the number of holders is otherwise unchanged. */
  lemma KeepsMove(s: Ring, step: Step)
    requires Inv(s) && Enabled(s, step) && step.MoveAssign?
    ensures Inv(ApplyMove(s, step.from, step.o))
  {
    var freed := ApplyFinalize(s, step.o);
    KeepsFinalize(s, step.o);
    MoveRing(freed, step.from, step.o);
    MoveCredit(freed, step.from, step.o);
  }

  /** Handing on what `from` holds to an empty handle. */
  function HandedOn(s: Ring, from: nat, o: nat): Ring { Put(Put(s, o, HandleOf(s.handles, from)), from, Empty) }

  lemma MoveRing(s: Ring, from: nat, o: nat)
    requires RingOk(s) && from != o && AtRest(HandleOf(s.handles, from)) && HandleOf(s.handles, o).Empty?
    ensures RingOk(HandedOn(s, from, o))
  {
    var mid := Put(s, o, HandleOf(s.handles, from));
    CellsKept(s, mid, o);
    CellsKept(mid, HandedOn(s, from, o), from);
  }

  lemma MoveCredit(s: Ring, from: nat, o: nat)
    requires CreditsConserved(s) && from != o && HandleOf(s.handles, o).Empty?
    ensures CreditsConserved(HandedOn(s, from, o))
  {
    HoldersChange(s.handles, o, HandleOf(s.handles, from));
    HoldersChange(s.handles[o := HandleOf(s.handles, from)], from, Empty);
  }

  lemma KeepsClaim(s: Ring, step: Step)
    requires Inv(s) && Enabled(s, step) && step.ClaimHead?
    ensures Inv(Apply(s, step))
  {
    var s' := Apply(s, step);
    HoldersChange(s.handles, step.o, HandleOf(s'.handles, step.o));
    assert step.o in Holders(s.handles);
    assert s.head < s.tail + s.capacity;
    forall c | s'.tail <= c < s'.head ensures CellAt(s', c) {
      if c < s.head {
        assert CellAt(s, c);
        assert s'.log[c] == s.log[c];
      }
    }
  }

  /** The overflow test never fires: an in-flight index lies within `capacity` of the tail. */
  lemma KeepsCheck(s: Ring, step: Step)
    requires Inv(s) && Enabled(s, step) && step.CheckTail?
    requires s.capacity < WRAP
    ensures Inv(Apply(s, step))
  {
    var h := HandleOf(s.handles, step.o);
    CheckPasses(s, step.o);
    var s' := Apply(s, step);
    HoldersChange(s.handles, step.o, HandleOf(s'.handles, step.o));
    forall c | s'.tail <= c < s'.head ensures CellAt(s', c) {
      assert CellAt(s, c);
    }
  }

  lemma CheckPasses(s: Ring, o: nat)
    requires Inv(s) && Enabled(s, CheckTail(o)) && s.capacity < WRAP
    ensures var h := HandleOf(s.handles, o); Apply(s, CheckTail(o)) == Put(s, o, Checked(h.index, h.result))
  {
    var h := HandleOf(s.handles, o);
    assert 0 <= h.index - s.tail < s.capacity;
    ModSmall(h.index - s.tail, WRAP);
  }

  lemma KeepsWrite(s: Ring, step: Step)
    requires Inv(s) && Enabled(s, step) && step.WriteValue?
    requires DistinctSlots(s.tail, s.capacity)
    ensures Inv(Apply(s, step))
  {
    var h := HandleOf(s.handles, step.o);
    var s' := Apply(s, step);
    HoldersChange(s.handles, step.o, HandleOf(s'.handles, step.o));
    assert CellAt(s, h.index);
    CellAfterSet(s.slots, s.tail, h.index, Cell(s'.slots, h.index));
    forall c | s'.tail <= c < s'.head ensures CellAt(s', c) {
      assert CellAt(s, c);
    }
  }

  lemma KeepsReady(s: Ring, step: Step)
    requires Inv(s) && Enabled(s, step) && step.StoreReady?
    requires DistinctSlots(s.tail, s.capacity)
    ensures Inv(Apply(s, step))
  {
    var h := HandleOf(s.handles, step.o);
    var s' := Apply(s, step);
    HoldersChange(s.handles, step.o, HandleOf(s'.handles, step.o));
    assert CellAt(s, h.index);
    CellAfterSet(s.slots, s.tail, h.index, Cell(s'.slots, h.index));
    forall c | s'.tail <= c < s'.head ensures CellAt(s', c) {
      assert CellAt(s, c);
    }
  }

  lemma KeepsSignal(s: Ring, step: Step)
    requires Inv(s) && Enabled(s, step) && step.SignalWake?
    ensures Inv(Apply(s, step))
  {
    var s' := Apply(s, step);
    HoldersChange(s.handles, step.o, Published);
    forall c | s'.tail <= c < s'.head ensures CellAt(s', c) {
      assert CellAt(s, c);
    }
  }

  /** A ready flag at the tail belongs to a claimed cell. */
  lemma KeepsLook(s: Ring, step: Step)
    requires Inv(s) && Enabled(s, step) && step.Look?
    ensures Inv(Apply(s, step))
  {
    var s' := Apply(s, step);
    if s.head == s.tail { assert !Cell(s.slots, s.tail).ready; }
    forall c | s'.tail <= c < s'.head ensures CellAt(s', c) {
      assert CellAt(s, c);
    }
  }

  lemma KeepsDrain(s: Ring, step: Step)
    requires Inv(s) && Enabled(s, step)
    requires step.StartDrain? || step.ReadValue? || step.Deliver? || step.ReturnCredit?
    ensures Inv(Apply(s, step))
  {
    var s' := Apply(s, step);
    if step.ReadValue? { assert CellAt(s, s.tail); }
    forall c | s'.tail <= c < s'.head ensures CellAt(s', c) {
      assert CellAt(s, c);
    }
  }

  lemma KeepsDrainSlot(s: Ring, step: Step)
    requires Inv(s) && Enabled(s, step) && (step.ClearReady? || step.ClearValue?)
    requires DistinctSlots(s.tail, s.capacity)
    ensures Inv(Apply(s, step))
  {
    var s' := Apply(s, step);
    CellAfterSet(s.slots, s.tail, s.tail, Cell(s'.slots, s.tail));
    assert CellAt(s, s.tail);
    forall c | s'.tail <= c < s'.head ensures CellAt(s', c) {
      assert CellAt(s, c);
    }
  }

  lemma KeepsAdvance(s: Ring, step: Step)
    requires Inv(s) && Enabled(s, step) && step.AdvanceTail?
    requires DistinctSlots(s.tail, s.capacity) && DistinctSlots(s.tail + 1, s.capacity)
    requires SlotOf(s.tail + s.capacity, s.capacity) == SlotOf(s.tail, s.capacity)
    ensures Inv(Apply(s, step))
  {
    var s' := Apply(s, step);
    assert CellAt(s, s.tail);
    forall c | s'.tail <= c < s'.head ensures CellAt(s', c) {
      assert CellAt(s, c);
    }
    forall c | s'.head <= c < s'.tail + s'.capacity ensures !Cell(s'.slots, c).ready {
      assert c < s.tail + s.capacity || c == s.tail + s.capacity;
    }
    assert forall o :: o in s.handles && InFlight(s.handles[o]) && s.handles[o].index == s.tail ==> WriterAt(s.handles, o, s.tail);
  }

  // ---------------------------------------------------------------- counter wrap

  lemma ModOfMod(c: nat, n: nat)
    requires n > 0 && WRAP % n == 0
    ensures (c % WRAP) % n == c % n
  {
    var w, k, r := c / WRAP, WRAP / n, c % WRAP;
    assert w * WRAP == w * (k * n) == (w * k) * n;
    assert (w * k + r / n) * n == (w * k) * n + (r / n) * n;
    DivUnique(c, n, w * k + r / n, r % n);
  }

  /** Where the counter has not wrapped, or wraps at a multiple of the capacity, the slot is
      the plain remainder. */
  lemma SlotIsRemainder(c: nat, capacity: nat)
    requires capacity > 0 && (WRAP % capacity == 0 || c < WRAP)
    ensures SlotOf(c, capacity) == c % capacity
  {
    if WRAP % capacity == 0 { ModOfMod(c, capacity); }
  }

  lemma RemaindersDiffer(c: nat, d: nat, n: nat)
    requires n > 0 && c < d < c + n
    ensures c % n != d % n
  {
    if c % n == d % n {
      assert (d / n - c / n) * n == (d / n) * n - (c / n) * n == d - c;
      if d / n > c / n { MulAtLeast(d / n - c / n, n); }
      else { MulMonotone(d / n - c / n, 0, n); }
      assert false;
    }
  }

  lemma WindowDistinct(from: nat, capacity: nat)
    requires capacity > 0 && (WRAP % capacity == 0 || from + capacity <= WRAP)
    ensures DistinctSlots(from, capacity)
  {
    forall c, d | from <= c < d < from + capacity ensures SlotOf(c, capacity) != SlotOf(d, capacity) {
      SlotIsRemainder(c, capacity);
      SlotIsRemainder(d, capacity);
      RemaindersDiffer(c, d, capacity);
    }
  }

  // ---------------------------------------------------------------- every run

  /** The 32-bit counters do not disturb slot order: the capacity divides 2^32, or the counter
      has not come near its end. */
  predicate CountersFit(s: Ring) {
    s.capacity > 0 && (WRAP % s.capacity == 0 || s.head + s.capacity < WRAP)
  }

  lemma KeepsStep(s: Ring, step: Step)
    requires Inv(s) && Enabled(s, step) && CountersFit(s) && s.capacity < WRAP
    ensures Inv(Apply(s, step))
  {
    WindowDistinct(s.tail, s.capacity);
    match step
    case TestAccepting(_) => KeepsReserve(s, step);
    case LoadCredit(_) => KeepsReserve(s, step);
    case CompareExchange(_, _, _) => KeepsCas(s, step);
    case BeginPublish(_, _) => KeepsBeginPublish(s, step);
    case ClaimHead(_) => KeepsClaim(s, step);
    case CheckTail(_) => KeepsCheck(s, step);
    case WriteValue(_) => KeepsWrite(s, step);
    case StoreReady(_) => KeepsReady(s, step);
    case SignalWake(_) => KeepsSignal(s, step);
    case Finalize(o) => KeepsFinalize(s, o);
    case MoveAssign(_, _) => KeepsMove(s, step);
    case BeginStopping => KeepsReserve(s, step);
    case StartDrain => KeepsDrain(s, step);
    case Look => KeepsLook(s, step);
    case ReadValue => KeepsDrain(s, step);
    case ClearReady => KeepsDrainSlot(s, step);
    case ClearValue => KeepsDrainSlot(s, step);
    case AdvanceTail =>
      WindowDistinct(s.tail + 1, s.capacity);
      SlotIsRemainder(s.tail, s.capacity);
      SlotIsRemainder(s.tail + s.capacity, s.capacity);
      ModPeriod(s.tail, s.capacity);
      KeepsAdvance(s, step);
    case Deliver => KeepsDrain(s, step);
    case ReturnCredit => KeepsDrain(s, step);
  }

  lemma {:induction false} HeadGrows(s: Ring, steps: seq<Step>, s': Ring)
    requires Runs(s, steps, s')
    ensures s.head <= s'.head && s.capacity == s'.capacity
    decreases |steps|
  {
    if steps != [] { HeadGrows(Apply(s, steps[0]), steps[1..], s'); }
  }

  lemma {:induction false} RunKeeps(s: Ring, steps: seq<Step>, s': Ring)
    requires Inv(s) && Runs(s, steps, s') && CountersFit(s') && s.capacity < WRAP
    ensures Inv(s')
    decreases |steps|
  {
    HeadGrows(s, steps, s');
    if steps != [] {
      var m := FirstKept(s, steps, s');
      RunKeeps(m, steps[1..], s');
    }
  }

  lemma FirstKept(s: Ring, steps: seq<Step>, s': Ring) returns (m: Ring)
    requires Inv(s) && Runs(s, steps, s') && steps != [] && CountersFit(s) && s.capacity < WRAP
    ensures Inv(m) && Runs(m, steps[1..], s') && m.capacity == s.capacity
  {
    m := Apply(s, steps[0]);
    KeepsStep(s, steps[0]);
  }

  lemma InitHolds(capacity: nat)
    requires capacity > 0
    ensures Inv(Init(capacity))
  {
    assert Holders(Init(capacity).handles) == {};
  }

  /** Over every interleaving of reserve, publish, cancel, move and drain steps: credits are
      conserved, the overflow abort is never taken, deliveries are the claim log in claim order
      with nothing lost, repeated or altered, no wake is lost; and once every publisher is done
      and a drain has stopped, everything claimed has been delivered. */
  lemma EveryRunDelivers(capacity: nat, steps: seq<Step>, s: Ring)
    requires 0 < capacity < WRAP
    requires Runs(Init(capacity), steps, s) && CountersFit(s)
    ensures |s.slots| == s.capacity == capacity && |s.log| == s.head
    ensures CreditsConserved(s) && s.available <= capacity && s.head - s.tail <= capacity
    ensures !s.terminated
    ensures DeliveredInOrder(s)
    ensures forall o :: o in s.handles && InFlight(s.handles[o]) ==> s.tail <= s.handles[o].index < s.tail + capacity
    ensures forall o, p :: o in s.handles && p in s.handles && o != p && InFlight(s.handles[o]) && InFlight(s.handles[p])
              ==> s.handles[o].index != s.handles[p].index
    ensures s.drain.Idle? && s.tail < s.head && Cell(s.slots, s.tail).ready ==>
              s.wake || HandleOf(s.handles, s.log[s.tail].owner) == Signalling(s.tail)
    ensures (forall o :: o in s.handles ==> AtRest(s.handles[o])) && s.drain.Idle? && !Cell(s.slots, s.tail).ready ==>
              |s.consumed| == |s.log|
  {
    InitHolds(capacity);
    HeadGrows(Init(capacity), steps, s);
    RunKeeps(Init(capacity), steps, s);
    if s.tail < s.head {
      assert CellAt(s, s.tail);
    }
  }

  // ---------------------------------------------------------------- exactly which capacities

  ghost predicate Reachable(capacity: nat, s: Ring) {
    exists steps :: Runs(Init(capacity), steps, s)
  }

  ghost predicate AlwaysInOrder(capacity: nat) {
    forall s :: Reachable(capacity, s) ==> DeliveredInOrder(s)
  }

  lemma {:induction false} RunsSnoc(s: Ring, steps: seq<Step>, m: Ring, step: Step)
    requires Runs(s, steps, m) && Enabled(m, step)
    ensures Runs(s, steps + [step], Apply(m, step))
    decreases |steps|
  {
    if steps == [] {
      assert Runs(Apply(m, step), [], Apply(m, step));
    } else {
      RunsSnoc(Apply(s, steps[0]), steps[1..], m, step);
      assert (steps + [step])[1..] == steps[1..] + [step];
    }
  }

  lemma Extend(capacity: nat, m: Ring, step: Step) returns (s: Ring)
    requires Reachable(capacity, m) && Enabled(m, step)
    ensures s == Apply(m, step) && Reachable(capacity, s)
  {
    var steps :| Runs(Init(capacity), steps, m);
    RunsSnoc(Init(capacity), steps, m, step);
    s := Apply(m, step);
  }

  /** At rest with `n` results drained and `k` published and undrained. */
  predicate Resting(s: Ring, capacity: nat, n: nat, k: nat) {
    && s.capacity == capacity && |s.slots| == capacity && k <= capacity && s.available == capacity - k
    && s.accepting && !s.terminated
    && s.tail == n && s.head == n + k && |s.log| == n + k && |s.consumed| == n
    && s.reserving == map[] && s.drain.Idle? && HandleOf(s.handles, 0).Empty?
  }

  lemma ReserveOne(s0: Ring, capacity: nat, n: nat, k: nat, o: nat) returns (s: Ring)
    requires 0 < capacity < WRAP && k < capacity
    requires Reachable(capacity, s0) && Resting(s0, capacity, n, k) && HandleOf(s0.handles, o).Empty?
    ensures Reachable(capacity, s)
    ensures s == s0.(available := capacity - k - 1, handles := s0.handles[o := Live])
  {
    var s1 := Extend(capacity, s0, TestAccepting(0));
    assert s1 == s0.(reserving := map[0 := PastAccepting]);
    var s2 := Extend(capacity, s1, LoadCredit(0));
    assert s2 == s0.(reserving := map[0 := Loaded(s0.available)]);
    s := Extend(capacity, s2, CompareExchange(0, o, false));
    assert s2.reserving - {0} == map[];
  }

  lemma ClaimOne(s0: Ring, capacity: nat, n: nat, k: nat, o: nat, result: AttemptResult) returns (s: Ring)
    requires 0 < capacity < WRAP && k < capacity
    requires Reachable(capacity, s0) && Resting(s0, capacity, n, k) && HandleOf(s0.handles, o).Empty?
    ensures Reachable(capacity, s)
    ensures s == s0.(available := capacity - k - 1, handles := s0.handles[o := Claimed(n + k, result)],
                     head := n + k + 1, log := s0.log + [Claim(o, result)])
  {
    var s1 := ReserveOne(s0, capacity, n, k, o);
    s := ClaimHeld(s1, capacity, o, result);
    assert s.handles == s0.handles[o := Claimed(n + k, result)];
  }

  lemma ClaimHeld(s0: Ring, capacity: nat, o: nat, result: AttemptResult) returns (s: Ring)
    requires 0 < capacity && Reachable(capacity, s0) && s0.capacity == capacity == |s0.slots| && !s0.terminated
    requires HandleOf(s0.handles, o).Live?
    ensures Reachable(capacity, s)
    ensures s == s0.(handles := s0.handles[o := Claimed(s0.head, result)], head := s0.head + 1,
                     log := s0.log + [Claim(o, result)])
  {
    var s1 := Extend(capacity, s0, BeginPublish(o, result));
    assert s1.handles == s0.handles[o := Claiming(result)];
    s := Extend(capacity, s1, ClaimHead(o));
    assert s.handles == s0.handles[o := Claimed(s0.head, result)];
  }

  lemma CheckOne(s0: Ring, capacity: nat, n: nat, k: nat, result: AttemptResult) returns (s: Ring)
    requires 0 < capacity < WRAP && k < capacity
    requires Reachable(capacity, s0) && Resting(s0, capacity, n, k)
    ensures Reachable(capacity, s)
    ensures s == s0.(available := capacity - k - 1, handles := s0.handles[0 := Checked(n + k, result)],
                     head := n + k + 1, log := s0.log + [Claim(0, result)])
  {
    var s1 := ClaimOne(s0, capacity, n, k, 0, result);
    s := Extend(capacity, s1, CheckTail(0));
    assert s.handles == s0.handles[0 := Checked(n + k, result)];
  }

  lemma PublishOne(s0: Ring, capacity: nat, n: nat, k: nat, result: AttemptResult) returns (s: Ring)
    requires 0 < capacity < WRAP && k < capacity
    requires Reachable(capacity, s0) && Resting(s0, capacity, n, k)
    ensures Reachable(capacity, s) && Resting(s, capacity, n, k + 1)
    ensures s.slots == s0.slots[SlotOf(n + k, capacity) := Slot(Some(result), true)]
    ensures s.log == s0.log + [Claim(0, result)] && s.handles == s0.handles[0 := Empty]
  {
    var s1 := CheckOne(s0, capacity, n, k, result);
    var s3 := StoreOne(s1, capacity, n + k, result);
    s := LetGo(s3, capacity, n + k);
  }

  /** The wake and the end of the reservation. */
  lemma LetGo(s0: Ring, capacity: nat, index: nat) returns (s: Ring)
    requires 0 < capacity && Reachable(capacity, s0) && s0.capacity == capacity == |s0.slots| && !s0.terminated
    requires HandleOf(s0.handles, 0) == Signalling(index)
    ensures Reachable(capacity, s) && s == s0.(wake := true, handles := s0.handles[0 := Empty])
  {
    var s1 := Extend(capacity, s0, SignalWake(0));
    assert s1.handles == s0.handles[0 := Published];
    s := Extend(capacity, s1, Finalize(0));
    assert s.handles == s0.handles[0 := Empty];
  }

  /** The value and then the ready flag are written into the claimed slot. */
  lemma StoreOne(s0: Ring, capacity: nat, index: nat, result: AttemptResult) returns (s: Ring)
    requires 0 < capacity && Reachable(capacity, s0) && s0.capacity == capacity == |s0.slots| && !s0.terminated
    requires HandleOf(s0.handles, 0) == Checked(index, result)
    ensures Reachable(capacity, s)
    ensures s == s0.(slots := s0.slots[SlotOf(index, capacity) := Slot(Some(result), true)],
                     handles := s0.handles[0 := Signalling(index)])
  {
    var s1 := Extend(capacity, s0, WriteValue(0));
    s := Extend(capacity, s1, StoreReady(0));
    assert s.slots == s0.slots[SlotOf(index, capacity) := Slot(Some(result), true)];
    assert s.handles == s0.handles[0 := Signalling(index)];
  }

  lemma TakeOne(s0: Ring, capacity: nat, n: nat, k: nat) returns (s: Ring)
    requires 0 < capacity < WRAP && k > 0
    requires Reachable(capacity, s0) && Resting(s0, capacity, n, k)
    requires Cell(s0.slots, n).ready && Cell(s0.slots, n).value.Some?
    ensures Reachable(capacity, s)
    ensures s == s0.(slots := s0.slots[SlotOf(n, capacity) := Slot(None, false)], wake := false,
                     drain := Cleared(Cell(s0.slots, n).value.value))
  {
    var s1 := Extend(capacity, s0, StartDrain);
    var s2 := Extend(capacity, s1, Look);
    var s3 := Extend(capacity, s2, ReadValue);
    var s4 := Extend(capacity, s3, ClearReady);
    s := Extend(capacity, s4, ClearValue);
    assert s.slots == s0.slots[SlotOf(n, capacity) := Slot(None, false)];
  }

  lemma DeliverOne(s0: Ring, capacity: nat, n: nat, k: nat) returns (s: Ring)
    requires 0 < capacity < WRAP && k > 0
    requires Reachable(capacity, s0) && Resting(s0, capacity, n, k)
    requires Cell(s0.slots, n).ready && Cell(s0.slots, n).value.Some?
    ensures Reachable(capacity, s)
    ensures s == s0.(slots := s0.slots[SlotOf(n, capacity) := Slot(None, false)], wake := false, tail := n + 1,
                     drain := Delivered, consumed := s0.consumed + [Cell(s0.slots, n).value.value])
  {
    var s1 := TakeOne(s0, capacity, n, k);
    var s2 := Extend(capacity, s1, AdvanceTail);
    s := Extend(capacity, s2, Deliver);
  }

  /** Publishing and draining one result at a time reaches every counter value. */
  lemma {:induction false} CountTo(capacity: nat, n: nat, result: AttemptResult) returns (s: Ring)
    requires 0 < capacity < WRAP
    ensures Reachable(capacity, s) && Resting(s, capacity, n, 0) && HandleOf(s.handles, 1).Empty?
    ensures forall i :: 0 <= i < capacity ==> !s.slots[i].ready
  {
    if n == 0 {
      s := Init(capacity);
      assert Runs(s, [], s);
    } else {
      var s0 := CountTo(capacity, n - 1, result);
      s := PublishOne(s0, capacity, n - 1, 0, result);
      s := DeliverOne(s, capacity, n - 1, 1);
      s := Extend(capacity, s, ReturnCredit);
      s := Extend(capacity, s, Look);
    }
  }

  /** Around the wrap, slots run r - 1, 0, 1, ... where r is the remainder of 2^32. */
  lemma SlotsAtWrap(capacity: nat, k: nat)
    requires 0 < capacity < WRAP && WRAP % capacity > 0 && k <= WRAP % capacity
    ensures SlotOf(WRAP - 1, capacity) == WRAP % capacity - 1
    ensures k > 0 ==> SlotOf(WRAP - 1 + k, capacity) == k - 1
  {
    var r := WRAP % capacity;
    DivUnique(WRAP - 1, capacity, WRAP / capacity, r - 1);
    if k > 0 {
      DivUnique(WRAP - 1 + k, WRAP, 1, k - 1);
      DivUnique(k - 1, capacity, 0, k - 1);
    }
  }

  /** From the last counter value before the wrap, `r + 1` publications put two undrained
      results in one slot when the capacity leaves remainder `r` in 2^32. */
  lemma {:induction false} PublishPastWrap(capacity: nat, k: nat, first: AttemptResult, later: AttemptResult) returns (s: Ring)
    requires 0 < capacity < WRAP && WRAP % capacity > 0 && k <= WRAP % capacity
    ensures Reachable(capacity, s) && Resting(s, capacity, WRAP - 1, k + 1)
    ensures s.log[WRAP - 1].result == first
    ensures Cell(s.slots, WRAP - 1) == Slot(Some(if k < WRAP % capacity then first else later), true)
    decreases k
  {
    if k == 0 {
      var s0 := CountTo(capacity, WRAP - 1, first);
      s := PublishOne(s0, capacity, WRAP - 1, 0, first);
    } else {
      var s0 := PublishPastWrap(capacity, k - 1, first, later);
      SlotsAtWrap(capacity, k);
      s := PublishOne(s0, capacity, WRAP - 1, k, later);
    }
  }

  /** Deliveries follow claim order in every run exactly when the capacity divides 2^32. */
  lemma InOrderIff(capacity: nat)
    requires 0 < capacity < WRAP
    ensures AlwaysInOrder(capacity) <==> WRAP % capacity == 0
  {
    if WRAP % capacity == 0 {
      forall s | Reachable(capacity, s) ensures DeliveredInOrder(s) {
        var steps :| Runs(Init(capacity), steps, s);
        HeadGrows(Init(capacity), steps, s);
        EveryRunDelivers(capacity, steps, s);
      }
    } else {
      var permit := AttemptPermit(false, 1, 0);
      var first := AttemptResult(0, 0, permit, true);
      var later := AttemptResult(0, 0, permit, false);
      var s := PublishPastWrap(capacity, WRAP % capacity, first, later);
      var s' := DeliverOne(s, capacity, WRAP - 1, WRAP % capacity + 1);
      assert s'.consumed[WRAP - 1] == later;
      assert !DeliveredInOrder(s');
    }
  }

  // ---------------------------------------------------------------- past the counter's end

  function ReadySlots(slots: seq<Slot>): set<nat> { set k | 0 <= k < |slots| && slots[k].ready }

  /** The handles between claiming a counter and marking its slot ready. */
  function Flying(handles: map<nat, Handle>): set<nat> { set o | o in handles && InFlight(handles[o]) }

  function One(b: bool): nat { if b then 1 else 0 }

  /** What holds of every capacity and counter value: no credit is lost or made, and the tail has passed
      no more claims than have been marked ready. */
  ghost predicate Balanced(s: Ring) {
    && s.capacity > 0 && |s.slots| == s.capacity
    && s.tail + One(Draining(s.drain)) + |ReadySlots(s.slots)| + |Flying(s.handles)| <= s.head
    && (s.drain.Seen? || s.drain.Read? ==> Cell(s.slots, s.tail).ready)
    && CreditsConserved(s)
  }

  lemma FlyingChange(handles: map<nat, Handle>, o: nat, h: Handle)
    ensures |Flying(handles[o := h])| == |Flying(handles)| + One(InFlight(h)) - One(o in handles && InFlight(handles[o]))
  {
    var rest := Flying(handles) - {o};
    assert Flying(handles) == if o in handles && InFlight(handles[o]) then rest + {o} else rest;
    assert Flying(handles[o := h]) == if InFlight(h) then rest + {o} else rest;
  }

  lemma ReadyChange(slots: seq<Slot>, k: nat, slot: Slot)
    requires k < |slots|
    ensures |ReadySlots(slots[k := slot])| == |ReadySlots(slots)| + One(slot.ready) - One(slots[k].ready)
  {
    var rest := ReadySlots(slots) - {k};
    assert ReadySlots(slots) == if slots[k].ready then rest + {k} else rest;
    assert ReadySlots(slots[k := slot]) == if slot.ready then rest + {k} else rest;
  }

  lemma BalancedHandles(s: Ring, step: Step)
    requires Balanced(s) && Enabled(s, step)
    requires step.BeginPublish? || step.ClaimHead? || step.CheckTail? || step.SignalWake? || step.Finalize?
    ensures Balanced(Apply(s, step))
  {
    if step.Finalize? {
      BalancedFinalize(s, step.o);
    } else if step.ClaimHead? {
      BalancedClaim(s, step.o);
    } else {
      var h := HandleOf(Apply(s, step).handles, step.o);
      HoldersChange(s.handles, step.o, h);
      FlyingChange(s.handles, step.o, h);
    }
  }

  lemma BalancedFinalize(s: Ring, o: nat)
    requires Balanced(s) && Enabled(s, Finalize(o))
    ensures Balanced(ApplyFinalize(s, o))
  {
    HoldersChange(s.handles, o, Empty);
    FlyingChange(s.handles, o, Empty);
  }

  lemma BalancedClaim(s: Ring, o: nat)
    requires Balanced(s) && Enabled(s, ClaimHead(o))
    ensures Balanced(Apply(s, ClaimHead(o)))
  {
    var h := HandleOf(Apply(s, ClaimHead(o)).handles, o);
    HoldersChange(s.handles, o, h);
    FlyingChange(s.handles, o, h);
  }

  lemma BalancedReserve(s: Ring, step: Step)
    requires Balanced(s) && Enabled(s, step)
    requires step.TestAccepting? || step.LoadCredit? || step.CompareExchange? || step.BeginStopping?
    ensures Balanced(Apply(s, step))
  {
    if step.CompareExchange? { BalancedCas(s, step.t, step.o, step.spurious); }
  }

  lemma BalancedCas(s: Ring, t: nat, o: nat, spurious: bool)
    requires Balanced(s) && Enabled(s, CompareExchange(t, o, spurious))
    ensures Balanced(ApplyCas(s, t, o, spurious))
  {
    HoldersChange(s.handles, o, Live);
    FlyingChange(s.handles, o, Live);
  }

  lemma BalancedMove(s: Ring, from: nat, o: nat)
    requires Balanced(s) && Enabled(s, MoveAssign(from, o))
    ensures Balanced(ApplyMove(s, from, o))
  {
    var moved, freed := HandleOf(s.handles, from), ApplyFinalize(s, o);
    BalancedFinalize(s, o);
    var mid := Put(freed, o, moved);
    HoldersChange(freed.handles, o, moved);
    FlyingChange(freed.handles, o, moved);
    HoldersChange(mid.handles, from, Empty);
    FlyingChange(mid.handles, from, Empty);
  }

  lemma BalancedSlot(s: Ring, step: Step)
    requires Balanced(s) && Enabled(s, step) && (step.WriteValue? || step.StoreReady?)
    ensures Balanced(Apply(s, step))
  {
    var s', h := Apply(s, step), HandleOf(s.handles, step.o);
    var k := SlotOf(h.index, s.capacity);
    HoldersChange(s.handles, step.o, HandleOf(s'.handles, step.o));
    FlyingChange(s.handles, step.o, HandleOf(s'.handles, step.o));
    ReadyChange(s.slots, k, s'.slots[k]);
  }

  lemma BalancedDrain(s: Ring, step: Step)
    requires Balanced(s) && Enabled(s, step)
    requires step.StartDrain? || step.Look? || step.ReadValue? || step.AdvanceTail? || step.Deliver? || step.ReturnCredit?
    ensures Balanced(Apply(s, step))
  {
  }

  lemma BalancedClear(s: Ring, step: Step)
    requires Balanced(s) && Enabled(s, step) && (step.ClearReady? || step.ClearValue?)
    ensures Balanced(Apply(s, step))
  {
    var s', k := Apply(s, step), SlotOf(s.tail, s.capacity);
    ReadyChange(s.slots, k, s'.slots[k]);
  }

  lemma BalancedStep(s: Ring, step: Step)
    requires Balanced(s) && Enabled(s, step)
    ensures Balanced(Apply(s, step))
  {
    match step
    case TestAccepting(_) | LoadCredit(_) | CompareExchange(_, _, _) | BeginStopping => BalancedReserve(s, step);
    case BeginPublish(_, _) | ClaimHead(_) | CheckTail(_) | SignalWake(_) | Finalize(_) => BalancedHandles(s, step);
    case MoveAssign(from, o) => BalancedMove(s, from, o);
    case WriteValue(_) | StoreReady(_) => BalancedSlot(s, step);
    case ClearReady | ClearValue => BalancedClear(s, step);
    case _ => BalancedDrain(s, step);
  }

  lemma {:induction false} RunBalanced(s: Ring, steps: seq<Step>, s': Ring)
    requires Balanced(s) && Runs(s, steps, s')
    ensures Balanced(s') && s'.capacity == s.capacity
    decreases |steps|
  {
    if steps != [] {
      var m := FirstBalanced(s, steps, s');
      RunBalanced(m, steps[1..], s');
    }
  }

  lemma FirstBalanced(s: Ring, steps: seq<Step>, s': Ring) returns (m: Ring)
    requires Balanced(s) && Runs(s, steps, s') && steps != []
    ensures Balanced(m) && Runs(m, steps[1..], s') && m.capacity == s.capacity
  {
    m := Apply(s, steps[0]);
    BalancedStep(s, steps[0]);
  }

  /** In every run of every capacity, however far the counters go, each credit is in exactly one place
      and no more than the capacity is claimed and undrained. */
  lemma EveryRunConserves(capacity: nat, steps: seq<Step>, s: Ring)
    requires capacity > 0 && Runs(Init(capacity), steps, s)
    ensures s.capacity == capacity && CreditsConserved(s)
    ensures s.available <= capacity && |Holders(s.handles)| <= capacity && s.head - s.tail <= capacity
  {
    assert Holders(Init(capacity).handles) == {} && Flying(Init(capacity).handles) == {};
    assert ReadySlots(Init(capacity).slots) == {};
    RunBalanced(Init(capacity), steps, s);
  }

  /** A publisher stalls after claiming the last counter before the wrap; others publish up to the
      counter that shares its slot. */
  lemma {:induction false} PublishBehind(capacity: nat, k: nat, result: AttemptResult) returns (s: Ring)
    requires 0 < capacity < WRAP && WRAP % capacity > 0 && k <= WRAP % capacity
    ensures Reachable(capacity, s) && Resting(s, capacity, WRAP - 1, k + 1)
    ensures HandleOf(s.handles, 1) == Claimed(WRAP - 1, result)
    ensures k == WRAP % capacity ==> Cell(s.slots, WRAP - 1) == Slot(Some(result), true)
    decreases k
  {
    if k == 0 {
      var s0 := CountTo(capacity, WRAP - 1, result);
      s := ClaimOne(s0, capacity, WRAP - 1, 0, 1, result);
    } else {
      var s0 := PublishBehind(capacity, k - 1, result);
      SlotsAtWrap(capacity, k);
      s := PublishOne(s0, capacity, WRAP - 1, k, result);
    }
  }

  /** The overflow abort can be taken in some run exactly when the capacity does not divide 2^32: there
      the drain can pass a stalled publisher, whose distance from the tail then wraps. */
  lemma AbortIff(capacity: nat)
    requires 0 < capacity < WRAP
    ensures (exists s :: Reachable(capacity, s) && s.terminated) <==> WRAP % capacity != 0
  {
    if WRAP % capacity == 0 {
      forall s | Reachable(capacity, s) ensures !s.terminated {
        var steps :| Runs(Init(capacity), steps, s);
        HeadGrows(Init(capacity), steps, s);
        EveryRunDelivers(capacity, steps, s);
      }
    } else {
      var result := AttemptResult(0, 0, AttemptPermit(false, 1, 0), true);
      var s := PublishBehind(capacity, WRAP % capacity, result);
      s := DeliverOne(s, capacity, WRAP - 1, WRAP % capacity + 1);
      DivUnique(-1, WRAP, -1, WRAP - 1);
      s := Extend(capacity, s, CheckTail(1));
      assert s.terminated;
    }
  }
}
