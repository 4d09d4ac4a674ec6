/** The outcome channel as the object its callers see, each operation run without interference:
    a bounded FIFO of results with one credit per reservation.  The interleaved form, where
    every atomic access is a step of its own, is the machine of module OutcomeRing. */
module OutcomeChannelObject {
  import opened Arith
  import opened Attempts
  import opened OutcomeRing

  const MAX_OUTCOME_CAPACITY: nat := 1_048_576

  /** max_inflight x (1 + retry_budget) in 64 bits; None where the program throws. */
  function CapacityForRoute(maxInflight: nat, retryBudget: nat): (capacity: Option<nat>)
    requires maxInflight < WRAP && retryBudget < WRAP
    ensures capacity.Some? ==> 0 < capacity.value <= MAX_OUTCOME_CAPACITY && capacity.value < WRAP
    ensures capacity.Some? <==> 0 < maxInflight && maxInflight + maxInflight * retryBudget <= MAX_OUTCOME_CAPACITY
    ensures capacity.Some? ==> capacity.value == maxInflight + maxInflight * retryBudget < WRAP * WRAP
  {
    var attempts := maxInflight * (retryBudget + 1);
    if attempts == 0 || attempts > MAX_OUTCOME_CAPACITY then None else Some(attempts)
  }

  /** The slots from `tail` on hold exactly `queue`, oldest first. */
  ghost predicate Holds(slots: seq<Slot>, tail: nat, queue: seq<AttemptResult>)
    requires |slots| > 0
  {
    && |queue| <= |slots|
    && (forall c :: tail <= c < tail + |queue| ==> Cell(slots, c) == Slot(Some(queue[c - tail]), true))
    && (forall c :: tail + |queue| <= c < tail + |slots| ==> !Cell(slots, c).ready)
  }

  lemma EnqueueHolds(slots: seq<Slot>, tail: nat, queue: seq<AttemptResult>, result: AttemptResult)
    requires |slots| > 0 && Holds(slots, tail, queue) && |queue| < |slots| && DistinctSlots(tail, |slots|)
    ensures Holds(slots[SlotOf(tail + |queue|, |slots|) := Slot(Some(result), true)], tail, queue + [result])
  {
    CellAfterSet(slots, tail, tail + |queue|, Slot(Some(result), true));
  }

  lemma DequeueHolds(slots: seq<Slot>, tail: nat, queue: seq<AttemptResult>)
    requires |slots| > 0 && Holds(slots, tail, queue) && queue != [] && DistinctSlots(tail, |slots|)
    requires SlotOf(tail + |slots|, |slots|) == SlotOf(tail, |slots|)
    ensures Holds(slots[SlotOf(tail, |slots|) := Slot(None, false)], tail + 1, queue[1..])
  {
    CellAfterSet(slots, tail, tail, Slot(None, false));
    var slots' := slots[SlotOf(tail, |slots|) := Slot(None, false)];
    forall c | tail + |queue| <= c < tail + 1 + |slots| ensures !Cell(slots', c).ready {
      assert c < tail + |slots| ==> Cell(slots', c) == if c == tail then Slot(None, false) else Cell(slots, c);
    }
  }

  lemma SlotComesRound(tail: nat, capacity: nat)
    requires capacity > 0 && (WRAP % capacity == 0 || tail + capacity < WRAP)
    ensures DistinctSlots(tail, capacity) && SlotOf(tail + capacity, capacity) == SlotOf(tail, capacity)
  {
    WindowDistinct(tail, capacity);
    SlotIsRemainder(tail, capacity);
    SlotIsRemainder(tail + capacity, capacity);
    ModPeriod(tail, capacity);
  }

  class OutcomeChannel {
    const capacity: nat
    const slots: array<Slot>
    var accepting: bool
    var available: nat
    var head: nat
    var tail: nat
    var rejected: nat
    var wake: bool                       // the coordinator's descriptor is readable
    ghost var held: nat                  // reservations neither published nor returned
    ghost var queue: seq<AttemptResult>  // published and undrained, oldest first

    ghost predicate Valid()
      reads this, slots
    {
      Unwoken() && (queue != [] ==> wake)
    }

    /** The ring and the credits, whether or not a wake-up is due. */
    ghost predicate Unwoken()
      reads this, slots
    {
      && 0 < capacity < WRAP && slots.Length == capacity
      && available + held + |queue| == capacity
      && head == tail + |queue|
      && (WRAP % capacity == 0 || head + capacity < WRAP)
      && Holds(slots[..], tail, queue)
    }

    constructor (capacity: nat)
      requires 0 < capacity <= MAX_OUTCOME_CAPACITY
      ensures Valid() && fresh(slots) && this.capacity == capacity
      ensures queue == [] && held == 0 && available == capacity && accepting && rejected == 0
    {
      this.capacity := capacity;
      slots := new Slot[capacity](_ => Slot(None, false));
      accepting, available, head, tail, rejected, wake := true, capacity, 0, 0, 0, false;
      held, queue := 0, [];
    }

    /** Granted exactly when the channel is accepting and a credit is left; every refusal is counted. */
    method TryReserve() returns (ok: bool)
      requires Valid()
      modifies this`available, this`rejected, this`held
      ensures Valid()
      ensures ok <==> accepting && old(held) + |queue| < capacity
      ensures held == old(held) + (if ok then 1 else 0)
      ensures rejected == old(rejected) + (if ok then 0 else 1)
    {
      if !accepting {
        rejected := rejected + 1;
        return false;
      }
      var current := available;
      if current > 0 {
        available, held := current - 1, held + 1;
        return true;
      }
      rejected := rejected + 1;
      return false;
    }

    /** Publishing a held reservation always finds a free slot, queues the result last and wakes the
        coordinator. */
    method Publish(result: AttemptResult)
      requires Valid() && held > 0
      requires WRAP % capacity == 0 || head + 1 + capacity < WRAP
      modifies this`head, this`held, this`queue, this`wake, slots
      ensures Valid() && wake
      ensures queue == old(queue) + [result] && held == old(held) - 1
    {
      var claimed := head;
      head := head + 1;
      // the program aborts unless this 32-bit difference is below the capacity
      assert (claimed - tail) % WRAP < capacity by { ModSmall(claimed - tail, WRAP); }
      WindowDistinct(tail, capacity);
      EnqueueHolds(slots[..], tail, queue, result);
      Store(claimed, Slot(Some(result), true));
      held, queue, wake := held - 1, queue + [result], true;
    }

    method Store(counter: nat, slot: Slot)
      requires 0 < capacity == slots.Length
      modifies slots
      ensures slots[..] == old(slots[..])[SlotOf(counter, capacity) := slot]
    {
      slots[(counter % WRAP) % capacity] := slot;
    }

    /** A reservation dropped before publishing gives its credit back. */
    method Cancel()
      requires Valid() && held > 0
      modifies this`available, this`held
      ensures Valid() && available == old(available) + 1 && held == old(held) - 1
    {
      available, held := available + 1, held - 1;
    }

    method BeginStopping()
      requires Valid()
      modifies this`accepting
      ensures Valid() && !accepting
    {
      accepting := false;
    }

    /** Takes the wake-up, drains everything queued, oldest first, and returns one credit per result. */
    method Drain() returns (consumed: seq<AttemptResult>)
      requires Valid()
      modifies this`tail, this`available, this`queue, this`wake, slots
      ensures Valid() && !wake
      ensures consumed == old(queue) && queue == [] && available == old(available) + |consumed|
    {
      consumed, wake := [], false;
      while true
        invariant Unwoken() && !wake && head == old(head) && held == old(held) && accepting == old(accepting)
        invariant consumed + queue == old(queue)
        invariant available == old(available) + |consumed|
        decreases |queue|
      {
        var first := TakeFirst();
        if first.None? { break; }
        consumed := consumed + [first.value];
      }
    }

    /** The oldest result, if there is one; its slot and its credit are free again. */
    method TakeFirst() returns (first: Option<AttemptResult>)
      requires Unwoken()
      modifies this`tail, this`available, this`queue, slots
      ensures Unwoken() && (first.None? <==> old(queue) == [])
      ensures first.None? ==> queue == old(queue) && available == old(available)
      ensures first.Some? ==> [first.value] + queue == old(queue) && available == old(available) + 1
    {
      var index := (tail % WRAP) % capacity;
      assert slots[index] == Cell(slots[..], tail);
      if !slots[index].ready { return None; }
      first := Some(slots[index].value.value);
      SlotComesRound(tail, capacity);
      DequeueHolds(slots[..], tail, queue);
      Store(tail, Slot(None, false));
      tail, available, queue := tail + 1, available + 1, queue[1..];
    }
  }
}
