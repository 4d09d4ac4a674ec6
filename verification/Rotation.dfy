/** The weighted rotation: each endpoint owns a stretch of cursor positions as long as its weight. */
module Rotation {
  import opened Attempts
  import opened Arith

  const UINT64_MAX: nat := 0xFFFF_FFFF_FFFF_FFFF

  /** The weights of the first k endpoints together. */
  function Prefix(weights: seq<nat>, k: nat): nat
    requires k <= |weights|
  {
    if k == 0 then 0 else Prefix(weights, k - 1) + weights[k - 1]
  }

  function Total(weights: seq<nat>): nat { Prefix(weights, |weights|) }

  ghost predicate Usable(weights: seq<nat>) {
    weights != [] && (forall i :: 0 <= i < |weights| ==> weights[i] > 0) && Total(weights) <= UINT64_MAX
  }

  lemma {:induction false} PrefixGrows(weights: seq<nat>, j: nat, k: nat)
    requires j <= k <= |weights|
    ensures Prefix(weights, j) <= Prefix(weights, k)
    decreases k
  {
    if j < k { PrefixGrows(weights, j, k - 1); }
  }

  /** The endpoint whose stretch holds the position. */
  predicate Owns(weights: seq<nat>, i: nat, position: nat) {
    i < |weights| && Prefix(weights, i) <= position < Prefix(weights, i + 1)
  }

  lemma OwnerUnique(weights: seq<nat>, i: nat, j: nat, position: nat)
    requires Owns(weights, i, position) && Owns(weights, j, position)
    ensures i == j
  {
    if i < j {
      PrefixGrows(weights, i + 1, j);
    } else if j < i {
      PrefixGrows(weights, j + 1, i);
    }
  }

  /** The owner of a position among the first k endpoints. */
  function Owner(weights: seq<nat>, position: nat, k: nat): (i: nat)
    requires k <= |weights| && position < Prefix(weights, k)
    ensures i < k && Owns(weights, i, position)
  {
    if Prefix(weights, k - 1) <= position then k - 1 else Owner(weights, position, k - 1)
  }

  /** The validation in the constructor: no zero weight, no overflow of the 64-bit total, not empty. */
  method CheckWeights(weights: seq<nat>) returns (total: Option<nat>)
    ensures total.Some? <==> Usable(weights)
    ensures total.Some? ==> total.value == Total(weights) > 0
  {
    var sum: nat := 0;
    for k := 0 to |weights|
      invariant sum == Prefix(weights, k) <= UINT64_MAX
      invariant forall i :: 0 <= i < k ==> weights[i] > 0
    {
      PrefixGrows(weights, k + 1, |weights|);
      if weights[k] == 0 || weights[k] > UINT64_MAX || sum > UINT64_MAX - weights[k] { return None; }
      sum := sum + weights[k];
    }
    if sum == 0 {
      if weights != [] { PrefixGrows(weights, 1, |weights|); }
      return None;
    }
    return Some(sum);
  }

  lemma Advanced(cursor: nat, total: nat)
    requires cursor < total
    ensures (cursor + 1) % total == if cursor + 1 == total then 0 else cursor + 1
  {
    if cursor + 1 == total { DivUnique(total, total, 1, 0); } else { ModSmall(cursor + 1, total); }
  }

  class WeightedRoundRobin {
    const weights: seq<nat>
    const total: nat
    var cursor: nat

    ghost predicate Valid()
      reads this
    {
      Usable(weights) && total == Total(weights) && cursor < total
    }

    constructor (weights: seq<nat>)
      requires Usable(weights)
      ensures Valid() && this.weights == weights && cursor == 0
    {
      this.weights, this.total, cursor := weights, Total(weights), 0;
      new;
      PrefixGrows(weights, 1, |weights|);
    }

    /** The owner of the cursor's position; the cursor moves on by one and wraps at the total. */
    method Next() returns (index: nat)
      requires Valid()
      modifies this`cursor
      ensures Valid() && cursor == (old(cursor) + 1) % total
      ensures Owns(weights, index, old(cursor))
    {
      var selected := cursor;
      Advanced(cursor, total);
      cursor := if cursor + 1 == total then 0 else cursor + 1;
      var upper: nat := 0;
      for k := 0 to |weights|
        invariant upper == Prefix(weights, k) <= selected
      {
        upper := upper + weights[k];
        if selected < upper { return k; }
      }
      assert false;
    }
  }

  // ---------------------------------------------------------------- fairness

  function One(b: bool): nat { if b then 1 else 0 }

  /** How many of n consecutive picks from a cursor go to endpoint i. */
  function Hits(weights: seq<nat>, i: nat, cursor: nat, n: nat): nat
    requires Total(weights) > 0
  {
    if n == 0 then 0
    else Hits(weights, i, cursor, n - 1) + One(Owns(weights, i, (cursor + n - 1) % Total(weights)))
  }

  /** Counting from the front instead of the back. */
  lemma {:induction false} HitsFront(weights: seq<nat>, i: nat, cursor: nat, n: nat)
    requires Total(weights) > 0
    ensures Hits(weights, i, cursor, n + 1)
            == One(Owns(weights, i, cursor % Total(weights))) + Hits(weights, i, cursor + 1, n)
  {
    if n > 0 {
      HitsFront(weights, i, cursor, n - 1);
      assert cursor + 1 + n - 1 == cursor + n;
    } else {
      assert Hits(weights, i, cursor, 1) == Hits(weights, i, cursor, 0) + One(Owns(weights, i, cursor % Total(weights)));
    }
  }

  /** From the first position, the hits are exactly the positions of the stretch passed so far. */
  lemma {:induction false} HitsFromStart(weights: seq<nat>, i: nat, n: nat)
    requires Total(weights) > 0 && i < |weights| && n <= Total(weights)
    ensures Hits(weights, i, 0, n)
            == if n <= Prefix(weights, i) then 0
               else if n <= Prefix(weights, i + 1) then n - Prefix(weights, i)
               else weights[i]
  {
    if n > 0 {
      HitsFromStart(weights, i, n - 1);
      ModSmall(n - 1, Total(weights));
    }
  }

  /** From any cursor, every total-weight consecutive picks go to endpoint i exactly weight-i times. */
  lemma {:induction false} EachItsWeight(weights: seq<nat>, i: nat, cursor: nat)
    requires Total(weights) > 0 && i < |weights|
    ensures Hits(weights, i, cursor, Total(weights)) == weights[i]
    decreases cursor
  {
    var t := Total(weights);
    if cursor == 0 {
      HitsFromStart(weights, i, t);
      PrefixGrows(weights, i + 1, |weights|);
    } else {
      var before := cursor - 1;
      EachItsWeight(weights, i, before);
      HitsFront(weights, i, before, t);
      ModPeriod(before, t);
      assert Hits(weights, i, before, t + 1) == Hits(weights, i, before, t) + One(Owns(weights, i, (before + t) % t));
    }
  }

  // ---------------------------------------------------------------- do as many picks as endpoints reach them all?

  /** Every endpoint is among as many consecutive picks as there are endpoints. */
  ghost predicate ReachesAll(weights: seq<nat>, cursor: nat)
    requires Total(weights) > 0
  {
    forall i :: 0 <= i < |weights| ==> Hits(weights, i, cursor, |weights|) > 0
  }

  lemma {:induction false} EqualWeights(weights: seq<nat>, k: nat)
    requires k <= |weights| && forall i :: 0 <= i < |weights| ==> weights[i] == 1
    ensures Prefix(weights, k) == k
  {
    if k > 0 { EqualWeights(weights, k - 1); }
  }

  /** Total hits over the first k endpoints. */
  function AllHits(weights: seq<nat>, k: nat, cursor: nat, n: nat): nat
    requires Total(weights) > 0 && k <= |weights|
  {
    if k == 0 then 0 else AllHits(weights, k - 1, cursor, n) + Hits(weights, k - 1, cursor, n)
  }

  lemma {:induction false} OnePickEach(weights: seq<nat>, k: nat, position: nat, cursor: nat, n: nat)
    requires Total(weights) > 0 && k <= |weights| && n > 0 && position == (cursor + n - 1) % Total(weights)
    ensures AllHits(weights, k, cursor, n) == AllHits(weights, k, cursor, n - 1) + One(position < Prefix(weights, k))
  {
    if k > 0 { OnePickEach(weights, k - 1, position, cursor, n); }
  }

  /** Each pick goes to exactly one endpoint. */
  lemma {:induction false} PicksAdd(weights: seq<nat>, cursor: nat, n: nat)
    requires Total(weights) > 0
    ensures AllHits(weights, |weights|, cursor, n) == n
  {
    if n == 0 {
      NoPicks(weights, |weights|, cursor);
    } else {
      PicksAdd(weights, cursor, n - 1);
      OnePickEach(weights, |weights|, (cursor + n - 1) % Total(weights), cursor, n);
    }
  }

  lemma {:induction false} NoPicks(weights: seq<nat>, k: nat, cursor: nat)
    requires Total(weights) > 0 && k <= |weights|
    ensures AllHits(weights, k, cursor, 0) == 0
  {
    if k > 0 { NoPicks(weights, k - 1, cursor); }
  }

  /** If each of the first k has a hit and one of them has two, they have more than k together. */
  lemma {:induction false} TwoForOne(weights: seq<nat>, k: nat, i: nat, cursor: nat, n: nat)
    requires Total(weights) > 0 && k <= |weights|
    requires forall j :: 0 <= j < k ==> Hits(weights, j, cursor, n) > 0
    ensures AllHits(weights, k, cursor, n) >= k
    ensures i < k && Hits(weights, i, cursor, n) >= 2 ==> AllHits(weights, k, cursor, n) > k
  {
    if k > 0 { TwoForOne(weights, k - 1, i, cursor, n); }
  }

  /** A weight of two or more, met at the start of its stretch, is picked twice in a row. */
  lemma {:induction false} PickedTwice(weights: seq<nat>, i: nat, n: nat)
    requires Usable(weights) && i < |weights| && weights[i] >= 2 && n >= 2
    ensures Total(weights) > 0 && Hits(weights, i, Prefix(weights, i), n) >= 2
  {
    var c, t := Prefix(weights, i), Total(weights);
    PrefixGrows(weights, i + 1, |weights|);
    if n == 2 {
      ModSmall(c, t);
      ModSmall(c + 1, t);
      assert Hits(weights, i, c, 1) == Hits(weights, i, c, 0) + One(Owns(weights, i, (c + 0) % t));
      assert Hits(weights, i, c, 2) == Hits(weights, i, c, 1) + One(Owns(weights, i, (c + 1) % t));
    } else {
      PickedTwice(weights, i, n - 1);
    }
  }

  /** As many picks as endpoints reach every endpoint from every cursor exactly when there is only one
      endpoint or all weights are one. */
  lemma ReachesAllIff(weights: seq<nat>)
    requires Usable(weights)
    ensures Total(weights) > 0
    ensures (forall cursor :: ReachesAll(weights, cursor))
            <==> (|weights| == 1 || forall i :: 0 <= i < |weights| ==> weights[i] == 1)
  {
    PrefixGrows(weights, 1, |weights|);
    var n := |weights|;
    if n == 1 {
      forall cursor ensures ReachesAll(weights, cursor) { PicksAdd(weights, cursor, 1); SingleEndpoint(weights, cursor); }
    } else if forall i :: 0 <= i < n ==> weights[i] == 1 {
      EqualWeights(weights, n);
      forall cursor ensures ReachesAll(weights, cursor) {
        forall i | 0 <= i < n ensures Hits(weights, i, cursor, n) > 0 { EachItsWeight(weights, i, cursor); }
      }
    } else {
      var i :| 0 <= i < n && weights[i] != 1;
      var c := Prefix(weights, i);
      PickedTwice(weights, i, n);
      PicksAdd(weights, c, n);
      if ReachesAll(weights, c) { TwoForOne(weights, n, i, c, n); }
      assert !ReachesAll(weights, c);
    }
  }

  lemma SingleEndpoint(weights: seq<nat>, cursor: nat)
    requires |weights| == 1 && Total(weights) > 0 && AllHits(weights, 1, cursor, 1) == 1
    ensures Hits(weights, 0, cursor, 1) > 0
  {
    assert AllHits(weights, 1, cursor, 1) == AllHits(weights, 0, cursor, 1) + Hits(weights, 0, cursor, 1);
  }
}
