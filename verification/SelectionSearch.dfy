/** What a search for an endpoint may find and exactly when it can give up too early.  Health and
    breaker states come from one snapshot, but the probe slots of half-open endpoints are shared with
    other threads, which take them and arm new ones while the search runs. */
module SelectionSearch {
  import opened Arith
  import opened Rotation

  datatype Breaker = NoBreaker | Closed | Open | HalfOpen
  datatype Decision = Decision(healthy: bool, breaker: Breaker)

  /** What other threads decide during one search: where a probe slot is seen free at each pass over
      the endpoints (or each weighted pick), where a probe claim is won, and whose outcome finds room. */
  datatype Answers = Answers(free: nat -> set<nat>, won: set<nat>, room: set<nat>)

  /** One route: endpoint weights, rotation cursor, the snapshot, and active attempts per endpoint. */
  datatype Route = Route(weights: seq<nat>, cursor: nat, snapshot: seq<Decision>, active: seq<nat>)

  ghost predicate Ready(route: Route) { Usable(route.weights) && |route.active| == |route.weights| }

  predicate Selectable(snapshot: seq<Decision>, i: nat) {
    i < |snapshot| && snapshot[i].healthy && !snapshot[i].breaker.Open?
  }

  predicate Eligible(snapshot: seq<Decision>, free: set<nat>, i: nat) {
    Selectable(snapshot, i) && (snapshot[i].breaker.HalfOpen? ==> i in free)
  }

  /** Whether an attempt on the endpoint can be made at all: a half-open one needs a probe, and one
      with a breaker needs room for its outcome. */
  predicate Claimed(snapshot: seq<Decision>, answers: Answers, i: nat)
    requires i < |snapshot|
  {
    snapshot[i].breaker.NoBreaker? || ((snapshot[i].breaker.HalfOpen? ==> i in answers.won) && i in answers.room)
  }

  /** The claim failed for lack of outcome room. */
  predicate NoRoom(snapshot: seq<Decision>, answers: Answers, i: nat)
    requires i < |snapshot|
  {
    && !snapshot[i].breaker.NoBreaker? && (snapshot[i].breaker.HalfOpen? ==> i in answers.won)
    && i !in answers.room
  }

  // ---------------------------------------------------------------- the rotation

  /** The endpoint of the k-th pick from the cursor. */
  ghost function Pick(route: Route, k: nat): (i: nat)
    requires Usable(route.weights)
    ensures i < |route.weights| && Total(route.weights) > 0
    ensures Owns(route.weights, i, (route.cursor + k) % Total(route.weights))
  {
    PrefixGrows(route.weights, 1, |route.weights|);
    Owner(route.weights, (route.cursor + k) % Total(route.weights), |route.weights|)
  }

  lemma PickIs(route: Route, k: nat, i: nat)
    requires Usable(route.weights) && Total(route.weights) > 0
    requires Owns(route.weights, i, (route.cursor + k) % Total(route.weights))
    ensures Pick(route, k) == i
  {
    OwnerUnique(route.weights, i, Pick(route, k), (route.cursor + k) % Total(route.weights));
  }

  /** How many steps the rotation takes from `start` to `i`. */
  function Steps(n: nat, start: nat, i: nat): nat
    requires start < n && i < n
  {
    if i >= start then i - start else i + n - start
  }

  lemma StepsIs(n: nat, start: nat, i: nat, step: nat)
    requires start < n && step < n && i == (start + step) % n
    ensures i < n && Steps(n, start, i) == step
  {
    if start + step < n {
      ModSmall(start + step, n);
    } else {
      DivUnique(start + step, n, 1, start + step - n);
    }
  }

  lemma StepsInverse(n: nat, start: nat, i: nat)
    requires start < n && i < n
    ensures Steps(n, start, i) < n && (start + Steps(n, start, i)) % n == i
  {
    if i >= start { ModSmall(i, n); } else { DivUnique(i + n, n, 1, i); }
  }

  /** Different endpoints are a different number of steps away. */
  lemma OnlyStep(n: nat, start: nat, index: nat, step: nat)
    requires start < n && index < n && Steps(n, start, index) == step
    ensures forall i :: 0 <= i < n && Steps(n, start, i) < step + 1 ==> i == index || Steps(n, start, i) < step
  {
  }

  // ---------------------------------------------------------------- one least-active scan

  predicate Candidate(route: Route, tried: set<nat>, free: set<nat>, i: nat) {
    i < |route.active| && i !in tried && Eligible(route.snapshot, free, i)
  }

  /** The fewest active attempts among the candidates. */
  ghost predicate IsLowest(route: Route, tried: set<nat>, free: set<nat>, m: nat) {
    && (exists i :: 0 <= i < |route.active| && Candidate(route, tried, free, i) && route.active[i] == m)
    && forall i :: 0 <= i < |route.active| && Candidate(route, tried, free, i) ==> m <= route.active[i]
  }

  /** A candidate of the second pass with the fewest active attempts the first pass saw. */
  ghost predicate Offered(route: Route, tried: set<nat>, first: set<nat>, second: set<nat>, i: nat) {
    Candidate(route, tried, second, i) && IsLowest(route, tried, first, route.active[i])
  }

  ghost predicate NoneOffered(route: Route, tried: set<nat>, first: set<nat>, second: set<nat>) {
    forall i :: 0 <= i < |route.active| ==> !Offered(route, tried, first, second, i)
  }

  /** The first endpoint offered in rotation order. */
  ghost predicate IsChoice(route: Route, tried: set<nat>, first: set<nat>, second: set<nat>, start: nat, r: nat) {
    var n := |route.active|;
    && start < n && r < n && Offered(route, tried, first, second, r)
    && forall i :: 0 <= i < n && Offered(route, tried, first, second, i) ==> Steps(n, start, r) <= Steps(n, start, i)
  }

  lemma {:induction false} LowestAmong(route: Route, tried: set<nat>, free: set<nat>, i: nat) returns (j: nat)
    requires Candidate(route, tried, free, i)
    ensures Candidate(route, tried, free, j) && route.active[j] <= route.active[i]
    ensures IsLowest(route, tried, free, route.active[j])
    decreases route.active[i]
  {
    if k :| 0 <= k < |route.active| && Candidate(route, tried, free, k) && route.active[k] < route.active[i] {
      j := LowestAmong(route, tried, free, k);
    } else {
      j := i;
    }
  }

  lemma {:induction false} ChoiceExists(route: Route, tried: set<nat>, first: set<nat>, second: set<nat>, start: nat, i: nat)
    returns (r: nat)
    requires start < |route.active| && i < |route.active| && Offered(route, tried, first, second, i)
    ensures IsChoice(route, tried, first, second, start, r)
    decreases Steps(|route.active|, start, i)
  {
    var n := |route.active|;
    if k :| 0 <= k < n && Offered(route, tried, first, second, k) && Steps(n, start, k) < Steps(n, start, i) {
      r := ChoiceExists(route, tried, first, second, start, k);
    } else {
      r := i;
    }
  }

  /** A scan finds nothing exactly when its first pass has no candidate, or when no candidate of the
      second pass has as few active attempts as the lowest the first one saw. */
  lemma ScanFailsIff(route: Route, tried: set<nat>, first: set<nat>, second: set<nat>)
    ensures NoneOffered(route, tried, first, second)
            <==> (|| (forall i :: 0 <= i < |route.active| ==> !Candidate(route, tried, first, i))
                  || exists m :: IsLowest(route, tried, first, m) && LostBy(route, tried, second, m))
  {
    if i :| 0 <= i < |route.active| && Candidate(route, tried, first, i) {
      var j := LowestAmong(route, tried, first, i);
      if NoneOffered(route, tried, first, second) {
        forall k | 0 <= k < |route.active| && Candidate(route, tried, second, k)
          ensures route.active[k] != route.active[j]
        {
          assert !Offered(route, tried, first, second, k);
        }
        assert LostBy(route, tried, second, route.active[j]);
      }
    }
  }

  /** No candidate has this many active attempts. */
  ghost predicate LostBy(route: Route, tried: set<nat>, free: set<nat>, m: nat) {
    forall i :: 0 <= i < |route.active| && Candidate(route, tried, free, i) ==> route.active[i] != m
  }

  // ---------------------------------------------------------------- the least-active search

  function With(tried: set<nat>, picks: seq<nat>): set<nat> { tried + set i | i in picks }

  /** Scan k makes the passes 2k and 2k + 1, and every choice before the last fails its claim. */
  ghost predicate Chosen(route: Route, answers: Answers, tried: set<nat>, picks: seq<nat>)
    requires Ready(route)
  {
    forall k :: 0 <= k < |picks| ==>
      && IsChoice(route, With(tried, picks[..k]), answers.free(2 * k), answers.free(2 * k + 1), Pick(route, k), picks[k])
      && (k < |picks| - 1 ==> !Claimed(route.snapshot, answers, picks[k]))
  }

  predicate AllFailed(snapshot: seq<Decision>, answers: Answers, picks: seq<nat>) {
    forall i :: i in picks ==> i < |snapshot| && !Claimed(snapshot, answers, i)
  }

  predicate SomeNoRoom(snapshot: seq<Decision>, answers: Answers, picks: seq<nat>) {
    exists i :: i in picks && i < |snapshot| && NoRoom(snapshot, answers, i)
  }

  lemma OneMore(snapshot: seq<Decision>, answers: Answers, picks: seq<nat>, c: nat)
    requires AllFailed(snapshot, answers, picks) && c < |snapshot|
    ensures AllFailed(snapshot, answers, picks + [c]) <==> !Claimed(snapshot, answers, c)
    ensures SomeNoRoom(snapshot, answers, picks + [c])
            <==> SomeNoRoom(snapshot, answers, picks) || NoRoom(snapshot, answers, c)
  {
    assert c in picks + [c];
    if SomeNoRoom(snapshot, answers, picks) {
      var i :| i in picks && i < |snapshot| && NoRoom(snapshot, answers, i);
      assert i in picks + [c];
    }
  }

  ghost predicate GivesUp(route: Route, answers: Answers, tried: set<nat>, picks: seq<nat>)
    requires Ready(route)
  {
    var k := |picks|;
    && Chosen(route, answers, tried, picks)
    && AllFailed(route.snapshot, answers, picks)
    && NoneOffered(route, With(tried, picks), answers.free(2 * k), answers.free(2 * k + 1))
  }

  /** Eligible at every pass of a search with this many passes. */
  ghost predicate Steady(route: Route, answers: Answers, passes: nat, i: nat) {
    i < |route.weights| && forall p: nat :: p < passes ==> Eligible(route.snapshot, answers.free(p), i)
  }

  /** The search never gives up while an endpoint that was eligible all along is untried. */
  ghost predicate Complete(route: Route, tried: set<nat>)
    requires Ready(route)
  {
    forall answers, picks, b: nat ::
      GivesUp(route, answers, tried, picks) && Steady(route, answers, 2 * |picks| + 2, b) ==> b in With(tried, picks)
  }

  predicate Untried(route: Route, tried: set<nat>, i: nat) {
    i < |route.weights| && i !in tried && Selectable(route.snapshot, i)
  }

  /** A half-open endpoint stands before another endpoint and before all that need no claim. */
  ghost predicate ProbeInFront(route: Route, tried: set<nat>, a: nat, b: nat)
    requires Ready(route)
  {
    && Untried(route, tried, a) && route.snapshot[a].breaker.HalfOpen?
    && Untried(route, tried, b) && route.active[a] < route.active[b]
    && forall d :: 0 <= d < |route.weights| && Untried(route, tried, d) && route.snapshot[d].breaker.NoBreaker?
         ==> route.active[a] < route.active[d]
  }

  /** What lets a steadily eligible endpoint go untried: the scan's lowest endpoint was a half-open one
      whose slot was gone by the second pass. */
  lemma LostToProbe(route: Route, answers: Answers, tried: set<nat>, picks: seq<nat>, b: nat) returns (a: nat)
    requires Ready(route) && GivesUp(route, answers, tried, picks)
    requires Steady(route, answers, 2 * |picks| + 2, b) && b !in With(tried, picks)
    ensures ProbeInFront(route, tried, a, b)
    ensures a in answers.free(2 * |picks|) && a !in answers.free(2 * |picks| + 1)
    ensures IsLowest(route, With(tried, picks), answers.free(2 * |picks|), route.active[a])
  {
    var k, now := |picks|, With(tried, picks);
    var first, second := answers.free(2 * k), answers.free(2 * k + 1);
    assert Candidate(route, now, first, b) && Candidate(route, now, second, b);
    a := LowestAmong(route, now, first, b);
    assert !Offered(route, now, first, second, a) && !Offered(route, now, first, second, b);
    assert route.snapshot[a].breaker.HalfOpen?;
    forall d | 0 <= d < |route.weights| && Untried(route, tried, d) && route.snapshot[d].breaker.NoBreaker?
      ensures route.active[a] < route.active[d]
    {
      assert d !in picks;
      assert Candidate(route, now, first, d) && Candidate(route, now, second, d);
      assert !Offered(route, now, first, second, d);
    }
  }

  /** The failing answers: a's slot is free only in first passes and b's always, other half-open
      endpoints have none, and there is no room for any outcome. */
  function Adverse(a: nat, b: nat): Answers { Answers(p => if p % 2 == 0 then {a, b} else {b}, {}, {}) }

  lemma {:induction false} AdverseRun(route: Route, tried: set<nat>, a: nat, b: nat, picks: seq<nat>)
    returns (all: seq<nat>)
    requires Ready(route) && ProbeInFront(route, tried, a, b)
    requires Chosen(route, Adverse(a, b), tried, picks) && a !in picks && b !in picks
    requires AllFailed(route.snapshot, Adverse(a, b), picks)
    ensures GivesUp(route, Adverse(a, b), tried, all) && b !in all
    decreases Indices(|route.weights|) - With(tried, picks)
  {
    var k, now, answers := |picks|, With(tried, picks), Adverse(a, b);
    var first, second := answers.free(2 * k), answers.free(2 * k + 1);
    if i :| 0 <= i < |route.active| && Offered(route, now, first, second, i) {
      var c := ChoiceExists(route, now, first, second, Pick(route, k), i);
      AdverseChoice(route, tried, a, b, picks, c);
      Extended(route, answers, tried, picks, c);
      OneMore(route.snapshot, answers, picks, c);
      assert c in Indices(|route.weights|) - now;
      all := AdverseRun(route, tried, a, b, picks + [c]);
    } else {
      all := picks;
    }
  }

  /** Under the adverse answers only endpoints with a closed breaker are ever chosen. */
  lemma AdverseChoice(route: Route, tried: set<nat>, a: nat, b: nat, picks: seq<nat>, c: nat)
    requires Ready(route) && ProbeInFront(route, tried, a, b) && a !in picks && b !in picks && c < |route.active|
    requires Offered(route, With(tried, picks), Adverse(a, b).free(2 * |picks|), Adverse(a, b).free(2 * |picks| + 1), c)
    ensures c != a && c != b && c < |route.snapshot| && !Claimed(route.snapshot, Adverse(a, b), c)
  {
    var now := With(tried, picks);
    assert Adverse(a, b).free(2 * |picks|) == {a, b} && Adverse(a, b).free(2 * |picks| + 1) == {b};
    assert Candidate(route, now, {a, b}, a);
    assert route.active[c] <= route.active[a];
  }

  lemma Extended(route: Route, answers: Answers, tried: set<nat>, picks: seq<nat>, c: nat)
    requires Ready(route) && Chosen(route, answers, tried, picks)
    requires AllFailed(route.snapshot, answers, picks)
    requires IsChoice(route, With(tried, picks), answers.free(2 * |picks|), answers.free(2 * |picks| + 1),
                      Pick(route, |picks|), c)
    ensures Chosen(route, answers, tried, picks + [c])
    ensures With(tried, picks + [c]) == With(tried, picks) + {c}
  {
    var more := picks + [c];
    forall k | 0 <= k < |more|
      ensures && IsChoice(route, With(tried, more[..k]), answers.free(2 * k), answers.free(2 * k + 1), Pick(route, k), more[k])
              && (k < |more| - 1 ==> !Claimed(route.snapshot, answers, more[k]))
    {
      assert more[..k] == picks[..k];
      if k < |picks| { assert picks[k] in picks; } else { assert picks[..k] == picks; }
    }
  }

  /** What one more choice, taken or not, makes of the choices so far. */
  lemma ChoiceTried(route: Route, answers: Answers, tried: set<nat>, picks: seq<nat>, c: nat)
    requires Ready(route) && Chosen(route, answers, tried, picks) && AllFailed(route.snapshot, answers, picks)
    requires IsChoice(route, With(tried, picks), answers.free(2 * |picks|), answers.free(2 * |picks| + 1),
                      Pick(route, |picks|), c)
    ensures c < |route.weights| && c < |route.snapshot| && Chosen(route, answers, tried, picks + [c])
    ensures With(tried, picks + [c]) == With(tried, picks) + {c}
    ensures !Claimed(route.snapshot, answers, c) ==> AllFailed(route.snapshot, answers, picks + [c])
    ensures SomeNoRoom(route.snapshot, answers, picks + [c])
            <==> SomeNoRoom(route.snapshot, answers, picks) || NoRoom(route.snapshot, answers, c)
  {
    Extended(route, answers, tried, picks, c);
    OneMore(route.snapshot, answers, picks, c);
  }

  /** The least-active search misses no steadily eligible endpoint exactly when no half-open endpoint
      stands in front of another one with nothing claim-free before it. */
  lemma CompleteIff(route: Route, tried: set<nat>)
    requires Ready(route)
    ensures Complete(route, tried) <==> !exists a, b :: ProbeInFront(route, tried, a, b)
  {
    if a, b :| ProbeInFront(route, tried, a, b) {
      var picks := AdverseRun(route, tried, a, b, []);
      assert Steady(route, Adverse(a, b), 2 * |picks| + 2, b);
    } else {
      forall answers, picks, b: nat
        | GivesUp(route, answers, tried, picks) && Steady(route, answers, 2 * |picks| + 2, b)
        ensures b in With(tried, picks)
      {
        if b !in With(tried, picks) { var a := LostToProbe(route, answers, tried, picks, b); }
      }
    }
  }

  /** One free slot on an idle half-open endpoint, taken by another thread between the two passes: the
      search ends at once with the busier closed endpoint untried. */
  lemma LostSlot()
    ensures var route := Route([1, 1], 0, [Decision(true, HalfOpen), Decision(true, Closed)], [0, 1]);
            var answers := Answers(p => if p == 0 then {0} else {}, {}, {1});
            Ready(route) && GivesUp(route, answers, {}, []) && Steady(route, answers, 2, 1) && 1 !in With({}, [])
  {
    var route := Route([1, 1], 0, [Decision(true, HalfOpen), Decision(true, Closed)], [0, 1]);
    var answers := Answers(p => if p == 0 then {0} else {}, {}, {1});
    assert Prefix(route.weights, 1) == Prefix(route.weights, 0) + 1;
    assert Prefix(route.weights, 2) == 2;
    assert With({}, []) == {} && answers.free(0) == {0} && answers.free(1) == {};
    assert Candidate(route, {}, {0}, 0) && !Candidate(route, {}, {}, 0);
    assert !IsLowest(route, {}, {0}, 1);
    assert NoneOffered(route, {}, {0}, {});
  }

  // ---------------------------------------------------------------- the weighted search

  /** Pick k comes to an endpoint neither tried before nor picked before. */
  ghost predicate Fresh(route: Route, tried: set<nat>, k: nat)
    requires Usable(route.weights)
  {
    Pick(route, k) !in tried && forall j :: 0 <= j < k ==> Pick(route, j) != Pick(route, k)
  }

  /** Pick k ends the search with an attempt. */
  ghost predicate Takes(route: Route, answers: Answers, tried: set<nat>, k: nat)
    requires Usable(route.weights)
  {
    && Fresh(route, tried, k) && Eligible(route.snapshot, answers.free(k), Pick(route, k))
    && Claimed(route.snapshot, answers, Pick(route, k))
  }

  ghost predicate WeightedGivesUp(route: Route, answers: Answers, tried: set<nat>)
    requires Usable(route.weights)
  {
    forall k :: 0 <= k < |route.weights| ==> !Takes(route, answers, tried, k)
  }

  /** Among the first n picks. */
  ghost predicate Reached(route: Route, n: nat, i: nat)
    requires Usable(route.weights)
  {
    exists k :: 0 <= k < n && Pick(route, k) == i
  }

  lemma {:induction false} ReachedIsHit(route: Route, n: nat, i: nat)
    requires Usable(route.weights) && Total(route.weights) > 0
    ensures Reached(route, n, i) <==> Hits(route.weights, i, route.cursor, n) > 0
  {
    if n > 0 {
      ReachedIsHit(route, n - 1, i);
      if Owns(route.weights, i, (route.cursor + n - 1) % Total(route.weights)) { PickIs(route, n - 1, i); }
    }
  }

  lemma {:induction false} FirstPick(route: Route, tried: set<nat>, k: nat) returns (j: nat)
    requires Usable(route.weights) && Pick(route, k) !in tried
    ensures j <= k && Pick(route, j) == Pick(route, k) && Fresh(route, tried, j)
  {
    if i :| 0 <= i < k && Pick(route, i) == Pick(route, k) { j := FirstPick(route, tried, i); } else { j := k; }
  }

  ghost predicate WeightedComplete(route: Route, tried: set<nat>)
    requires Usable(route.weights)
  {
    forall answers, b: nat ::
      WeightedGivesUp(route, answers, tried) && Steady(route, answers, |route.weights|, b)
      ==> b in tried || Reached(route, |route.weights|, b)
  }

  /** An untried endpoint is out of reach, and nothing in reach needs no claim. */
  ghost predicate OutOfReach(route: Route, tried: set<nat>, b: nat)
    requires Usable(route.weights)
  {
    var n := |route.weights|;
    && Untried(route, tried, b) && !Reached(route, n, b)
    && forall d: nat :: Untried(route, tried, d) && Reached(route, n, d) ==> !route.snapshot[d].breaker.NoBreaker?
  }

  /** One weighted search misses no steadily eligible endpoint exactly when every untried selectable
      endpoint is in reach of its picks, or one in reach needs no claim. */
  lemma WeightedCompleteIff(route: Route, tried: set<nat>)
    requires Usable(route.weights)
    ensures WeightedComplete(route, tried) <==> !exists b :: OutOfReach(route, tried, b)
  {
    var n := |route.weights|;
    if b :| OutOfReach(route, tried, b) {
      var answers := Answers(p => Indices(n), {}, {});
      forall k | 0 <= k < n ensures !Takes(route, answers, tried, k) {
        assert Reached(route, n, Pick(route, k));
      }
      assert WeightedGivesUp(route, answers, tried) && Steady(route, answers, n, b);
    } else {
      forall answers, b: nat | WeightedGivesUp(route, answers, tried) && Steady(route, answers, n, b)
        ensures b in tried || Reached(route, n, b)
      {
        if b !in tried && !Reached(route, n, b) { MissedOutOfReach(route, answers, tried, b); }
      }
    }
  }

  lemma MissedOutOfReach(route: Route, answers: Answers, tried: set<nat>, b: nat)
    requires Usable(route.weights) && WeightedGivesUp(route, answers, tried)
    requires Steady(route, answers, |route.weights|, b) && b !in tried && !Reached(route, |route.weights|, b)
    ensures OutOfReach(route, tried, b)
  {
    var n := |route.weights|;
    assert Eligible(route.snapshot, answers.free(0), b);
    forall d: nat | Untried(route, tried, d) && Reached(route, n, d) ensures !route.snapshot[d].breaker.NoBreaker? {
      var k :| 0 <= k < n && Pick(route, k) == d;
      var j := FirstPick(route, tried, k);
      assert !Takes(route, answers, tried, j);
    }
  }

  /** Whatever the cursor, the snapshot and the endpoints tried, the weighted search misses nothing
      exactly with one endpoint or all weights one. */
  lemma AlwaysCompleteIff(weights: seq<nat>)
    requires Usable(weights)
    ensures (forall cursor, snapshot, active, tried :: WeightedComplete(Route(weights, cursor, snapshot, active), tried))
            <==> (|weights| == 1 || forall i :: 0 <= i < |weights| ==> weights[i] == 1)
  {
    ReachesAllIff(weights);
    var n := |weights|;
    if n == 1 || forall i :: 0 <= i < n ==> weights[i] == 1 {
      forall cursor, snapshot, active, tried
        ensures WeightedComplete(Route(weights, cursor, snapshot, active), tried)
      {
        var route := Route(weights, cursor, snapshot, active);
        assert ReachesAll(weights, cursor);
        forall b: nat | b < n ensures Reached(route, n, b) { ReachedIsHit(route, n, b); }
      }
    } else {
      var cursor :| !ReachesAll(weights, cursor);
      var b: nat :| b < n && Hits(weights, b, cursor, n) == 0;
      var route := Route(weights, cursor, seq(n, i => Decision(true, Closed)), []);
      ReachedIsHit(route, n, b);
      assert OutOfReach(route, {}, b);
      WeightedCompleteIff(route, {});
      assert !WeightedComplete(route, {});
    }
  }

  /** Weights 3 and 1 from the start of the rotation: both picks go to the first endpoint, which finds
      no room, and the search ends with the second one eligible and untried. */
  lemma WeightedCanMiss(active: seq<nat>)
    ensures var route := Route([3, 1], 0, [Decision(true, Closed), Decision(true, Closed)], active);
            var answers := Answers(p => {}, {}, {1});
            && Usable(route.weights) && WeightedGivesUp(route, answers, {})
            && Steady(route, answers, 2, 1) && !Reached(route, 2, 1)
  {
    var w := [3, 1];
    var route := Route(w, 0, [Decision(true, Closed), Decision(true, Closed)], active);
    assert Prefix(w, 1) == Prefix(w, 0) + w[0] == 3;
    assert Prefix(w, 2) == 4;
    ModSmall(0, 4);
    ModSmall(1, 4);
    PickIs(route, 0, 0);
    PickIs(route, 1, 0);
  }

  function Indices(n: nat): (s: set<nat>)
    ensures forall i: nat :: i in s <==> i < n
  {
    if n == 0 then {} else Indices(n - 1) + {n - 1}
  }
}
