/** Choosing the endpoint of an attempt on one route: weighted rotation or least active, skipping
    what was already tried. */
module Selection {
  import opened Attempts
  import opened Arith
  import opened Rotation
  import opened SelectionSearch

  const UINT32_MAX: nat := 0xFFFF_FFFF

  datatype Endpoint = Endpoint(address: nat, port: nat, weight: nat)

  function WeightsOf(endpoints: seq<Endpoint>): (w: seq<nat>)
    ensures |w| == |endpoints| && forall i :: 0 <= i < |w| ==> w[i] == endpoints[i].weight
  {
    seq(|endpoints|, i requires 0 <= i < |endpoints| => endpoints[i].weight)
  }

  /** Configuration validation: no two endpoints of a route share address and port. */
  ghost predicate Distinct(endpoints: seq<Endpoint>) {
    forall i, j :: 0 <= i < j < |endpoints| ==>
      endpoints[i].address != endpoints[j].address || endpoints[i].port != endpoints[j].port
  }

  function Bumped(count: nat): nat { if count == UINT32_MAX then 0 else count + 1 }

  /** Endpoint i has one more attempt under way, the others as many as before. */
  ghost predicate Counted(before: seq<nat>, active: seq<nat>, i: nat) {
    i < |before| && active == before[i := Bumped(before[i])]
  }

  class SelectionState {
    const endpoints: seq<Endpoint>
    const rotation: WeightedRoundRobin
    var active: seq<nat>

    ghost predicate Valid()
      reads this, rotation
    {
      && rotation.Valid() && rotation.weights == WeightsOf(endpoints) && Distinct(endpoints)
      && |active| == |endpoints| && forall i :: 0 <= i < |active| ==> active[i] <= UINT32_MAX
    }

    constructor (endpoints: seq<Endpoint>)
      requires Usable(WeightsOf(endpoints)) && Distinct(endpoints)
      ensures Valid() && this.endpoints == endpoints && fresh(rotation)
      ensures forall i :: 0 <= i < |active| ==> active[i] == 0
    {
      this.endpoints := endpoints;
      rotation := new WeightedRoundRobin(WeightsOf(endpoints));
      active := seq(|endpoints|, i => 0);
    }

    /** The first endpoint with the same address and port is the same endpoint. */
    method Match(selected: Endpoint, ghost at: nat) returns (index: nat)
      requires Distinct(endpoints) && at < |endpoints| && endpoints[at] == selected
      ensures index == at
    {
      for k := 0 to |endpoints|
        invariant k <= at
      {
        if endpoints[k].address == selected.address && endpoints[k].port == selected.port { return k; }
      }
      assert false;
    }

    method NextWeightedIndex() returns (index: nat)
      requires Valid()
      modifies rotation`cursor
      ensures Valid() && rotation.cursor == (old(rotation.cursor) + 1) % rotation.total
      ensures Owns(WeightsOf(endpoints), index, old(rotation.cursor))
    {
      var owner := rotation.Next();
      index := Match(endpoints[owner], owner);
    }

    /** The route as this worker sees it under a snapshot. */
    ghost function View(snapshot: seq<Decision>): Route
      reads this, rotation
    {
      Route(WeightsOf(endpoints), rotation.cursor, snapshot, active)
    }

    /** One scan.  Which probe slots are free is asked anew in each pass: `first` and `second` are the
        answers.  It takes, in rotation order from the cursor's owner, the first candidate of the
        second pass with the fewest active attempts the first pass saw, and none if there is none. */
    method NextLeastActiveIndex(snapshot: seq<Decision>, tried: set<nat>, first: set<nat>, second: set<nat>)
      returns (r: Option<nat>)
      requires Valid()
      modifies rotation`cursor
      ensures Valid() && rotation.cursor == (old(rotation.cursor) + 1) % rotation.total
      ensures r.None? <==> NoneOffered(old(View(snapshot)), tried, first, second)
      ensures r.Some? ==>
                IsChoice(old(View(snapshot)), tried, first, second, Pick(old(View(snapshot)), 0), r.value)
    {
      ghost var route := View(snapshot);
      ModSmall(rotation.cursor, rotation.total);
      var owner := rotation.Next();
      var start := Match(endpoints[owner], owner);
      PickIs(route, 0, start);
      var found, minimum := LowestActive(route, snapshot, start, tried, first);
      if !found { return None; }
      r := FirstWithActive(route, snapshot, start, tried, second, minimum);
      OfferedIs(route, tried, first, second, minimum);
    }

    /** The first pass: the fewest active attempts among the candidates. */
    method LowestActive(ghost route: Route, snapshot: seq<Decision>, start: nat, tried: set<nat>, free: set<nat>)
      returns (found: bool, minimum: nat)
      requires route.snapshot == snapshot && route.active == active && start < |active|
      requires forall i :: 0 <= i < |active| ==> active[i] <= UINT32_MAX
      ensures found <==> exists i :: 0 <= i < |active| && Candidate(route, tried, free, i)
      ensures found ==> IsLowest(route, tried, free, minimum)
    {
      var n := |active|;
      minimum, found := UINT32_MAX, false;
      for step := 0 to n
        invariant forall i :: 0 <= i < n && Candidate(route, tried, free, i) && Steps(n, start, i) < step ==>
                    found && minimum <= active[i]
        invariant found ==> exists i :: 0 <= i < n && Candidate(route, tried, free, i) && active[i] == minimum
        invariant !found ==> minimum == UINT32_MAX
      {
        var index := (start + step) % n;
        StepsIs(n, start, index, step);
        OnlyStep(n, start, index, step);
        if index in tried || !Eligible(snapshot, free, index) { continue; }
        assert Candidate(route, tried, free, index);
        minimum := Min(minimum, active[index]);
        found := true;
      }
      forall i | 0 <= i < n ensures Steps(n, start, i) < n { StepsInverse(n, start, i); }
    }

    /** The second pass: of the candidates with that many active attempts, the one the rotation meets first. */
    method FirstWithActive(ghost route: Route, snapshot: seq<Decision>, start: nat, tried: set<nat>, free: set<nat>, minimum: nat)
      returns (r: Option<nat>)
      requires route.snapshot == snapshot && route.active == active && start < |active|
      ensures r.None? <==> forall i :: 0 <= i < |active| ==> !(Candidate(route, tried, free, i) && active[i] == minimum)
      ensures r.Some? ==>
                && r.value < |active| && Candidate(route, tried, free, r.value) && active[r.value] == minimum
                && forall i :: 0 <= i < |active| && Candidate(route, tried, free, i) && active[i] == minimum
                     ==> Steps(|active|, start, r.value) <= Steps(|active|, start, i)
    {
      var n := |active|;
      for step := 0 to n
        invariant forall i :: 0 <= i < n && Steps(n, start, i) < step ==>
                    !Candidate(route, tried, free, i) || active[i] != minimum
      {
        var index := (start + step) % n;
        StepsIs(n, start, index, step);
        OnlyStep(n, start, index, step);
        if index in tried || !Eligible(snapshot, free, index) { continue; }
        if active[index] == minimum { return Some(index); }
      }
      forall i | 0 <= i < n ensures Steps(n, start, i) < n { StepsInverse(n, start, i); }
      return None;
    }

    /** The count is a 32-bit counter. */
    method AcquireActive(index: nat) returns (held: bool)
      requires Valid()
      modifies this`active
      ensures Valid() && (held <==> index < |endpoints|)
      ensures active == if held then old(active)[index := Bumped(old(active)[index])] else old(active)
    {
      if index >= |active| { return false; }
      active := active[index := Bumped(active[index])];
      return true;
    }
  }

  /** The cursor plays no part in what a scan's passes see. */
  lemma SameScan(route: Route, now: Route, tried: set<nat>, first: set<nat>, second: set<nat>, i: nat)
    requires now == route.(cursor := now.cursor)
    ensures Offered(route, tried, first, second, i) == Offered(now, tried, first, second, i)
  {
    forall free, j: nat ensures Candidate(route, tried, free, j) == Candidate(now, tried, free, j) {
    }
    if i < |route.active| {
      assert IsLowest(route, tried, first, route.active[i]) == IsLowest(now, tried, first, route.active[i]);
    }
  }

  lemma OfferedIs(route: Route, tried: set<nat>, first: set<nat>, second: set<nat>, m: nat)
    requires IsLowest(route, tried, first, m)
    ensures forall i :: 0 <= i < |route.active| ==>
              (Offered(route, tried, first, second, i) <==> Candidate(route, tried, second, i) && route.active[i] == m)
  {
  }

  class AttemptSelector {
    const selection: SelectionState
    var tried: set<nat>
    var overload: bool

    ghost predicate Valid()
      reads this, selection, selection.rotation
    {
      selection.Valid() && forall i :: i in tried ==> i < |selection.endpoints|
    }

    constructor (selection: SelectionState)
      requires selection.Valid()
      ensures Valid() && this.selection == selection && tried == {}
    {
      this.selection, tried, overload := selection, {}, false;
    }

    /** Claim the endpoint; a lack of outcome room is remembered. */
    method MakeSelection(index: nat, snapshot: seq<Decision>, answers: Answers) returns (ok: bool)
      requires selection.Valid() && index < |selection.endpoints| && index < |snapshot|
      modifies this`overload, selection`active
      ensures selection.Valid() && (ok <==> Claimed(snapshot, answers, index))
      ensures overload == (old(overload) || NoRoom(snapshot, answers, index))
      ensures selection.active == if ok then old(selection.active)[index := Bumped(old(selection.active)[index])]
                                  else old(selection.active)
    {
      if !snapshot[index].breaker.NoBreaker? {
        if snapshot[index].breaker.HalfOpen? && index !in answers.won { return false; }
        if index !in answers.room {
          overload := true;
          return false;
        }
      }
      var held := selection.AcquireActive(index);
      return true;
    }

    /** The least-active search, scan after scan.  It ends; `picks` are the endpoints chosen, in order,
        all but a returned one having failed their claim. */
    method SelectLeastActive(snapshot: seq<Decision>, answers: Answers) returns (r: Option<nat>, ghost picks: seq<nat>)
      requires Valid()
      modifies this, selection`active, selection.rotation`cursor
      ensures Valid() && Ready(old(selection.View(snapshot))) && tried == With(old(tried), picks)
      ensures r.None? ==> GivesUp(old(selection.View(snapshot)), answers, old(tried), picks)
      ensures r.Some? ==>
                && Chosen(old(selection.View(snapshot)), answers, old(tried), picks)
                && picks != [] && r.value == picks[|picks| - 1] < |snapshot| && Claimed(snapshot, answers, r.value)
      ensures r.None? ==> (overload <==> SomeNoRoom(snapshot, answers, picks))
      ensures if r.None? then selection.active == old(selection.active)
              else Counted(old(selection.active), selection.active, r.value)
    {
      overload, picks := false, [];
      var n, k := |selection.endpoints|, 0;
      ghost var route := selection.View(snapshot);
      ModSmall(route.cursor, selection.rotation.total);
      while true
        invariant Valid() && Turned(route, k, selection.rotation.cursor) && k == |picks|
        invariant Searching(route, answers, old(tried), picks)
        decreases Indices(n) - tried
      {
        var index := Scan(route, k, snapshot, answers);
        if index.None? { return None, picks; }
        assert index.value in Indices(n) - tried;
        var ok := TryChoice(route, old(tried), picks, index.value, snapshot, answers);
        picks := picks + [index.value];
        if ok { return index, picks; }
        k := k + 1;
      }
    }

    /** The search goes on: the choices so far all failed. */
    ghost predicate Searching(route: Route, answers: Answers, before: set<nat>, picks: seq<nat>)
      reads this, selection
    {
      && Ready(route) && selection.active == route.active && tried == With(before, picks)
      && Chosen(route, answers, before, picks) && AllFailed(route.snapshot, answers, picks)
      && (overload <==> SomeNoRoom(route.snapshot, answers, picks))
    }

    method TryChoice(ghost route: Route, ghost before: set<nat>, ghost picks: seq<nat>, c: nat,
                     snapshot: seq<Decision>, answers: Answers) returns (ok: bool)
      requires Valid() && route.snapshot == snapshot && Searching(route, answers, before, picks)
      requires IsChoice(route, tried, answers.free(2 * |picks|), answers.free(2 * |picks| + 1), Pick(route, |picks|), c)
      modifies this`tried, this`overload, selection`active
      ensures Valid() && tried == old(tried) + {c} == With(before, picks + [c])
      ensures c < |snapshot| && (ok <==> Claimed(snapshot, answers, c))
      ensures Chosen(route, answers, before, picks + [c])
      ensures !ok ==> Searching(route, answers, before, picks + [c])
      ensures ok ==> Counted(old(selection.active), selection.active, c)
    {
      ChoiceTried(route, answers, before, picks, c);
      ok := TryIndex(c, snapshot, answers);
    }

    method TryIndex(index: nat, snapshot: seq<Decision>, answers: Answers) returns (ok: bool)
      requires Valid() && index < |selection.endpoints| && index < |snapshot|
      modifies this`tried, this`overload, selection`active
      ensures Valid() && tried == old(tried) + {index} && (ok <==> Claimed(snapshot, answers, index))
      ensures overload == (old(overload) || NoRoom(snapshot, answers, index))
      ensures selection.active == if ok then old(selection.active)[index := Bumped(old(selection.active)[index])]
                                  else old(selection.active)
    {
      ok := MakeSelection(index, snapshot, answers);
      tried := tried + {index};
    }

    /** Scan k of a search on the route. */
    method Scan(ghost route: Route, k: nat, snapshot: seq<Decision>, answers: Answers) returns (index: Option<nat>)
      requires selection.Valid() && route.weights == WeightsOf(selection.endpoints) && Ready(route)
      requires route.snapshot == snapshot && route.active == selection.active
      requires Turned(route, k, selection.rotation.cursor)
      modifies selection.rotation`cursor
      ensures selection.Valid() && Turned(route, k + 1, selection.rotation.cursor)
      ensures index.None? ==> NoneOffered(route, tried, answers.free(2 * k), answers.free(2 * k + 1))
      ensures index.Some? ==>
                IsChoice(route, tried, answers.free(2 * k), answers.free(2 * k + 1), Pick(route, k), index.value)
    {
      ghost var here := selection.View(snapshot);
      index := selection.NextLeastActiveIndex(snapshot, tried, answers.free(2 * k), answers.free(2 * k + 1));
      LaterScan(route, here, tried, answers, k, index);
      CursorNext(route.cursor, k, selection.rotation.total);
    }

    /** The weighted search: as many picks as there are endpoints, the first that takes ending it. */
    method SelectWeighted(snapshot: seq<Decision>, answers: Answers) returns (r: Option<nat>, ghost picked: nat)
      requires Valid()
      modifies this, selection`active, selection.rotation`cursor
      ensures Valid() && Ready(old(selection.View(snapshot))) && picked <= |selection.endpoints|
      ensures Tries(tried, old(selection.View(snapshot)), old(tried), picked)
      ensures r.None? ==> WeightedGivesUp(old(selection.View(snapshot)), answers, old(tried)) && picked == |selection.endpoints|
      ensures r.Some? ==>
                && picked > 0 && r.value == Pick(old(selection.View(snapshot)), picked - 1)
                && Takes(old(selection.View(snapshot)), answers, old(tried), picked - 1)
                && forall k :: 0 <= k < picked - 1 ==> !Takes(old(selection.View(snapshot)), answers, old(tried), k)
      ensures r.None? ==>
                (overload <==>
                 AnyNoRoom(old(selection.View(snapshot)), answers, old(tried), picked))
      ensures if r.None? then selection.active == old(selection.active)
              else Counted(old(selection.active), selection.active, r.value)
    {
      overload, picked := false, 0;
      var n := |selection.endpoints|;
      ghost var route := selection.View(snapshot);
      ModSmall(route.cursor, selection.rotation.total);
      for attempts := 0 to n
        invariant Valid() && picked == attempts && Turned(route, attempts, selection.rotation.cursor)
        invariant Picking(route, answers, old(tried), attempts) && selection.active == old(selection.active)
      {
        var index := PickOne(route, attempts);
        picked := attempts + 1;
        var ok := TryPick(route, old(tried), attempts, index, snapshot, answers);
        if ok { return Some(index), picked; }
      }
      return None, picked;
    }

    /** The search goes on: the endpoints of the first k picks are tried and none took. */
    ghost predicate Picking(route: Route, answers: Answers, before: set<nat>, k: nat)
      reads this
    {
      && Usable(route.weights) && Tries(tried, route, before, k)
      && (forall j :: 0 <= j < k ==> !Takes(route, answers, before, j))
      && (overload <==> AnyNoRoom(route, answers, before, k))
    }

    /** One pick: passed over when tried before or not eligible. */
    method TryPick(ghost route: Route, ghost before: set<nat>, k: nat, index: nat, snapshot: seq<Decision>, answers: Answers)
      returns (ok: bool)
      requires Valid() && route.snapshot == snapshot && Picking(route, answers, before, k)
      requires index == Pick(route, k) && index < |selection.endpoints|
      modifies this`tried, this`overload, selection`active
      ensures Valid() && Tries(tried, route, before, k + 1) && (ok <==> Takes(route, answers, before, k))
      ensures !ok ==> Picking(route, answers, before, k + 1) && selection.active == old(selection.active)
      ensures ok ==> Counted(old(selection.active), selection.active, index)
    {
      PickNext(route, answers, before, k);
      if index in tried { return false; }
      tried := tried + {index};
      if !Eligible(snapshot, answers.free(k), index) { return false; }
      ok := MakeSelection(index, snapshot, answers);
    }

    /** Pick k of a search on the route. */
    method PickOne(ghost route: Route, k: nat) returns (index: nat)
      requires selection.Valid() && route.weights == WeightsOf(selection.endpoints) && Ready(route)
      requires Turned(route, k, selection.rotation.cursor)
      modifies selection.rotation`cursor
      ensures selection.Valid() && Turned(route, k + 1, selection.rotation.cursor)
      ensures index == Pick(route, k)
    {
      CursorNext(route.cursor, k, selection.rotation.total);
      index := selection.NextWeightedIndex();
      PickIs(route, k, index);
    }
  }

  /** Tried are exactly those tried before and those the first k picks reached. */
  ghost predicate Tries(tried: set<nat>, route: Route, before: set<nat>, k: nat)
    requires Usable(route.weights)
  {
    forall i: nat :: i in tried <==> i in before || Reached(route, k, i)
  }

  /** Where the rotation's cursor stands after k picks. */
  ghost predicate Turned(route: Route, k: nat, cursor: nat) {
    Total(route.weights) > 0 && cursor == (route.cursor + k) % Total(route.weights)
  }

  /** Scan k starts where the k-th pick of the rotation stands. */
  lemma LaterScan(route: Route, here: Route, tried: set<nat>, answers: Answers, k: nat, r: Option<nat>)
    requires Ready(route) && Total(route.weights) > 0
    requires here == route.(cursor := (route.cursor + k) % Total(route.weights))
    requires r.None? ==> NoneOffered(here, tried, answers.free(2 * k), answers.free(2 * k + 1))
    requires r.Some? ==> IsChoice(here, tried, answers.free(2 * k), answers.free(2 * k + 1), Pick(here, 0), r.value)
    ensures r.None? ==> NoneOffered(route, tried, answers.free(2 * k), answers.free(2 * k + 1))
    ensures r.Some? ==> IsChoice(route, tried, answers.free(2 * k), answers.free(2 * k + 1), Pick(route, k), r.value)
  {
    var first, second := answers.free(2 * k), answers.free(2 * k + 1);
    ModSmall(here.cursor, Total(route.weights));
    PickIs(route, k, Pick(here, 0));
    forall i: nat ensures Offered(route, tried, first, second, i) == Offered(here, tried, first, second, i) {
      SameScan(route, here, tried, first, second, i);
    }
  }

  /** One more pick: what it adds to the endpoints reached, and when it comes to a new one. */
  lemma PickNext(route: Route, answers: Answers, tried: set<nat>, k: nat)
    requires Usable(route.weights)
    ensures forall i :: Reached(route, k + 1, i) <==> Reached(route, k, i) || i == Pick(route, k)
    ensures Fresh(route, tried, k) <==> Pick(route, k) !in tried && !Reached(route, k, Pick(route, k))
    ensures AnyNoRoom(route, answers, tried, k + 1)
            <==> AnyNoRoom(route, answers, tried, k) || NoRoomAt(route, answers, tried, k)
  {
    assert Reached(route, k + 1, Pick(route, k)) by { assert 0 <= k < k + 1; }
    forall i | Reached(route, k, i) ensures Reached(route, k + 1, i) {
      var j :| 0 <= j < k && Pick(route, j) == i;
      assert 0 <= j < k + 1;
    }
    if AnyNoRoom(route, answers, tried, k) {
      var j :| 0 <= j < k && NoRoomAt(route, answers, tried, j);
      assert 0 <= j < k + 1;
    }
    if NoRoomAt(route, answers, tried, k) { assert 0 <= k < k + 1; }
  }

  /** Pick k came to an eligible endpoint whose outcome found no room. */
  ghost predicate NoRoomAt(route: Route, answers: Answers, tried: set<nat>, k: nat)
    requires Usable(route.weights)
  {
    && Fresh(route, tried, k) && Eligible(route.snapshot, answers.free(k), Pick(route, k))
    && NoRoom(route.snapshot, answers, Pick(route, k))
  }

  ghost predicate AnyNoRoom(route: Route, answers: Answers, tried: set<nat>, n: nat)
    requires Usable(route.weights)
  {
    exists k :: 0 <= k < n && NoRoomAt(route, answers, tried, k)
  }

  lemma CursorNext(cursor: nat, k: nat, n: nat)
    requires n > 0
    ensures ((cursor + k) % n + 1) % n == (cursor + (k + 1)) % n
  {
    ModAdd(cursor + k, 1, n);
  }
}
