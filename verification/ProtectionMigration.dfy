/** Carrying health and breaker state from one generation's configuration to the next.  A breaker is
    opaque here: `save` is its export and `adopt` its import, as modelled in module CircuitBreakers. */
module ProtectionMigration {
  import opened Attempts

  datatype Health = ImplicitHealthy | Unknown | Healthy | Unhealthy

  datatype HealthPolicy = HealthPolicy(interval: nat, timeout: nat)

  datatype BreakerPolicy = BreakerPolicy(window: nat, minRequests: nat, permille: nat, open: nat, probes: nat)

  datatype Endpoint = Endpoint(host: string, address: nat, port: nat)

  datatype Route = Route(
    name: string, host: string, prefix: string, endpoints: seq<Endpoint>,
    health: Option<HealthPolicy>, breaker: Option<BreakerPolicy>)

  /** Configuration validation: route names are unique, and so are address and port within a route. */
  ghost predicate ValidRoutes(routes: seq<Route>) {
    && (forall r, q :: 0 <= r < q < |routes| ==> routes[r].name != routes[q].name)
    && (forall r :: 0 <= r < |routes| ==> DistinctEndpoints(routes[r].endpoints))
  }

  ghost predicate DistinctEndpoints(endpoints: seq<Endpoint>) {
    forall i, j :: 0 <= i < j < |endpoints| ==>
      endpoints[i].address != endpoints[j].address || endpoints[i].port != endpoints[j].port
  }

  datatype State<+B> = State(health: Health, breaker: Option<B>)

  datatype Record<+S> = Record(
    name: string, host: string, prefix: string, endpoint: Endpoint,
    health: Health, healthPolicy: Option<HealthPolicy>, breakerPolicy: Option<BreakerPolicy>, breaker: Option<S>)

  // ---------------------------------------------------------------- what migration means

  predicate SameRoute<S>(record: Record<S>, route: Route) {
    record.name == route.name && record.host == route.host && record.prefix == route.prefix
  }

  predicate Matches<S>(record: Record<S>, route: Route, endpoint: Endpoint) {
    SameRoute(record, route) && record.endpoint == endpoint
  }

  /** The safe state an endpoint has before anything is imported. */
  function Baseline<B>(route: Route, state: State<B>): State<B> {
    state.(health := if route.health.Some? then Unknown else ImplicitHealthy)
  }

  /** What a matching record gives: its health under the same health policy, its breaker under the
      same breaker policy. */
  function Adopted<B, S>(adopt: (B, S) -> B, route: Route, state: State<B>, record: Record<S>): State<B> {
    State(if record.healthPolicy == route.health then record.health else state.health,
          if state.breaker.Some? && record.breaker.Some? && record.breakerPolicy == route.breaker
          then Some(adopt(state.breaker.value, record.breaker.value)) else state.breaker)
  }

  function RecordOf<B, S>(save: B -> S, route: Route, endpoint: Endpoint, state: State<B>): Record<S> {
    Record(route.name, route.host, route.prefix, endpoint, state.health, route.health, route.breaker,
           if state.breaker.Some? then Some(save(state.breaker.value)) else None)
  }

  /** The states fit the configuration. */
  ghost predicate Fits<B>(routes: seq<Route>, states: seq<seq<State<B>>>) {
    |states| == |routes| && forall r :: 0 <= r < |routes| ==> |states[r]| == |routes[r].endpoints|
  }

  /** One state after the records that came so far, in their order. */
  function After<B, S>(adopt: (B, S) -> B, route: Route, endpoint: Endpoint, state: State<B>, records: seq<Record<S>>): State<B> {
    if records == [] then state
    else
      var last, before := records[|records| - 1], After(adopt, route, endpoint, state, records[..|records| - 1]);
      if Matches(last, route, endpoint) then Adopted(adopt, route, before, last) else before
  }

  /** No two records are about the same endpoint of the same route. */
  ghost predicate DistinctRecords<S(!new)>(records: seq<Record<S>>) {
    forall i, j :: 0 <= i < j < |records| ==>
      records[i].name != records[j].name || records[i].endpoint != records[j].endpoint
  }

  lemma {:induction false} NoneMatches<B, S(!new)>(adopt: (B, S) -> B, route: Route, endpoint: Endpoint, state: State<B>,
                                                   records: seq<Record<S>>)
    requires forall i :: 0 <= i < |records| ==> !Matches(records[i], route, endpoint)
    ensures After(adopt, route, endpoint, state, records) == state
  {
    if records != [] { NoneMatches(adopt, route, endpoint, state, records[..|records| - 1]); }
  }

  /** With distinct records only the matching one counts, wherever it stands. */
  lemma {:induction false} OneMatches<B, S(!new)>(adopt: (B, S) -> B, route: Route, endpoint: Endpoint, state: State<B>,
                                                  records: seq<Record<S>>, k: nat)
    requires DistinctRecords(records) && k < |records| && Matches(records[k], route, endpoint)
    ensures After(adopt, route, endpoint, state, records) == Adopted(adopt, route, state, records[k])
  {
    var n := |records| - 1;
    if k == n {
      NoneMatches(adopt, route, endpoint, state, records[..n]);
    } else {
      OneMatches(adopt, route, endpoint, state, records[..n], k);
      assert !Matches(records[n], route, endpoint);
    }
  }

  // ---------------------------------------------------------------- whole configurations

  /** The records of every endpoint of the first n routes, in any order, and no others. */
  ghost predicate ExportsFirst<B(!new), S(!new)>(save: B -> S, routes: seq<Route>, states: seq<seq<State<B>>>, n: nat,
                                                 records: seq<Record<S>>) {
    && Fits(routes, states) && n <= |routes| && DistinctRecords(records)
    && (forall i :: 0 <= i < |records| ==> Covered(save, routes, states, n, records[i]))
    && (forall r, e :: 0 <= r < n && 0 <= e < |routes[r].endpoints| ==>
          RecordOf(save, routes[r], routes[r].endpoints[e], states[r][e]) in records)
  }

  ghost predicate Exports<B(!new), S(!new)>(save: B -> S, routes: seq<Route>, states: seq<seq<State<B>>>,
                                            records: seq<Record<S>>) {
    ExportsFirst(save, routes, states, |routes|, records)
  }

  ghost predicate Covered<B, S>(save: B -> S, routes: seq<Route>, states: seq<seq<State<B>>>, n: nat, record: Record<S>) {
    exists r, e :: r < n && IsRecordAt(save, routes, states, r, e, record)
  }

  ghost predicate IsRecordAt<B, S>(save: B -> S, routes: seq<Route>, states: seq<seq<State<B>>>, r: int, e: int, record: Record<S>) {
    && 0 <= r < |routes| && Fits(routes, states) && 0 <= e < |routes[r].endpoints|
    && record == RecordOf(save, routes[r], routes[r].endpoints[e], states[r][e])
  }

  /** The old endpoint (r, e) is the same endpoint of the same route as the new one. */
  predicate SameEndpoint(previous: seq<Route>, r: int, e: int, route: Route, endpoint: Endpoint) {
    && 0 <= r < |previous| && 0 <= e < |previous[r].endpoints|
    && previous[r].name == route.name && previous[r].host == route.host && previous[r].prefix == route.prefix
    && previous[r].endpoints[e] == endpoint
  }

  /** The exact effect on one new endpoint: the old state where identity and that policy match, the
      safe baseline otherwise, whatever the order of the records. */
  lemma MigratesExactly<B(!new), S(!new)>(save: B -> S, adopt: (B, S) -> B, routes: seq<Route>, states: seq<seq<State<B>>>,
                                          records: seq<Record<S>>, route: Route, endpoint: Endpoint, state: State<B>)
    requires Exports(save, routes, states, records)
    ensures var result := After(adopt, route, endpoint, Baseline(route, state), records);
            && (forall r, e :: SameEndpoint(routes, r, e, route, endpoint) ==>
                  && result.health == (if routes[r].health == route.health then states[r][e].health
                                       else Baseline(route, state).health)
                  && result.breaker == (if state.breaker.Some? && states[r][e].breaker.Some?
                                           && routes[r].breaker == route.breaker
                                        then Some(adopt(state.breaker.value, save(states[r][e].breaker.value)))
                                        else state.breaker))
            && ((forall r, e :: !SameEndpoint(routes, r, e, route, endpoint)) ==> result == Baseline(route, state))
  {
    var base := Baseline(route, state);
    forall r, e | SameEndpoint(routes, r, e, route, endpoint)
      ensures After(adopt, route, endpoint, base, records)
              == Adopted(adopt, route, base, RecordOf(save, routes[r], routes[r].endpoints[e], states[r][e]))
    {
      var record := RecordOf(save, routes[r], routes[r].endpoints[e], states[r][e]);
      assert record in records;
      var k :| 0 <= k < |records| && records[k] == record;
      OneMatches(adopt, route, endpoint, base, records, k);
    }
    if forall r, e :: !SameEndpoint(routes, r, e, route, endpoint) {
      forall i | 0 <= i < |records| ensures !Matches(records[i], route, endpoint) {
        assert Covered(save, routes, states, |routes|, records[i]);
        var r, e :| r < |routes| && IsRecordAt(save, routes, states, r, e, records[i]);
        assert !SameEndpoint(routes, r, e, route, endpoint);
      }
      NoneMatches(adopt, route, endpoint, base, records);
    }
  }

  // ---------------------------------------------------------------- exporting

  function Row<B, S>(save: B -> S, route: Route, states: seq<State<B>>, n: nat): seq<Record<S>>
    requires n <= |states| && n <= |route.endpoints|
  {
    if n == 0 then [] else Row(save, route, states, n - 1) + [RecordOf(save, route, route.endpoints[n - 1], states[n - 1])]
  }

  function Rows<B, S>(save: B -> S, routes: seq<Route>, states: seq<seq<State<B>>>, n: nat): seq<Record<S>>
    requires Fits(routes, states) && n <= |routes|
  {
    if n == 0 then []
    else Rows(save, routes, states, n - 1) + Row(save, routes[n - 1], states[n - 1], |states[n - 1]|)
  }

  lemma {:induction false} RowIs<B, S>(save: B -> S, route: Route, states: seq<State<B>>, n: nat)
    requires n <= |states| && n <= |route.endpoints|
    ensures var row := Row(save, route, states, n);
            |row| == n && forall e :: 0 <= e < n ==> row[e] == RecordOf(save, route, route.endpoints[e], states[e])
  {
    if n > 0 { RowIs(save, route, states, n - 1); }
  }

  lemma RowsDistinct<B(!new), S(!new)>(save: B -> S, routes: seq<Route>, states: seq<seq<State<B>>>, n: nat,
                                       a: seq<Record<S>>, b: seq<Record<S>>)
    requires ValidRoutes(routes) && n < |routes| && ExportsFirst(save, routes, states, n, a)
    requires b == Row(save, routes[n], states[n], |states[n]|)
    ensures DistinctRecords(a + b)
  {
    RowIs(save, routes[n], states[n], |states[n]|);
    var all := a + b;
    forall i, j | 0 <= i < j < |all| ensures all[i].name != all[j].name || all[i].endpoint != all[j].endpoint {
      if j >= |a| {
        assert all[j] == b[j - |a|] && all[j].name == routes[n].name;
        if i < |a| {
          assert Covered(save, routes, states, n, a[i]);
          var r, e :| r < n && IsRecordAt(save, routes, states, r, e, a[i]);
          assert all[i].name == routes[r].name;
        } else {
          assert all[i] == b[i - |a|];
          assert DistinctEndpoints(routes[n].endpoints);
        }
      }
    }
  }

  lemma RowsNext<B(!new), S(!new)>(save: B -> S, routes: seq<Route>, states: seq<seq<State<B>>>, n: nat,
                                   a: seq<Record<S>>, b: seq<Record<S>>)
    requires ValidRoutes(routes) && n < |routes| && ExportsFirst(save, routes, states, n, a)
    requires b == Row(save, routes[n], states[n], |states[n]|)
    ensures ExportsFirst(save, routes, states, n + 1, a + b)
  {
    RowsDistinct(save, routes, states, n, a, b);
    RowIs(save, routes[n], states[n], |states[n]|);
    forall i | 0 <= i < |a + b| ensures Covered(save, routes, states, n + 1, (a + b)[i]) {
      if i < |a| {
        assert Covered(save, routes, states, n, a[i]);
        var r, e :| r < n && IsRecordAt(save, routes, states, r, e, a[i]);
        assert IsRecordAt(save, routes, states, r, e, (a + b)[i]);
      } else {
        assert IsRecordAt(save, routes, states, n, i - |a|, (a + b)[i]);
      }
    }
    forall r, e | 0 <= r < n + 1 && 0 <= e < |routes[r].endpoints|
      ensures RecordOf(save, routes[r], routes[r].endpoints[e], states[r][e]) in a + b
    {
      if r == n { assert b[e] == RecordOf(save, routes[r], routes[r].endpoints[e], states[r][e]); }
    }
  }

  lemma {:induction false} RowsExport<B(!new), S(!new)>(save: B -> S, routes: seq<Route>, states: seq<seq<State<B>>>, n: nat)
    requires ValidRoutes(routes) && Fits(routes, states) && n <= |routes|
    ensures ExportsFirst(save, routes, states, n, Rows(save, routes, states, n))
  {
    if n > 0 {
      RowsExport(save, routes, states, n - 1);
      RowsNext(save, routes, states, n - 1, Rows(save, routes, states, n - 1),
               Row(save, routes[n - 1], states[n - 1], |states[n - 1]|));
    }
  }

  // ---------------------------------------------------------------- the object

  /** A record belongs to one endpoint at most. */
  lemma OnlyOne<S>(routes: seq<Route>, record: Record<S>, r: nat, e: nat, q: nat, f: nat)
    requires ValidRoutes(routes) && r < |routes| && q < |routes|
    requires e < |routes[r].endpoints| && f < |routes[q].endpoints|
    requires Matches(record, routes[r], routes[r].endpoints[e]) && Matches(record, routes[q], routes[q].endpoints[f])
    ensures r == q && e == f
  {
    assert DistinctEndpoints(routes[r].endpoints);
  }

  class CoordinatorState<B(!new), S(!new)> {
    const routes: seq<Route>
    var states: seq<seq<State<B>>>

    ghost predicate Valid()
      reads this
    {
      ValidRoutes(routes) && Fits(routes, states)
    }

    constructor (routes: seq<Route>, states: seq<seq<State<B>>>)
      requires ValidRoutes(routes) && Fits(routes, states)
      ensures Valid() && this.routes == routes && this.states == states
    {
      this.routes, this.states := routes, states;
    }

    method ExportProtectionSnapshot(save: B -> S) returns (records: seq<Record<S>>)
      requires Valid()
      ensures Exports(save, routes, states, records)
    {
      records := [];
      for r := 0 to |routes|
        invariant records == Rows(save, routes, states, r)
      {
        ghost var before := records;
        for e := 0 to |states[r]|
          invariant records == before + Row(save, routes[r], states[r], e)
        {
          records := records + [RecordOf(save, routes[r], routes[r].endpoints[e], states[r][e])];
        }
      }
      RowsExport(save, routes, states, |routes|);
    }

    method PrepareForMigration()
      requires Valid()
      modifies this`states
      ensures Valid()
      ensures forall r, e :: 0 <= r < |routes| && 0 <= e < |routes[r].endpoints| ==>
                states[r][e] == Baseline(routes[r], old(states)[r][e])
    {
      for r := 0 to |routes|
        invariant Valid()
        invariant forall q, e :: 0 <= q < |routes| && 0 <= e < |routes[q].endpoints| ==>
                    states[q][e] == if q < r then Baseline(routes[q], old(states)[q][e]) else old(states)[q][e]
      {
        var row := states[r];
        for e := 0 to |row|
          invariant |row| == |states[r]|
          invariant forall f :: 0 <= f < |row| ==>
                      row[f] == if f < e then Baseline(routes[r], states[r][f]) else states[r][f]
        {
          row := row[e := Baseline(routes[r], row[e])];
        }
        states := states[r := row];
      }
    }

    /** Where a record belongs, if anywhere. */
    method Find(record: Record<S>) returns (at: Option<(nat, nat)>)
      requires Valid()
      ensures at.Some? ==> var (r, e) := at.value;
                r < |routes| && e < |routes[r].endpoints| && Matches(record, routes[r], routes[r].endpoints[e])
      ensures at.None? ==> forall r, e :: 0 <= r < |routes| && 0 <= e < |routes[r].endpoints| ==>
                !Matches(record, routes[r], routes[r].endpoints[e])
    {
      for r := 0 to |routes|
        invariant forall q :: 0 <= q < r ==> !SameRoute(record, routes[q])
      {
        if !SameRoute(record, routes[r]) { continue; }
        for e := 0 to |routes[r].endpoints|
          invariant forall f :: 0 <= f < e ==> record.endpoint != routes[r].endpoints[f]
        {
          if record.endpoint == routes[r].endpoints[e] { return Some((r, e)); }
        }
        break;
      }
      return None;
    }

    /** Every endpoint ends as the records, in any order, say: see MigratesExactly. */
    method ImportProtectionSnapshot(records: seq<Record<S>>, adopt: (B, S) -> B)
      requires Valid()
      modifies this`states
      ensures Valid()
      ensures forall r, e :: 0 <= r < |routes| && 0 <= e < |routes[r].endpoints| ==>
                states[r][e]
                == After(adopt, routes[r], routes[r].endpoints[e], Baseline(routes[r], old(states)[r][e]), records)
    {
      PrepareForMigration();
      ghost var base := states;
      for k := 0 to |records|
        invariant Valid()
        invariant forall r, e :: 0 <= r < |routes| && 0 <= e < |routes[r].endpoints| ==>
                    states[r][e] == After(adopt, routes[r], routes[r].endpoints[e], base[r][e], records[..k])
      {
        assert records[..k + 1][..k] == records[..k];
        var at := Find(records[k]);
        if at.Some? {
          var (r, e) := at.value;
          forall q, f | 0 <= q < |routes| && 0 <= f < |routes[q].endpoints|
                        && Matches(records[k], routes[q], routes[q].endpoints[f])
            ensures q == r && f == e
          {
            OnlyOne(routes, records[k], r, e, q, f);
          }
          states := states[r := states[r][e := Adopted(adopt, routes[r], states[r][e], records[k])]];
        }
      }
      assert records[..|records|] == records;
    }
  }
}
