/** The transaction object: its callbacks refine the machine of module Transaction, so what holds of
    every run holds of the object. */
module ProxyTransactions {
  import opened Attempts
  import T = Transaction

  class ProxyTransaction {
    const policy: T.Policy
    var gatewayDown: bool
    var clientAlive: bool
    var finished: bool
    var committed: bool
    var headStatus: nat
    var retries: nat
    var slot: bool
    var generation: nat
    var queued: nat
    var attempt: T.Attempt
    ghost var history: T.History

    ghost function View(): T.Txn
      reads this
    {
      T.Txn(policy, gatewayDown, clientAlive, finished, committed, headStatus, retries, slot, generation, queued,
            attempt, history)
    }

    ghost predicate Valid()
      reads this
    {
      T.Inv(View())
    }

    constructor (policy: T.Policy, endpoint: nat, gatewayDown: bool, clientAlive: bool, start: T.Start)
      ensures Valid() && View() == T.Begin(policy, endpoint, gatewayDown, clientAlive, start)
    {
      T.KeepsBegin(policy, endpoint, gatewayDown, clientAlive, start);
      this.policy, this.gatewayDown, this.clientAlive := policy, gatewayDown, clientAlive;
      finished, committed, headStatus, retries, slot, generation, queued := false, false, 200, 0, true, 0, 0;
      attempt := T.Attempt(endpoint, false, false, false, false);
      history := T.History([], 0, 0, false, false);
      new;
      assert View() == T.Unstarted(policy, endpoint, gatewayDown, clientAlive);
      if gatewayDown {
        finished := true;
        return;
      }
      var started := StartUpstream(start);
      if !started { FinishNoEndpoint(); }
    }

    /** Publish the attempt's outcome, once. */
    method Account(success: bool)
      modifies this`attempt, this`history
      ensures View() == T.Account(old(View()), success)
    {
      if !attempt.link || attempt.accounted { return; }
      attempt := attempt.(accounted := true);
      history := history.(published := T.Publish(history.published, success));
    }

    method FinishNoEndpoint()
      requires !attempt.active
      modifies this`finished, this`generation, this`slot, this`history
      ensures View() == T.FinishNoEndpoint(old(View()))
    {
      assert attempt == attempt.(active := false);
      if finished { return; }
      finished, generation, slot := true, generation + 1, false;
      history := history.(completions := history.completions + 1);
      assert View() == T.Ended(old(View())).(generation := generation);
      if !clientAlive { return; }
      history := history.(offers := history.offers + 1);
    }

    method ReportFailure()
      modifies this`attempt, this`history
      ensures View() == T.Reported(old(View()))
    {
      if committed {
        Account(false);
        return;
      }
      if !clientAlive { return; }
      Account(false);
      history := history.(offers := history.offers + 1);
    }

    method FinishFailure()
      modifies this`finished, this`generation, this`slot, this`attempt, this`history
      ensures View() == T.FinishFailure(old(View()))
    {
      if finished { return; }
      finished, generation, slot := true, generation + 1, false;
      attempt := attempt.(active := false);
      history := history.(completions := history.completions + 1);
      assert View() == T.Ended(old(View())).(generation := generation);
      ReportFailure();
    }

    method FinishGatewayTimeout()
      modifies this`finished, this`generation, this`slot, this`attempt, this`history
      ensures View() == T.FinishGatewayTimeout(old(View()))
    {
      if finished { return; }
      finished, generation, slot := true, generation + 1, false;
      attempt := attempt.(active := false, outstanding := false);
      history := history.(completions := history.completions + 1);
      assert View() == T.Ended(T.NoResult(old(View()))).(generation := generation);
      ReportFailure();
    }

    method HandleClientAbort()
      modifies this`finished, this`generation, this`slot, this`attempt, this`history
      ensures View() == T.HandleClientAbort(old(View()))
    {
      if finished { return; }
      finished, generation, slot := true, generation + 1, false;
      attempt := attempt.(active := false, link := false);
      history := history.(completions := history.completions + 1, aborted := true);
    }

    /** The first configured endpoint that is not the current one. */
    method HasAlternative() returns (next: Option<nat>)
      ensures next == T.FirstOther(policy.retryEndpoints, attempt.endpoint)
      ensures next.None? <==> forall k :: 0 <= k < |policy.retryEndpoints| ==> policy.retryEndpoints[k] == attempt.endpoint
      ensures next.Some? ==>
                exists i :: 0 <= i < |policy.retryEndpoints| && next.value == policy.retryEndpoints[i] != attempt.endpoint
                  && forall k :: 0 <= k < i ==> policy.retryEndpoints[k] == attempt.endpoint
    {
      var i := 0;
      assert policy.retryEndpoints[0..] == policy.retryEndpoints;
      while i < |policy.retryEndpoints|
        invariant i <= |policy.retryEndpoints|
        invariant forall k :: 0 <= k < i ==> policy.retryEndpoints[k] == attempt.endpoint
        invariant T.FirstOther(policy.retryEndpoints, attempt.endpoint) == T.FirstOther(policy.retryEndpoints[i..], attempt.endpoint)
      {
        if policy.retryEndpoints[i] != attempt.endpoint { return Some(policy.retryEndpoints[i]); }
        assert policy.retryEndpoints[i..][1..] == policy.retryEndpoints[i + 1..];
        i := i + 1;
      }
      return None;
    }

    method RetryableFailure(r: T.Result) returns (retry: bool)
      ensures retry <==> T.RetryableFailure(View(), r)
    {
      var other := HasAlternative();
      return !committed && retries == 0 && policy.budget != 0 && policy.idempotent
        && (r == T.ConnectError || r == T.WriteError || r == T.ReadError || r == T.Eof)
        && (policy.provider || other.Some?);
    }

    method HandleUpstream(r: T.Result)
      modifies this`finished, this`generation, this`slot, this`attempt, this`history, this`queued
      ensures View() == T.HandleUpstream(old(View()), r)
    {
      if finished { return; }
      var retry := RetryableFailure(r);
      if retry {
        attempt := attempt.(active := false);
        if clientAlive { Account(false); }
        queued := queued + 1;
        return;
      }
      if !r.Success? {
        FinishFailure();
        return;
      }
      FinishSuccess(r.status);
    }

    method FinishSuccess(status: nat)
      modifies this`finished, this`slot, this`attempt, this`history
      ensures View() == T.FinishSuccess(old(View()), status)
    {
      finished, slot := true, false;
      attempt := attempt.(active := false);
      history := history.(completions := history.completions + 1);
      assert View() == T.Ended(old(View()));
      if !clientAlive { return; }
      if committed {
        Account(headStatus < 500);
        return;
      }
      Account(status < 500);
      history := history.(offers := history.offers + 1);
    }

    method StartUpstream(start: T.Start) returns (started: bool)
      modifies this`finished, this`generation, this`slot, this`attempt, this`history, this`queued
      ensures started <==> !T.Refused(old(View()), start)
      ensures View() == T.StartUpstream(old(View()), start)
    {
      if gatewayDown { return false; }
      if policy.provider && start.NoCandidate? {
        generation := generation + 1;
        attempt := attempt.(link := false);
        return false;
      }
      Install(start);
      if start.FailsAtOnce? {
        HandleUpstream(start.result);
      } else {
        attempt := attempt.(outstanding := true);
      }
      return true;
    }

    method Install(start: T.Start)
      requires !policy.provider || !start.NoCandidate?
      modifies this`generation, this`attempt, this`history
      ensures View() == T.Installed(old(View()), start)
    {
      generation := generation + 1;
      attempt := attempt.(link := false, accounted := false, active := policy.provider);
      if policy.provider {
        attempt := attempt.(endpoint := start.endpoint, link := start.link);
      }
      history := history.(published := history.published + [[]]);
    }

    method Redirect() returns (ok: bool)
      modifies this`attempt
      ensures ok <==> T.HasAlternative(policy, old(attempt.endpoint))
      ensures View() == T.Redirected(old(View()))
    {
      if policy.provider { return true; }
      var next := HasAlternative();
      if next.None? { return false; }
      attempt := attempt.(endpoint := next.value);
      return true;
    }

    method CountRetry(ghost before: T.Txn)
      modifies this`retries, this`history
      ensures View() == T.Retried(before, old(View()))
    {
      retries := retries + 1;
      history := history.(early := before.history.early || queued > before.queued);
    }

    method StartRetry(start: T.Start) returns (started: bool)
      modifies this`finished, this`generation, this`slot, this`attempt, this`history, this`queued, this`retries
      ensures started <==> T.RetryStarts(old(View()), start)
      ensures View() == T.AfterRetry(old(View()), start)
    {
      var possible := Redirect();
      if !possible { return false; }
      ghost var d := View();
      started := StartUpstream(start);
      if started { CountRetry(d); }
    }

    /** The closure queued for the end of the batch. */
    method RunQueued(start: T.Start)
      requires queued > 0
      modifies this`finished, this`generation, this`slot, this`attempt, this`history, this`queued, this`retries
      ensures View() == T.RunQueued(old(View()), start)
    {
      queued := queued - 1;
      if finished { return; }
      T.RunQueuedParts(old(View()), View(), start);
      var started := StartRetry(start);
      if !started { FinishFailure(); }
    }

    /** `begins`: the client connection takes the head. */
    method HandleResponseHead(status: nat, begins: bool)
      modifies this`finished, this`generation, this`slot, this`attempt, this`history, this`committed, this`headStatus
      ensures View() == T.HandleResponseHead(old(View()), status, begins)
    {
      if finished || gatewayDown { return; }
      committed, headStatus := true, status;
      if !clientAlive || !begins {
        HandleClientAbort();
        return;
      }
      history := history.(offers := history.offers + 1);
    }

    method HandleResponseBody(writes: bool) returns (accepted: bool)
      modifies this`finished, this`generation, this`slot, this`attempt, this`history
      ensures View() == T.HandleResponseBody(old(View()), writes)
      ensures accepted <==> writes && !old(finished) && !old(gatewayDown)
    {
      if finished || gatewayDown { return false; }
      if !writes {
        HandleClientAbort();
        return false;
      }
      return true;
    }

    method HandleDeadline(g: nat)
      modifies this`finished, this`generation, this`slot, this`attempt, this`history
      ensures View() == T.Apply(old(View()), T.AttemptDeadline(g))
    {
      if finished || g != generation { return; }
      FinishGatewayTimeout();
    }

    /** One callback of the event loop: a result, head or chunk of the current attempt, a queued retry, a
        deadline, or the end of client or gateway. */
    method Handle(e: T.Event)
      requires Valid() && T.Enabled(View(), e)
      modifies this
      ensures Valid() && View() == T.Apply(old(View()), e)
      ensures T.Calm(old(View()), View())
    {
      T.EventCalm(View(), e);
      match e
      case UpstreamResult(result) => OnResult(result);
      case ResponseHead(status, begins) => HandleResponseHead(status, begins);
      case ResponseBody(writes) => var accepted := HandleResponseBody(writes);
      case RunRetry(start) => RunQueued(start);
      case AttemptDeadline(g) => HandleDeadline(g);
      case TotalDeadline => FinishGatewayTimeout();
      case ClientAbort => HandleClientAbort();
      case ClientDestroyed => clientAlive := false;
      case GatewayStops => gatewayDown := true;
    }

    /** An attempt reports its one result. */
    method OnResult(r: T.Result)
      modifies this`finished, this`generation, this`slot, this`attempt, this`history, this`queued
      ensures View() == T.HandleUpstream(T.NoResult(old(View())), r)
    {
      attempt := attempt.(outstanding := false);
      HandleUpstream(r);
    }

    /** Any sequence of callbacks, leaving out those that cannot come: the transaction ends at most once
        and offers at most one response, every attempt publishes at most one outcome, and a finished
        transaction stays as it is. */
    method Drive(events: seq<T.Event>) returns (ghost taken: seq<T.Event>)
      requires Valid()
      modifies this
      ensures Valid() && T.Runs(old(View()), taken, View())
      ensures history.offers <= 1 && history.completions <= 1 && T.PublishedOnce(history.published)
      ensures old(finished) ==> T.Seen(View()) == old(T.Seen(View()))
      ensures finished && !slot && clientAlive && !history.aborted ==> history.offers == 1
    {
      taken := [];
      for k := 0 to |events|
        invariant Valid() && T.Runs(old(View()), taken, View())
      {
        if Comes(events[k]) {
          T.Extend(old(View()), taken, View(), events[k]);
          taken := taken + [events[k]];
          Handle(events[k]);
        }
      }
      if old(finished) { T.FinishedIsInert(old(View()), taken, View()); }
    }

    /** Whether the callback can come now. */
    predicate Comes(e: T.Event)
      reads this
      ensures Comes(e) <==> T.Enabled(View(), e)
    {
      match e
      case UpstreamResult(_) => attempt.outstanding
      case ResponseHead(_, _) => attempt.outstanding && !committed
      case ResponseBody(_) => attempt.outstanding && committed
      case RunRetry(_) => queued > 0
      case _ => true
    }
  }
}
