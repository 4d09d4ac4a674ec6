/** One proxied request: attempts, the single retry, terminal outcomes and their accounting.  What the
    environment decides (endpoint choices, upstream results, deadlines, client aborts) arrives as
    events. */
module Transaction {
  import opened Attempts

  datatype Policy = Policy(budget: nat, idempotent: bool, provider: bool, retryEndpoints: seq<nat>)

  datatype Result = Success(status: nat) | ConnectError | WriteError | ReadError | Eof | ProtocolError | Unsupported

  /** What starting an attempt leads to: no candidate (with a provider), a connection under way, or a
      failure reported inside the start call. */
  datatype Start = NoCandidate | Connecting(endpoint: nat, link: bool) | FailsAtOnce(endpoint: nat, link: bool, result: Result)

  datatype Event =
    | UpstreamResult(result: Result)
    | ResponseHead(status: nat, begins: bool)
    | ResponseBody(writes: bool)
    | RunRetry(start: Start)
    | AttemptDeadline(generation: nat)
    | TotalDeadline
    | ClientAbort
    | ClientDestroyed
    | GatewayStops

  /** The current attempt: its endpoint, whether it holds an outcome reservation and has published
      it, whether it holds an active slot, and whether its result callback is still to come. */
  datatype Attempt = Attempt(endpoint: nat, link: bool, accounted: bool, active: bool, outstanding: bool)

  /** What has happened: per attempt the outcomes published, the responses or heads handed to the
      client, the completed request metrics, whether a retry failed inside its own start call with a
      retryable failure, and whether the client aborted. */
  datatype History = History(published: seq<seq<bool>>, offers: nat, completions: nat, early: bool, aborted: bool)

  datatype Txn = Txn(
    policy: Policy,
    gatewayDown: bool,
    clientAlive: bool,
    finished: bool,
    committed: bool,
    headStatus: nat,
    retries: nat,
    slot: bool,          // the request holds its admission slot
    generation: nat,
    queued: nat,         // retries waiting for the end of the batch
    attempt: Attempt,
    history: History)

  function One(b: bool): nat { if b then 1 else 0 }

  // ---------------------------------------------------------------- terminal paths

  function Account(s: Txn, success: bool): Txn {
    if !s.attempt.link || s.attempt.accounted then s 
    else
      s.(attempt := s.attempt.(accounted := true),
         history := s.history.(published := Publish(s.history.published, success)))
  }

  /** The current attempt is the last one. */
  function Publish(published: seq<seq<bool>>, success: bool): seq<seq<bool>> {
    if published == [] then []
    else var last := |published| - 1; published[last := published[last] + [success]]
  }

  function Offer(s: Txn): Txn { s.(history := s.history.(offers := s.history.offers + 1)) }

  function NoResult(s: Txn): Txn { s.(attempt := s.attempt.(outstanding := false)) }

  function Awaiting(s: Txn): Txn { s.(attempt := s.attempt.(outstanding := true)) }

  function Ended(s: Txn): Txn {
    s.(finished := true, slot := false, attempt := s.attempt.(active := false),
       history := s.history.(completions := s.history.completions + 1))
  }

  function FinishFailure(s: Txn): Txn {
    if s.finished then s else Reported(Ended(s).(generation := s.generation + 1))
  }

  /** A committed response can only be cut off; otherwise a living client gets an error response. */
  function Reported(t: Txn): Txn {
    if t.committed then Account(t, false)
    else if !t.clientAlive then t
    else Offer(Account(t, false))
  }

  function FinishGatewayTimeout(s: Txn): Txn {
    if s.finished then s else FinishFailure(NoResult(s))
  }

  function FinishNoEndpoint(s: Txn): Txn {
    if s.finished then s
    else
      var t := Ended(s).(generation := s.generation + 1);
      if s.clientAlive then Offer(t) else t
  }

  function HandleClientAbort(s: Txn): Txn {
    if s.finished then s
    else
      var t := Ended(s).(generation := s.generation + 1);
      t.(attempt := t.attempt.(link := false), history := t.history.(aborted := true))
  }

  // ---------------------------------------------------------------- attempts

  function FirstOther(endpoints: seq<nat>, endpoint: nat): Option<nat> {
    if endpoints == [] then None
    else if endpoints[0] != endpoint then Some(endpoints[0])
    else FirstOther(endpoints[1..], endpoint)
  }

  /** A provider chooses at run time; without one the configured alternatives apply. */
  predicate HasAlternative(p: Policy, endpoint: nat) {
    p.provider || FirstOther(p.retryEndpoints, endpoint).Some?
  }

  predicate ConnectionFailure(r: Result) { r == ConnectError || r == WriteError || r == ReadError || r == Eof }

  predicate RetryableFailure(s: Txn, r: Result) {
    && !s.committed && s.retries == 0 && s.policy.budget != 0 && s.policy.idempotent && ConnectionFailure(r)
    && HasAlternative(s.policy, s.attempt.endpoint)
  }

  function HandleUpstream(s: Txn, r: Result): Txn {
    if s.finished then s
    else if RetryableFailure(s, r) then
      var t := s.(attempt := s.attempt.(active := false));
      (if s.clientAlive then Account(t, false) else t).(queued := s.queued + 1)
    else if !r.Success? then FinishFailure(s)
    else FinishSuccess(s, r.status)
  }

  /** A committed response is closed; an uncommitted one is sent. */
  function FinishSuccess(s: Txn, status: nat): Txn {
    var t := Ended(s);
    if !s.clientAlive then t
    else if s.committed then Account(t, s.headStatus < 500)
    else Offer(Account(t, status < 500))
  }

  /** No attempt can be started. */
  predicate Refused(s: Txn, start: Start) { s.gatewayDown || (s.policy.provider && start.NoCandidate?) }

  /** The attempt as installed, before it connects. */
  function Installed(s: Txn, start: Start): Txn {
    var chosen := s.policy.provider && !start.NoCandidate?;
    s.(generation := s.generation + 1,
       attempt := Attempt(if chosen then start.endpoint else s.attempt.endpoint, chosen && start.link, false,
                          s.policy.provider, s.attempt.outstanding),
       history := s.history.(published := s.history.published + [[]]))
  }

  /** Install the chosen endpoint and connect. */
  function StartUpstream(s: Txn, start: Start): Txn {
    if s.gatewayDown then s
    else if Refused(s, start) then
      s.(generation := s.generation + 1, attempt := s.attempt.(link := false))
    else if start.FailsAtOnce? then HandleUpstream(Installed(s, start), start.result)
    else Awaiting(Installed(s, start))
  }

  /** Without a provider a retry goes to the first other configured endpoint. */
  function Redirected(s: Txn): Txn {
    var next := FirstOther(s.policy.retryEndpoints, s.attempt.endpoint);
    if s.policy.provider || next.None? then s else s.(attempt := s.attempt.(endpoint := next.value))
  }

  /** The transaction as its queued retry starts. */
  function Dequeued(s: Txn): Txn
    requires s.queued > 0
  {
    Redirected(s.(queued := s.queued - 1))
  }

  /** The retry counter is raised only after the start call returns. */
  function Retried(d: Txn, u: Txn): Txn {
    u.(retries := u.retries + 1, history := u.history.(early := d.history.early || u.queued > d.queued))
  }

  predicate RetryStarts(s: Txn, start: Start) {
    HasAlternative(s.policy, s.attempt.endpoint) && !Refused(s, start)
  }

  function AfterRetry(s: Txn, start: Start): Txn {
    var d := Redirected(s);
    if !HasAlternative(s.policy, s.attempt.endpoint) then s
    else if Refused(s, start) then StartUpstream(d, start)
    else Retried(d, StartUpstream(d, start))
  }

  function RunQueued(s: Txn, start: Start): Txn
    requires s.queued > 0
  {
    var d := s.(queued := s.queued - 1);
    if s.finished then d
    else if RetryStarts(d, start) then AfterRetry(d, start)
    else FinishFailure(AfterRetry(d, start))
  }

  lemma RunQueuedParts(s: Txn, d: Txn, start: Start)
    requires s.queued > 0 && !s.finished && d == s.(queued := s.queued - 1)
    ensures RunQueued(s, start)
            == if RetryStarts(d, start) then AfterRetry(d, start) else FinishFailure(AfterRetry(d, start))
  {
  }

  function HandleResponseHead(s: Txn, status: nat, begins: bool): Txn {
    if s.finished || s.gatewayDown then s
    else
      var t := s.(committed := true, headStatus := status);
      if !s.clientAlive || !begins then HandleClientAbort(t) else Offer(t)
  }

  function HandleResponseBody(s: Txn, writes: bool): Txn {
    if s.finished || s.gatewayDown || writes then s else HandleClientAbort(s)
  }

  // ---------------------------------------------------------------- runs

  function Unstarted(policy: Policy, endpoint: nat, gatewayDown: bool, clientAlive: bool): Txn {
    Txn(policy, gatewayDown, clientAlive, false, false, 200, 0, true, 0, 0,
        Attempt(endpoint, false, false, false, false), History([], 0, 0, false, false))
  }

  function Begin(policy: Policy, endpoint: nat, gatewayDown: bool, clientAlive: bool, start: Start): Txn {
    var s := Unstarted(policy, endpoint, gatewayDown, clientAlive);
    if gatewayDown then s.(finished := true)
    else
      var t := StartUpstream(s, start);
      if Refused(s, start) then FinishNoEndpoint(t) else t
  }

  /** A connection reports its head once, before its one result. */
  predicate Enabled(s: Txn, e: Event) {
    match e
    case UpstreamResult(_) => s.attempt.outstanding
    case ResponseHead(_, _) => s.attempt.outstanding && !s.committed
    case ResponseBody(_) => s.attempt.outstanding && s.committed
    case RunRetry(_) => s.queued > 0
    case _ => true
  }

  function Apply(s: Txn, e: Event): Txn
    requires Enabled(s, e)
  {
    match e
    case UpstreamResult(result) => HandleUpstream(NoResult(s), result)
    case ResponseHead(status, begins) => HandleResponseHead(s, status, begins)
    case ResponseBody(writes) => HandleResponseBody(s, writes)
    case RunRetry(start) => RunQueued(s, start)
    case AttemptDeadline(generation) => if generation == s.generation then FinishGatewayTimeout(s) else s
    case TotalDeadline => FinishGatewayTimeout(s)
    case ClientAbort => HandleClientAbort(s)
    case ClientDestroyed => s.(clientAlive := false)
    case GatewayStops => s.(gatewayDown := true)
  }

  ghost predicate Runs(s: Txn, events: seq<Event>, s': Txn)
    decreases |events|
  {
    if events == [] then s == s' else Enabled(s, events[0]) && Runs(Apply(s, events[0]), events[1..], s')
  }

  // ---------------------------------------------------------------- the invariant

  ghost predicate PublishedOnce(published: seq<seq<bool>>) {
    forall i :: 0 <= i < |published| ==> |published[i]| <= 1
  }

  /** At most one outcome per attempt, none yet for the current one unless it is marked. */
  ghost predicate AccountingOk(published: seq<seq<bool>>, accounted: bool) {
    && PublishedOnce(published)
    && (published != [] && !accounted ==> published[|published| - 1] == [])
  }

  /** How many attempts there can have been. */
  ghost predicate AttemptsOk(s: Txn) {
    && s.queued + One(s.attempt.outstanding) <= 1
    && |s.history.published| <= 1 + s.retries
    && (!s.finished ==> |s.history.published| == 1 + s.retries && s.queued + One(s.attempt.outstanding) == 1)
    && (s.history.early ==> s.retries >= 1)
    && (s.retries > 0 || (!s.finished && s.queued > 0) ==> s.policy.budget > 0)
    && s.retries <= 1 + One(s.history.early)
    && (!s.finished && s.queued > 0 ==> s.retries == One(s.history.early))
  }

  /** One terminal path: one completion, resources returned, at most one response offered. */
  ghost predicate TerminalOk(s: Txn) {
    && (!s.finished ==> s.slot && s.history.completions == 0 && s.history.offers == One(s.committed))
    && (s.finished ==> s.history.completions <= 1 && s.history.offers <= 1 && !s.attempt.active)
    && (s.finished && s.slot ==> s.gatewayDown && s.history.published == [])
    && (s.finished ==> s.history.completions == One(!s.slot))
    && (s.finished && !s.slot && s.clientAlive && !s.history.aborted ==> s.history.offers == 1)
    && (!s.finished && s.queued > 0 ==> !s.attempt.active && !s.committed)
  }

  ghost predicate Inv(s: Txn) { AccountingOk(s.history.published, s.attempt.accounted) && AttemptsOk(s) && TerminalOk(s) }

  predicate SameButPublished(s: Txn, t: Txn) {
    t == s.(attempt := s.attempt.(accounted := t.attempt.accounted),
            history := s.history.(published := t.history.published))
  }

  lemma AccountKeeps(s: Txn, success: bool)
    requires AccountingOk(s.history.published, s.attempt.accounted)
    ensures var t := Account(s, success);
            && AccountingOk(t.history.published, t.attempt.accounted) && |t.history.published| == |s.history.published|
            && SameButPublished(s, t)
  {
    if s.attempt.link && !s.attempt.accounted { PublishOne(s.history.published, success); }
  }

  lemma PublishOne(published: seq<seq<bool>>, success: bool)
    requires AccountingOk(published, false)
    ensures PublishedOnce(Publish(published, success)) && |Publish(published, success)| == |published|
  {
  }

  /** What ending a transaction leaves: everything released, at most one more response offered. */
  ghost predicate EndOf(s: Txn, t: Txn) {
    && AccountingOk(t.history.published, t.attempt.accounted) && |t.history.published| == |s.history.published|
    && t.finished && !t.slot && !t.attempt.active && t.history.completions == s.history.completions + 1
    && t.policy == s.policy && t.retries == s.retries && t.history.early == s.history.early
    && t.attempt.outstanding == s.attempt.outstanding && t.queued == s.queued && t.committed == s.committed
    && t.clientAlive == s.clientAlive && t.history.aborted == s.history.aborted
    && t.history.offers == s.history.offers + One(s.clientAlive && !s.committed)
  }

  lemma FailureKeeps(s: Txn)
    requires AccountingOk(s.history.published, s.attempt.accounted) && !s.finished
    ensures EndOf(s, FinishFailure(s))
  {
    var t := Ended(s).(generation := s.generation + 1);
    AccountKeeps(t, false);
  }

  lemma SuccessKeeps(s: Txn, r: Result)
    requires AccountingOk(s.history.published, s.attempt.accounted) && !s.finished && r.Success?
    ensures EndOf(s, HandleUpstream(s, r))
  {
    var t := Ended(s);
    AccountKeeps(t, if s.committed then s.headStatus < 500 else r.status < 500);
  }

  lemma RetryQueued(s: Txn, r: Result)
    requires AccountingOk(s.history.published, s.attempt.accounted) && !s.finished && RetryableFailure(s, r)
    ensures var t := HandleUpstream(s, r);
            && AccountingOk(t.history.published, t.attempt.accounted) && |t.history.published| == |s.history.published|
            && SameButPublished(s.(attempt := s.attempt.(active := false), queued := s.queued + 1), t)
  {
    AccountKeeps(s.(attempt := s.attempt.(active := false)), false);
  }

  /** A result ends the transaction or queues the one retry. */
  lemma UpstreamKeeps(s: Txn, r: Result)
    requires AccountingOk(s.history.published, s.attempt.accounted) && !s.finished
    ensures !RetryableFailure(s, r) ==> EndOf(s, HandleUpstream(s, r))
  {
    if !RetryableFailure(s, r) {
      if r.Success? { SuccessKeeps(s, r); } else { FailureKeeps(s); }
    }
  }

  lemma KeepsResult(s: Txn, r: Result)
    requires Inv(s) && s.attempt.outstanding
    ensures Inv(HandleUpstream(NoResult(s), r))
  {
    var t := NoResult(s);
    if !s.finished {
      UpstreamKeeps(t, r);
      if RetryableFailure(t, r) { RetryQueued(t, r); }
    }
  }

  lemma KeepsTimeout(s: Txn)
    requires Inv(s)
    ensures Inv(FinishGatewayTimeout(s))
  {
    if !s.finished { FailureKeeps(NoResult(s)); }
  }

  /** A started attempt, first or retry: ended, queued again, or under way. */
  lemma StartedKeeps(s: Txn, start: Start)
    requires AccountingOk(s.history.published, s.attempt.accounted) && !s.finished && !Refused(s, start)
    ensures var u, t := Installed(s, start), StartUpstream(s, start);
            || EndOf(u, t)
            || (AccountingOk(u.history.published, u.attempt.accounted) && t == Awaiting(u))
            || (&& !s.committed && s.retries == 0 && s.policy.budget != 0
                && AccountingOk(t.history.published, t.attempt.accounted) && |t.history.published| == |u.history.published|
                && SameButPublished(u.(attempt := u.attempt.(active := false), queued := s.queued + 1), t))
  {
    var u := Installed(s, start);
    assert AccountingOk(u.history.published, u.attempt.accounted);
    if start.FailsAtOnce? {
      UpstreamKeeps(u, start.result);
      if RetryableFailure(u, start.result) { RetryQueued(u, start.result); }
    }
  }

  lemma KeepsStartedRetry(s: Txn, d: Txn, start: Start)
    requires Inv(s) && s.queued > 0 && !s.finished && d == s.(queued := s.queued - 1, attempt := s.attempt.(endpoint := d.attempt.endpoint))
    requires !Refused(d, start)
    ensures Inv(Retried(d, StartUpstream(d, start)))
  {
    StartedKeeps(d, start);
  }

  lemma KeepsFailedRetry(s: Txn, d: Txn)
    requires Inv(s) && s.queued > 0 && !s.finished
    requires d == s.(queued := s.queued - 1, generation := d.generation,
                     attempt := s.attempt.(endpoint := d.attempt.endpoint, link := d.attempt.link))
    ensures Inv(FinishFailure(d))
  {
    FailureKeeps(d);
  }

  /** A retry that finds the transaction finished only leaves the queue. */
  lemma KeepsDequeued(s: Txn)
    requires Inv(s) && s.queued > 0 && s.finished
    ensures Inv(s.(queued := s.queued - 1))
  {
  }

  lemma RunQueuedIs(s: Txn, start: Start)
    requires s.queued > 0 && !s.finished
    ensures RetryStarts(s, start) ==> RunQueued(s, start) == Retried(Dequeued(s), StartUpstream(Dequeued(s), start))
    ensures !RetryStarts(s, start) ==>
              var f := AfterRetry(s.(queued := s.queued - 1), start);
              && RunQueued(s, start) == FinishFailure(f)
              && f == s.(queued := s.queued - 1, generation := f.generation,
                         attempt := s.attempt.(endpoint := f.attempt.endpoint, link := f.attempt.link))
  {
  }

  lemma KeepsRetry(s: Txn, start: Start)
    requires Inv(s) && s.queued > 0
    ensures Inv(RunQueued(s, start))
  {
    if s.finished {
      KeepsDequeued(s);
    } else if RetryStarts(s, start) {
      KeepsRetryStarted(s, start);
    } else {
      KeepsRetryFailed(s, start);
    }
  }

  lemma KeepsRetryStarted(s: Txn, start: Start)
    requires Inv(s) && s.queued > 0 && !s.finished && RetryStarts(s, start)
    ensures Inv(RunQueued(s, start))
  {
    RunQueuedIs(s, start);
    KeepsStartedRetry(s, Dequeued(s), start);
  }

  lemma KeepsRetryFailed(s: Txn, start: Start)
    requires Inv(s) && s.queued > 0 && !s.finished && !RetryStarts(s, start)
    ensures Inv(RunQueued(s, start))
  {
    RunQueuedIs(s, start);
    KeepsFailedRetry(s, AfterRetry(s.(queued := s.queued - 1), start));
  }

  lemma KeepsBegin(policy: Policy, endpoint: nat, gatewayDown: bool, clientAlive: bool, start: Start)
    ensures Inv(Begin(policy, endpoint, gatewayDown, clientAlive, start))
  {
    if !gatewayDown {
      var s := Unstarted(policy, endpoint, gatewayDown, clientAlive);
      if !Refused(s, start) { StartedKeeps(s, start); }
    }
  }

  lemma KeepsAbort(s: Txn)
    requires Inv(s) || (Inv(s.(committed := false)) && !s.finished && s.attempt.outstanding && s.history.offers == 0)
    ensures Inv(HandleClientAbort(s))
  {
  }

  lemma KeepsHead(s: Txn, status: nat, begins: bool)
    requires Inv(s) && s.attempt.outstanding && !s.committed
    ensures Inv(HandleResponseHead(s, status, begins))
  {
    if !s.finished && !s.gatewayDown && (!s.clientAlive || !begins) {
      assert Inv(s.(headStatus := status));
      KeepsAbort(s.(committed := true, headStatus := status));
    }
  }

  lemma StepKeeps(s: Txn, e: Event)
    requires Inv(s) && Enabled(s, e)
    ensures Inv(Apply(s, e))
  {
    match e
    case UpstreamResult(result) => KeepsResult(s, result);
    case ResponseHead(status, begins) => KeepsHead(s, status, begins);
    case ResponseBody(writes) => KeepsAbort(s);
    case RunRetry(start) => KeepsRetry(s, start);
    case AttemptDeadline(generation) => KeepsTimeout(s);
    case TotalDeadline => KeepsTimeout(s);
    case ClientAbort => KeepsAbort(s);
    case ClientDestroyed =>
    case GatewayStops =>
  }

  lemma {:induction false} RunKeeps(s: Txn, events: seq<Event>, s': Txn)
    requires Inv(s) && Runs(s, events, s')
    ensures Inv(s')
    decreases |events|
  {
    if events != [] {
      StepKeeps(s, events[0]);
      RunKeeps(Apply(s, events[0]), events[1..], s');
    }
  }

  // ---------------------------------------------------------------- what every run keeps

  /** What the outside world sees of a transaction. */
  datatype Visible = Visible(
    published: seq<seq<bool>>, offers: nat, completions: nat, committed: bool, active: bool, slot: bool, retries: nat)

  function Seen(s: Txn): Visible {
    Visible(s.history.published, s.history.offers, s.history.completions, s.committed, s.attempt.active, s.slot, s.retries)
  }

  lemma FinishedStep(s: Txn, e: Event)
    requires s.finished && Enabled(s, e)
    ensures Apply(s, e).finished && Seen(Apply(s, e)) == Seen(s)
  {
    match e
    case RunRetry(start) => assert Apply(s, e) == s.(queued := s.queued - 1);
    case _ =>
  }

  /** A finished transaction ignores every event. */
  lemma {:induction false} FinishedIsInert(s: Txn, events: seq<Event>, s': Txn)
    requires s.finished && Runs(s, events, s')
    ensures s'.finished && Seen(s') == Seen(s)
    decreases |events|
  {
    if events != [] {
      FinishedStep(s, events[0]);
      FinishedIsInert(Apply(s, events[0]), events[1..], s');
    }
  }

  lemma CommittedStep(s: Txn, e: Event)
    requires Inv(s) && s.committed && Enabled(s, e)
    ensures var t := Apply(s, e); |t.history.published| == |s.history.published| && t.history.offers == s.history.offers && t.committed
  {
    if s.finished {
      FinishedStep(s, e);
    } else {
      assert s.queued == 0;
      var t := NoResult(s);
      FailureKeeps(t);
      if e.UpstreamResult? { UpstreamKeeps(t, e.result); }
    }
  }

  /** Once the head is committed no further attempt is made and nothing else is offered. */
  lemma {:induction false} NoRetryAfterCommit(s: Txn, events: seq<Event>, s': Txn)
    requires Inv(s) && s.committed && Runs(s, events, s')
    ensures |s'.history.published| == |s.history.published| && s'.history.offers == s.history.offers && s'.committed
    decreases |events|
  {
    if events != [] {
      StepKeeps(s, events[0]);
      CommittedStep(s, events[0]);
      NoRetryAfterCommit(Apply(s, events[0]), events[1..], s');
    }
  }

  /** What any one event leaves alone: all of a finished transaction, and the attempts and the offer of
      a committed one. */
  ghost predicate Calm(s: Txn, t: Txn) {
    && (s.finished ==> t.finished && Seen(t) == Seen(s))
    && (s.committed ==> t.committed && |t.history.published| == |s.history.published| && t.history.offers == s.history.offers)
    && PublishedOnce(t.history.published) && t.history.offers <= 1 && t.history.completions <= 1
  }

  lemma EventCalm(s: Txn, e: Event)
    requires Inv(s) && Enabled(s, e)
    ensures Inv(Apply(s, e)) && Calm(s, Apply(s, e))
  {
    StepKeeps(s, e);
    if s.finished { FinishedStep(s, e); }
    if s.committed { CommittedStep(s, e); }
  }

  lemma {:induction false} Extend(s: Txn, events: seq<Event>, m: Txn, e: Event)
    requires Runs(s, events, m) && Enabled(m, e)
    ensures Runs(s, events + [e], Apply(m, e))
    decreases |events|
  {
    if events == [] {
      assert Runs(Apply(m, e), [], Apply(m, e));
    } else {
      Extend(Apply(s, events[0]), events[1..], m, e);
      assert (events + [e])[1..] == events[1..] + [e];
    }
  }

  /** Every run: at most one outcome per attempt, at most one response offered, at most one
      completion, resources held exactly while running, and, while unfinished, exactly one attempt in
      flight or one retry queued.  A client that stays and does not abort gets exactly one response,
      unless the gateway was down from the start. */
  lemma EveryRun(policy: Policy, endpoint: nat, gatewayDown: bool, clientAlive: bool, start: Start,
                 events: seq<Event>, s: Txn)
    requires Runs(Begin(policy, endpoint, gatewayDown, clientAlive, start), events, s)
    ensures PublishedOnce(s.history.published) && s.history.offers <= 1 && s.history.completions <= 1
    ensures !s.finished ==> s.slot && s.history.completions == 0 && s.queued + One(s.attempt.outstanding) == 1
    ensures s.finished ==> !s.attempt.active && s.history.completions == One(!s.slot) && (s.slot ==> s.history.published == [])
    ensures s.finished && !s.slot && s.clientAlive && !s.history.aborted ==> s.history.offers == 1
  {
    KeepsBegin(policy, endpoint, gatewayDown, clientAlive, start);
    RunKeeps(Begin(policy, endpoint, gatewayDown, clientAlive, start), events, s);
  }

  /** Whether a result is published at all: never to a breaker that is not linked or already has it,
      and not once the client is gone, unless the response was already committed and cut off. */
  predicate Reports(s: Txn, r: Result) {
    s.attempt.link && !s.attempt.accounted && (s.clientAlive || (s.committed && !r.Success?))
  }

  /** A healthy answer: a response below 500, judged by the committed head if there is one. */
  predicate HealthyAnswer(s: Txn, r: Result) {
    r.Success? && (if s.committed then s.headStatus else r.status) < 500
  }

  lemma AccountPublishes(s: Txn, success: bool)
    ensures Account(s, success).history.published
            == if s.attempt.link && !s.attempt.accounted then Publish(s.history.published, success)
               else s.history.published
  {
  }

  lemma FailurePublishes(s: Txn)
    requires !s.finished
    ensures FinishFailure(s).history.published
            == if s.attempt.link && !s.attempt.accounted && (s.committed || s.clientAlive)
               then Publish(s.history.published, false) else s.history.published
  {
    AccountPublishes(Ended(s).(generation := s.generation + 1), false);
  }

  lemma SuccessPublishes(s: Txn, status: nat)
    ensures FinishSuccess(s, status).history.published
            == if s.attempt.link && !s.attempt.accounted && s.clientAlive
               then Publish(s.history.published, (if s.committed then s.headStatus else status) < 500)
               else s.history.published
  {
    AccountPublishes(Ended(s), (if s.committed then s.headStatus else status) < 500);
  }

  lemma RetryPublishes(s: Txn, r: Result)
    requires !s.finished && RetryableFailure(s, r)
    ensures HandleUpstream(s, r).history.published
            == if s.attempt.link && !s.attempt.accounted && s.clientAlive
               then Publish(s.history.published, false) else s.history.published
  {
    AccountPublishes(s.(attempt := s.attempt.(active := false)), false);
  }

  lemma PublishIs(published: seq<seq<bool>>, success: bool)
    requires published != [] && published[|published| - 1] == []
    ensures Publish(published, success) == published[|published| - 1 := [success]]
  {
    assert published[|published| - 1] + [success] == [success];
  }

  /** What the breaker is told about the current attempt, on every path a result can take. */
  lemma OutcomeOf(s: Txn, r: Result)
    requires AccountingOk(s.history.published, s.attempt.accounted) && !s.finished && s.history.published != []
    ensures HandleUpstream(s, r).history.published
            == if Reports(s, r) then s.history.published[|s.history.published| - 1 := [HealthyAnswer(s, r)]]
               else s.history.published
  {
    if Reports(s, r) { PublishIs(s.history.published, HealthyAnswer(s, r)); }
    if RetryableFailure(s, r) {
      RetryPublishes(s, r);
    } else if r.Success? {
      SuccessPublishes(s, r.status);
    } else {
      FailurePublishes(s);
    }
  }

  // ---------------------------------------------------------------- how many attempts

  /** The first attempt and, with a budget, the one retry the rule lets through. */
  function Allowed(policy: Policy): nat { if policy.budget > 0 then 2 else 1 }

  /** The policy lets a retry that fails inside its own start call be followed by another. */
  predicate CanOverrun(policy: Policy, endpoint: nat) {
    && policy.budget > 0 && policy.idempotent
    && (policy.provider
        || var next := FirstOther(policy.retryEndpoints, endpoint);
           next.Some? && FirstOther(policy.retryEndpoints, next.value).Some?)
  }

  /** What the run remembers of its policy and first endpoint. */
  predicate Origin(s: Txn, policy: Policy, endpoint: nat) {
    && s.policy == policy
    && (!s.finished && s.retries == 0 && !policy.provider ==> s.attempt.endpoint == endpoint)
    && (s.history.early ==> CanOverrun(policy, endpoint))
  }

  lemma OriginRetry(s: Txn, start: Start, policy: Policy, endpoint: nat)
    requires Inv(s) && Origin(s, policy, endpoint) && s.queued > 0 && !s.finished
    ensures Origin(RunQueued(s, start), policy, endpoint)
  {
    var d := Dequeued(s);
    if HasAlternative(s.policy, s.attempt.endpoint) && !Refused(d, start) {
      OriginStarted(s, d, start, policy, endpoint);
    } else {
      var f := if HasAlternative(s.policy, s.attempt.endpoint) then StartUpstream(d, start) else d;
      FailureKeeps(f);
      assert RunQueued(s, start) == FinishFailure(f);
    }
  }

  lemma OriginStarted(s: Txn, d: Txn, start: Start, policy: Policy, endpoint: nat)
    requires Inv(s) && Origin(s, policy, endpoint) && s.queued > 0 && !s.finished && d == Dequeued(s)
    requires HasAlternative(s.policy, s.attempt.endpoint) && !Refused(d, start)
    ensures Origin(Retried(d, StartUpstream(d, start)), policy, endpoint)
  {
    var u := Installed(d, start);
    assert AccountingOk(u.history.published, u.attempt.accounted);
    assert u.retries == 0 && !policy.provider ==> Some(u.attempt.endpoint) == FirstOther(policy.retryEndpoints, endpoint);
    if start.FailsAtOnce? {
      UpstreamKeeps(u, start.result);
      if RetryableFailure(u, start.result) {
        RetryQueued(u, start.result);
        assert CanOverrun(policy, endpoint);
      }
    }
  }

  lemma OriginResult(s: Txn, r: Result, policy: Policy, endpoint: nat)
    requires AccountingOk(s.history.published, s.attempt.accounted) && Origin(s, policy, endpoint) && !s.finished
    ensures Origin(HandleUpstream(s, r), policy, endpoint)
  {
    UpstreamKeeps(s, r);
    if RetryableFailure(s, r) { RetryQueued(s, r); }
  }

  lemma OriginStep(s: Txn, e: Event, policy: Policy, endpoint: nat)
    requires Inv(s) && Origin(s, policy, endpoint) && Enabled(s, e)
    ensures Origin(Apply(s, e), policy, endpoint)
  {
    if e.RunRetry? && !s.finished {
      OriginRetry(s, e.start, policy, endpoint);
    } else if e.UpstreamResult? && !s.finished {
      OriginResult(NoResult(s), e.result, policy, endpoint);
    } else {
      OriginOther(s, e);
    }
  }

  /** Policy, retries and, while running, the endpoint stay as they are. */
  predicate SameCourse(s: Txn, t: Txn) {
    && t.policy == s.policy && t.history.early == s.history.early && (s.finished ==> t.finished)
    && (!t.finished ==> t.retries == s.retries && t.attempt.endpoint == s.attempt.endpoint)
  }

  lemma TimeoutCourse(s: Txn)
    requires AccountingOk(s.history.published, s.attempt.accounted)
    ensures SameCourse(s, FinishGatewayTimeout(s))
  {
    if !s.finished { FailureKeeps(NoResult(s)); }
  }

  lemma FinishedCourse(s: Txn, e: Event)
    requires s.finished && Enabled(s, e)
    ensures SameCourse(s, Apply(s, e))
  {
    if e.RunRetry? { assert Apply(s, e) == s.(queued := s.queued - 1); }
  }

  lemma OriginOther(s: Txn, e: Event)
    requires Inv(s) && Enabled(s, e) && (s.finished || !(e.RunRetry? || e.UpstreamResult?))
    ensures SameCourse(s, Apply(s, e))
  {
    if s.finished {
      FinishedCourse(s, e);
    } else {
      match e
      case AttemptDeadline(_) => TimeoutCourse(s);
      case TotalDeadline => TimeoutCourse(s);
      case ResponseHead(status, begins) => assert SameCourse(s, HandleResponseHead(s, status, begins));
      case ResponseBody(writes) => assert SameCourse(s, HandleResponseBody(s, writes));
      case ClientAbort => assert SameCourse(s, HandleClientAbort(s));
      case ClientDestroyed =>
      case GatewayStops =>
    }
  }

  lemma OriginBegin(policy: Policy, endpoint: nat, gatewayDown: bool, clientAlive: bool, start: Start)
    ensures Origin(Begin(policy, endpoint, gatewayDown, clientAlive, start), policy, endpoint)
  {
    if !gatewayDown {
      var s := Unstarted(policy, endpoint, gatewayDown, clientAlive);
      if !Refused(s, start) { StartedKeeps(s, start); }
    }
  }

  lemma {:induction false} RunOrigin(s: Txn, events: seq<Event>, s': Txn, policy: Policy, endpoint: nat)
    requires Inv(s) && Origin(s, policy, endpoint) && Runs(s, events, s')
    ensures Inv(s') && Origin(s', policy, endpoint)
    decreases |events|
  {
    if events != [] {
      StepKeeps(s, events[0]);
      OriginStep(s, events[0], policy, endpoint);
      RunOrigin(Apply(s, events[0]), events[1..], s', policy, endpoint);
    }
  }

  /** At most the first attempt and one retry within the budget, plus one more only if a retry failed
      inside its own start call. */
  lemma AttemptsBounded(policy: Policy, endpoint: nat, gatewayDown: bool, clientAlive: bool, start: Start,
                        events: seq<Event>, s: Txn)
    requires Runs(Begin(policy, endpoint, gatewayDown, clientAlive, start), events, s)
    ensures |s.history.published| <= Allowed(policy) + One(s.history.early)
    ensures s.history.early ==> CanOverrun(policy, endpoint)
  {
    KeepsBegin(policy, endpoint, gatewayDown, clientAlive, start);
    OriginBegin(policy, endpoint, gatewayDown, clientAlive, start);
    RunOrigin(Begin(policy, endpoint, gatewayDown, clientAlive, start), events, s, policy, endpoint);
  }

  ghost predicate WithinBudget(policy: Policy, endpoint: nat) {
    forall gatewayDown, clientAlive, start, events, s ::
      Runs(Begin(policy, endpoint, gatewayDown, clientAlive, start), events, s) ==> |s.history.published| <= 1 + policy.budget
  }

  /** The run that overruns: the first attempt ends, the retry fails in its start call, and the second
      retry connects. */
  lemma Overrun(policy: Policy, endpoint: nat) returns (events: seq<Event>, s: Txn)
    requires CanOverrun(policy, endpoint)
    ensures Runs(Begin(policy, endpoint, false, true, Connecting(endpoint, true)), events, s)
    ensures |s.history.published| == 3
  {
    var s0 := Begin(policy, endpoint, false, true, Connecting(endpoint, true));
    var s1 := Apply(s0, UpstreamResult(Eof));
    assert s1.queued == 1 && !s1.finished && |s1.history.published| == 1;
    var again := FailsAtOnce(endpoint, true, ConnectError);
    var s2 := Apply(s1, RunRetry(again));
    assert s2.queued == 1 && !s2.finished && |s2.history.published| == 2;
    s := Apply(s2, RunRetry(Connecting(endpoint, true)));
    events := [UpstreamResult(Eof), RunRetry(again), RunRetry(Connecting(endpoint, true))];
    assert events[1..] == [RunRetry(again), RunRetry(Connecting(endpoint, true))];
    assert events[1..][1..] == [RunRetry(Connecting(endpoint, true))];
    assert Runs(s, [], s);
    assert Runs(s2, events[1..][1..], s);
    assert Runs(s1, events[1..], s);
  }

  /** No run makes more than one attempt and the budget's retries exactly when the policy cannot overrun or
      its budget covers the third attempt. */
  lemma BudgetIff(policy: Policy, endpoint: nat)
    ensures WithinBudget(policy, endpoint) <==> !(CanOverrun(policy, endpoint) && policy.budget == 1)
  {
    if CanOverrun(policy, endpoint) && policy.budget == 1 {
      var events, s := Overrun(policy, endpoint);
    } else {
      forall gatewayDown, clientAlive, start, events, s
        | Runs(Begin(policy, endpoint, gatewayDown, clientAlive, start), events, s)
        ensures |s.history.published| <= 1 + policy.budget
      {
        AttemptsBounded(policy, endpoint, gatewayDown, clientAlive, start, events, s);
      }
    }
  }
}
