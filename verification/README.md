# AegisGate in Dafny

A verified model of the hard parts of AegisGate, an HTTP/1.1 reverse proxy: its concurrent control
plane, its HTTP framing and its backpressured streaming path.

Concurrent protocols are step machines: a state, steps that are enabled in some states, and runs that
take the steps in any order. An atomic load, compare-exchange, store or critical section is a step of its
own, under sequentially consistent memory; only on the in-flight counter of Leases does a step hold the
load and the exchange that succeeds on it, whose failed rounds change nothing. Objects that one thread
owns, or that a mutex guards, are classes whose methods are proved against specification functions.
What the environment decides (the clock, the kernel's answers to send and recv, endpoint eligibility, a
sink's answers) arrives as parameters or steps.

| component | modules |
|---|---|
| Outcome ring | OutcomeRing, OutcomeRetries, OutcomeChannelObject |
| Circuit breaker and probe cycles | CircuitBreakers, BreakerWindow, BreakerMigration, BreakerRuns, ProbeCycles |
| Global admission and leases | Admission, Leases |
| Generation retirement and its mailbox | Generations, GenerationLife, Retirement, RetirementRuns |
| HTTP framing | HttpText, ByteBuffer, HttpFraming, HttpGrammar, HttpSegments, HttpRequests, HttpSerializer, HttpRoundTrip, HttpResponses, HttpStreaming |
| Streaming and transactions | Backpressure, Transaction, ProxyTransactions |
| Worker queue | WorkerQueue |
| Endpoint selection | Rotation, SelectionSearch, Selection |
| Protection migration | ProtectionMigration |
| Shared | Attempts, Arith |

Several promises turn out to hold only under a condition. For each, the exact condition is proved and a
case that fails is given:

- the ring keeps claim order in every run, and its overflow abort is unreachable, exactly when its
  capacity divides 2^32 (`OutcomeRing.InOrderIff`, `OutcomeRing.AbortIff`); the credits add up in any case;
- a retry is without credit only while a finished request's result is undrained, and so can be rejected
  exactly when there are retries (`OutcomeRetries.NoCreditOnlyByLag`, `OutcomeRetries.RetryCanFailIff`;
  rejected in `OutcomeRetries.RetryRefused`);
- a closed breaker's aggregate is the logged count exactly when no live bucket counted 2^32 results
  (`BreakerWindow.ClosedAggregateIsLogCount`; fails in `BreakerRuns.CounterWraps`);
- a migrated breaker keeps its totals exactly when no counting bucket starts at the clock's zero, the
  program's mark for an unused bucket (`BreakerMigration.MigrationKeepsTotals`; fails in
  `BreakerRuns.ZeroBucketLost`), and no earlier permit is accepted short of 2^64 - 1 epochs
  (`BreakerMigration.NoPermitSurvives`; accepted in `BreakerRuns.PermitComesBack`);
- the low-balance test, which doubles in 32 bits, means "below half a batch" exactly below 2^31, and
  reports a fuller balance as low (`Admission.RunsLowIff`);
- no lifecycle event and no return task is refused, which would abort the program, exactly when the mailbox
  holds two events per worker and each task queue two tasks more than the connections that may wait in it
  (`RetirementRuns.CapacityIff`; fails in `RetirementRuns.SmallMailboxOverflows` and
  `RetirementRuns.FullQueueRefuses`). The default mailbox of 16 covers eight workers and the default queue
  of 1024 covers 1022 waiting connections, but only the queue itself bounds their number;
- a retired generation with no lease out has had its notice exactly when its checkers were not reported
  stopped while a lease was out (`GenerationLife.EveryLife`; fails in `GenerationLife.NoticeLost`, an order
  the control loop never uses);
- a message arriving in pieces is treated as the whole exactly when no piece ends between the CR and the
  LF of a head line of exactly 8 KiB (`HttpSegments.Segmentation`; fails in `HttpRoundTrip.LimitLineCut`);
- attempts stay within one and the retry budget exactly when the policy cannot follow a retry that fails
  inside its own start call with another, or the budget is not one (`Transaction.BudgetIff`; fails in
  `Transaction.Overrun`);
- the least-active search never gives up on a steadily eligible endpoint exactly when no half-open endpoint
  stands in front of another with nothing claim-free before it (`SelectionSearch.CompleteIff`; fails in
  `SelectionSearch.LostSlot`), and the weighted one exactly when its picks reach every endpoint it may
  need (`SelectionSearch.WeightedCompleteIff`; fails in `SelectionSearch.WeightedCanMiss`).

## Model

| member | source | states |
|---|---|---|
| `OutcomeRing.EveryRunDelivers` | src/health/OutcomeChannel.cpp:42-161 | Over every interleaving of reserve, publish, cancel, move and drain steps: credit, unfinalised reservations, undrained results and a drain between tail advance and credit return add up to the capacity; the overflow abort is unreachable; each claimed result is delivered once, unaltered, in claim order; no wake is lost; nothing claimed stays behind once publishers rest and a drain stops |
| `OutcomeRing.InOrderIff` | src/health/OutcomeChannel.cpp:59-123 | Deliveries follow claim order in every run exactly when the capacity divides 2^32, because slots are chosen by a 32-bit counter modulo the capacity |
| `OutcomeRing.EveryRunConserves` | src/health/OutcomeChannel.cpp:42-161 | In every run of every capacity, however far the counters go: each credit is available, held, in the ring or in the drain's hand, and at most the capacity is claimed and undrained |
| `OutcomeRing.AbortIff` | src/health/OutcomeChannel.cpp:95-104 | The overflow abort can be reached in some run exactly when the capacity does not divide 2^32; the run lets the drain pass a publisher that stalled after claiming its counter |
| `OutcomeRing.PublishPastWrap` | src/health/OutcomeChannel.cpp:95-123 | The failing run for any other capacity: publications past the counter wrap put two undrained results in one slot |
| `OutcomeRing.KeepsCheck` | src/health/OutcomeChannel.cpp:95-104 | The 32-bit distance between a claimed index and the tail is below the capacity, so the terminate branch is not taken |
| `OutcomeRing.KeepsMove` | src/health/OutcomeChannel.cpp:129-155 | Moving a reservation returns the target's own credit first and hands the source's credit on: the number of holders is kept |
| `OutcomeRing.KeepsFinalize` | src/health/OutcomeChannel.cpp:147-155 | An unpublished reservation gives its credit back exactly once; a published or moved one gives none |
| `OutcomeRing.KeepsAdvance` | src/health/OutcomeChannel.cpp:64-76 | Advancing the tail frees exactly the slot of the delivered result and keeps every other cell |
| `OutcomeRing.WindowDistinct` | src/health/OutcomeChannel.cpp:64-109 | The slots of any capacity consecutive counters are distinct, up to the wrap or across it when the capacity divides 2^32 |
| `OutcomeRetries.NoCreditOnlyByLag` | include/aegisgate/health/OutcomeChannel.h:14-17 | With at most max_inflight requests at a time, each making one attempt and the budget's retries: in every interleaving a thread that asks for a request under way finds no credit only while the result of a finished request is claimed and undrained |
| `OutcomeRetries.RetryCanFailIff` | include/aegisgate/health/OutcomeChannel.h:14-17 | A retry can be left without credit in some run exactly when retries are allowed at all |
| `OutcomeRetries.RetryRefused` | src/health/OutcomeChannel.cpp:42-77 | The failing run for every number of requests and every positive budget: the drain has not come round since the first request and the retry is rejected |
| `OutcomeRetries.Crowd` | src/health/OutcomeChannel.cpp:16-27 | The credits out for any set of requests under way, held or undrained, are at most 1 + retry_budget for each |
| `OutcomeRetries.KeptMoves` | src/health/OutcomeChannel.cpp:42-161 | Every reservation, move, cancellation, claim, drain, begin and end keeps the accounts: no request under way has more credits out than attempts made |
| `OutcomeChannelObject.CapacityForRoute` | src/health/OutcomeChannel.cpp:16-27 | max_inflight times (1 + retry_budget) in 64 bits; refused when zero or above the limit, and every accepted value fits 32 bits |
| `OutcomeChannelObject.OutcomeChannel.constructor` | src/health/OutcomeChannel.cpp:29-40 | An empty queue with all credit available |
| `OutcomeChannelObject.OutcomeChannel.TryReserve` | src/health/OutcomeChannel.cpp:42-57 | A credit is taken exactly when accepting and one is left; otherwise the rejection is counted |
| `OutcomeChannelObject.OutcomeChannel.Publish` | src/health/OutcomeChannel.cpp:95-123 | A held reservation finds a free slot, appends its result to the queue and sets the wake; queued results always have a wake pending |
| `OutcomeChannelObject.OutcomeChannel.Cancel` | src/health/OutcomeChannel.cpp:147-163 | A held reservation returns its credit and publishes nothing |
| `OutcomeChannelObject.OutcomeChannel.BeginStopping` | src/health/OutcomeChannel.cpp:79-81 | No further reservation is accepted; what is queued stays |
| `OutcomeChannelObject.OutcomeChannel.Drain` | src/health/OutcomeChannel.cpp:59-77 | The drain takes the wake, returns the queue oldest first, empties it and returns one credit per result |
| `CircuitBreakers.CircuitBreaker.Advance` | src/resilience/CircuitBreaker.cpp:93-122 | The ring moves to the bucket holding the time: unchanged inside the active bucket, step by step for a few, one jump past the whole window |
| `CircuitBreakers.CircuitBreaker.StepBuckets` | src/resilience/CircuitBreaker.cpp:117-121 | Opening buckets one at a time, each voided and stamped with its start |
| `CircuitBreakers.CircuitBreaker.AggregateNow` | src/resilience/CircuitBreaker.cpp:135-145 | Successes and failures of the buckets that start inside the window |
| `BreakerRuns.OpenHolds` | src/resilience/CircuitBreaker.cpp:70-91 | Whatever results, selections and arming come before its deadline, in any order, an open breaker keeps its deadline and generation and rejects every selection; at the deadline a selection gets a probe |
| `CircuitBreakers.CircuitBreaker.CloseNow` | src/resilience/CircuitBreaker.cpp:165-176 | Closed with an empty window, new generation, no pending probe |
| `CircuitBreakers.CircuitBreaker.RecordResult` | src/resilience/CircuitBreaker.cpp:19-68 | A result of another generation is ignored; a closed breaker counts it and may open; a half-open one consumes the probe id and closes or reopens |
| `CircuitBreakers.CircuitBreaker.SelectNow` | src/resilience/CircuitBreaker.cpp:70-91 | Allowed when closed, rejected while open, one fresh probe id per remaining half-open slot |
| `CircuitBreakers.CircuitBreaker.ExportSnapshot` | src/resilience/CircuitBreaker.cpp:192-217 | State, bucket ages and counts inside the window, remaining open time, quota and generation |
| `CircuitBreakers.CircuitBreaker.ImportSnapshot` | src/resilience/CircuitBreaker.cpp:219-271 | Everything is reset under the next generation, then the exported state is rebuilt: buckets placed by age, the open time kept, or a fresh half-open cycle |
| `CircuitBreakers.CircuitBreaker.ImportBucket` | src/resilience/CircuitBreaker.cpp:242-256 | An exported bucket lands its age in buckets back, adding in 32 bits; an age outside the window is dropped |
| `CircuitBreakers.CircuitBreaker.BeginCycle` | src/resilience/CircuitBreaker.cpp:273-285 | A half-open cycle whose whole quota of fresh ids is pending |
| `CircuitBreakers.StepsBack` | src/resilience/CircuitBreaker.cpp:243-248 | The placement is inside the ring exactly for ages inside the window |
| `BreakerWindow.ClosedAggregateIsLogCount` | src/resilience/CircuitBreaker.cpp:93-145 | In every run with non-decreasing times, of a new or an imported breaker, a closed breaker's aggregate is the number of results accepted since it last closed or was imported whose bucket starts inside the window, exactly when no live bucket has counted 2^32 of one kind |
| `BreakerRuns.CounterWraps` | src/resilience/CircuitBreaker.cpp:25-29 | The failing run for every configuration: 2^32 successes in one bucket |
| `BreakerWindow.TripsExactly` | src/resilience/CircuitBreaker.cpp:19-68 | A closed breaker keeps its state and log at a result it does not accept; at an accepted one, while no live counter has wrapped, it opens exactly when the logged results in the window, that one included, reach the minimum and the permille threshold, and until the open duration from then |
| `BreakerWindow.AdvanceIsStepping` | src/resilience/CircuitBreaker.cpp:93-122 | The jump is the same as opening buckets one at a time, for every later aggregate; no live bucket is discarded |
| `BreakerWindow.AggregateIsLiveCount` | src/resilience/CircuitBreaker.cpp:135-145 | The ten-bucket sum equals the count over the log of results in live buckets |
| `BreakerWindow.AdvanceKeepsWindow` | src/resilience/CircuitBreaker.cpp:93-122 | Advancing keeps every bucket of the window in its slot with its count |
| `BreakerWindow.TrackAllKeeps` | src/resilience/CircuitBreaker.cpp:19-176 | The correspondence of ring and log is kept by every sequence of results, selections and arming |
| `BreakerMigration.MigrationKeepsTotals` | src/resilience/CircuitBreaker.cpp:192-271 | Export at one instant and import at any later one under the same policy keep the windowed totals of the export exactly when no counting live bucket starts at the clock's zero; later each count lives at least as long as in the source, and longer by the time between and less than one bucket |
| `BreakerRuns.ZeroBucketLost` | src/resilience/CircuitBreaker.cpp:209-217 | The failing case: a breaker made at the clock's zero loses its first success in the migration |
| `BreakerMigration.MigrationKeepsProtection` | src/resilience/CircuitBreaker.cpp:192-271 | A breaker open at the export stays open for exactly the time then left; an elapsed or half-open one starts a fresh cycle with its whole quota pending |
| `BreakerMigration.ImportIsReady` | src/resilience/CircuitBreaker.cpp:219-258 | After importing any closed snapshot the window corresponds to a log of the in-window buckets |
| `BreakerMigration.ImportTracks` | src/resilience/CircuitBreaker.cpp:219-271 | Any imported breaker is a sound start for the results over runs |
| `BreakerMigration.ExportedLanding` | src/resilience/CircuitBreaker.cpp:209-256 | An exported bucket lands never before its own start and less than one bucket after it |
| `BreakerMigration.NoPermitSurvives` | src/resilience/CircuitBreaker.cpp:185-190 | A permit from before the export carries the importer's generation exactly when a whole multiple of 2^64 - 1 epochs lies between; otherwise its result only advances time |
| `BreakerRuns.PermitComesBack` | src/resilience/CircuitBreaker.cpp:185-190 | The run after which it does: the probe permit of epoch 2 is accepted by a breaker imported 2^64 - 1 epochs later, and its failure reopens it |
| `BreakerRuns.FirstCycle` | src/resilience/CircuitBreaker.cpp:273-285 | That permit is issued in the run: the first cycle holds probe id 1 under the generation of epoch 2 |
| `ProbeCycles.PermitsAreDistinct` | src/health/CoordinatorState.cpp:116-196 | Over every interleaving of claims on stale snapshots, results, arming and publication, permits of one cycle carry its generation and distinct ids in [base, base + quota), and cycles never share an id |
| `ProbeCycles.HalfOpenOutcome` | src/health/CoordinatorState.cpp:99-134 | In every reachable half-open state the breaker closes exactly at the success of the last pending id, when exactly the ids of the running cycle have succeeded; the first failed probe reopens it for the open duration; other results change only the ring |
| `ProbeCycles.CycleAfterResult` | src/resilience/CircuitBreaker.cpp:19-68 | A consumed probe id leaves the pending ones and is counted once |
| `ProbeCycles.IgnoredResult` | src/resilience/CircuitBreaker.cpp:19-68 | A result that does not count changes nothing but the ring, in every state of the breaker: one of another generation, any while open, a probe while closed, an id not pending while half-open |
| `ProbeCycles.StartHolds` | src/resilience/CircuitBreaker.cpp:219-285 | Both a new breaker and an imported half-open one start with every slot of their cycle free |
| `Admission.GlobalAdmission.Refill` | src/resilience/GlobalAdmission.cpp:19-44 | Adds the missing credit or rate times elapsed, whichever is less, with no 64-bit overflow; a time not later changes nothing |
| `Admission.GlobalAdmission.Draw` | src/resilience/GlobalAdmission.cpp:46-57 | Takes the smaller of the request and the whole tokens available |
| `Admission.GlobalAdmission.Return` | src/resilience/GlobalAdmission.cpp:59-71 | Adds the tokens back, capped at capacity |
| `Admission.GlobalAdmission.TryAcquireInflight` | src/resilience/GlobalAdmission.cpp:102-111 | A slot is taken exactly below the maximum |
| `Admission.GlobalAdmission.ReleaseOne` | src/resilience/GlobalAdmission.cpp:113-121 | A slot is given back, never below zero |
| `Admission.TokenBucket.TryAcquire` | src/resilience/TokenBucket.cpp:17-37 | Refills and takes one token if there is one |
| `Admission.SameAnswers` | src/resilience/TokenBucket.cpp:17-37 | At any sequence of times, in any order, refill-then-draw-one answers as the token bucket does |
| `Admission.RefillSplits` | src/resilience/GlobalAdmission.cpp:19-44 | Refilling for two intervals is refilling for their sum |
| `Admission.TicksDoNotMatter` | src/resilience/GlobalAdmission.cpp:19-44 | Splitting an interval into any ticks leaves the same credit |
| `Admission.RefillBranch` | src/resilience/GlobalAdmission.cpp:27-43 | Comparing elapsed with the rounded-up time needed chooses the smaller of the missing credit and rate times elapsed |
| `Admission.LeaseBatch` | src/resilience/GlobalAdmission.cpp:94-100 | The smallest batch with which the workers together hold the rate, at least one, at most the burst |
| `Admission.RunsLowIff` | src/runtime/WorkerData.cpp:193-193 | The 32-bit doubling means "below half a batch" exactly below 2^31; an empty balance always refreshes |
| `Leases.RateNeverExceeded` | src/runtime/WorkerData.cpp:176-240 | For any number of workers and any interleaving of refill, draw, return, spend and finish: admitted and held tokens and the credit never exceed burst plus rate times elapsed; credit stays in range, no lease exceeds the batch, the in-flight counter is exact and bounded |
| `Leases.KeepsRefill` | src/resilience/GlobalAdmission.cpp:19-44 | The compare-exchange loop adds the credit of the elapsed time once, whatever happens between its load and its exchange |
| `Leases.KeepsDraw` | src/resilience/GlobalAdmission.cpp:46-57 | A draw moves whole tokens from the credit to the worker |
| `Leases.KeepsReturn` | src/resilience/GlobalAdmission.cpp:59-71 | A return never creates credit |
| `Leases.KeepsSpend` | src/runtime/WorkerData.cpp:176-205 | Admitting spends one held token and keeps the in-flight slot; refusing gives the slot back |
| `GenerationLife.EveryLife` | src/runtime/RuntimeGeneration.cpp:43-187 | For any order of calls: the state moves only forward; no lease is granted once retirement began; the last-lease notice comes at most once, only with no lease out, and has come to a retired generation with no lease out exactly when its checkers were not reported stopped while one was; the reaper starts at most once and with no lease out |
| `GenerationLife.NoticeLost` | src/runtime/RuntimeGeneration.cpp:149-169 | The order of calls that loses the notice: checkers reported stopped while the last lease is out |
| `Generations.RuntimeGeneration.TryAcquireRequestLease` | src/runtime/RuntimeGeneration.cpp:43-50 | Keeps the generation lawful; a lease is granted only before any notice and before the checkers stop |
| `Generations.RuntimeGeneration.BeginRetirement` | src/runtime/RuntimeGeneration.cpp:62-81 | Keeps the generation lawful; the notice falls due in this call exactly when it succeeds with no lease out, and was not given before |
| `Generations.RuntimeGeneration.NotifyCheckersStopped` | src/runtime/RuntimeGeneration.cpp:83-98 | Keeps the generation lawful; after success it waits for the reaper exactly when no lease is out |
| `Generations.RuntimeGeneration.BeginReaping` | src/runtime/RuntimeGeneration.cpp:117-131 | Succeeds exactly from the waiting state, in which the lease test cannot fail, and so once |
| `Generations.RuntimeGeneration.ReleaseRequestLease` | src/runtime/RuntimeGeneration.cpp:149-169 | Keeps the generation lawful; the notice is due exactly at the last release while retiring with checkers running, and was never given before; after the checkers stopped the last release moves on to waiting |
| `Generations.GenerationMailbox.Post` | src/runtime/GenerationMailbox.cpp:25-37 | Appends exactly when open, below capacity and the wake is written; otherwise the queue is as before |
| `Generations.GenerationMailbox.Drain` | src/runtime/GenerationMailbox.cpp:39-60 | Returns the queue in order and empties it |
| `RetirementRuns.EveryRunRetires` | src/gateway/Gateway.cpp:149-312 | Over every reload and interleaving of stale requests, leases, mailbox events, hand-overs, worker tasks and reapers, with any number of workers, any mailbox and any task queues: at most two retiring generations; queued events at most workers times retiring; the last-lease notice given at most once and exactly when retired with no lease; a reaper at most once, with no lease held and no worker balance left; the program aborts only on a full mailbox of fewer than two events per worker, or at a full task queue with room for fewer than two tasks beyond the hand-overs |
| `RetirementRuns.CapacityIff` | src/gateway/Gateway.cpp:266-294 | No lifecycle post and no return task is refused in any run exactly when the mailbox holds two events per worker and every task queue two tasks more than the hand-overs that may wait in it |
| `RetirementRuns.SmallMailboxOverflows` | src/gateway/Gateway.cpp:266-294 | The failing run for any smaller mailbox: two reloads, and every worker answers before the loop drains |
| `RetirementRuns.FullQueueRefuses` | src/gateway/Gateway.cpp:283-293 | The failing run for any smaller task queue: a reload while a worker has connections waiting, whose full queue refuses the return task |
| `RetirementRuns.LoadBound` | src/runtime/WorkerRuntime.cpp:100-116 | When the control loop hands a worker its return task, the queue holds at most the hand-overs and one other return task |
| `RetirementRuns.TaskKeeps` | src/gateway/Gateway.cpp:283-293 | Handing a worker its task keeps the invariant, or finds the queue full and too small for the hand-overs and two tasks and aborts with nothing else changed |
| `RetirementRuns.NeverStuck` | src/gateway/Gateway.cpp:219-312 | With any mailbox and task queues, until an abort, each retiring generation has a lease holder, a notice, an event, a worker task or a reaper that will move it on; every other one is published, just replaced or done |
| `RetirementRuns.RunForward` | src/runtime/RuntimeGeneration.cpp:43-187 | Over any run with any mailbox and task queues a generation's state only moves forward, and its leases only fall once retirement began |
| `RetirementRuns.StepForward` | src/runtime/RuntimeGeneration.cpp:43-187 | Each step grants a lease only while active, gives a notice only at zero leases, and starts a reaper only when all workers have returned their balances |
| `RetirementRuns.PostKeeps` | src/runtime/GenerationMailbox.cpp:25-37 | A post keeps the invariant, or finds the mailbox full and too small for the workers and leaves everything but its own event as it was |
| `RetirementRuns.QueueBound` | src/runtime/GenerationMailbox.cpp:25-60 | Queued lifecycle events never exceed workers times retiring generations |
| `RetirementRuns.RoomToPost` | src/runtime/GenerationMailbox.cpp:25-37 | A version with a post still to come has left room for it |
| `Retirement.EventStage` | src/gateway/Gateway.cpp:237-264 | A handled event belongs to a version in the stage that expects it |
| `Retirement.HandleNotice` | src/gateway/Gateway.cpp:266-294 | After the last-lease event every worker owes one return task for the version, whose stage stays sound |
| `Retirement.HandleQueues` | src/gateway/Gateway.cpp:276-294 | Handling an event either starts the hand-out at the first worker, with the tasks of all workers due, or leaves the queues alone |
| `Retirement.KeepsHandOver` | src/gateway/Gateway.cpp:405-420 | A connection handed to a worker takes one place in its queue and touches no retirement |
| `Retirement.ReturnedIs` | src/gateway/Gateway.cpp:246-257 | Each worker return is counted once and the last one starts the reaper |
| `Retirement.KeepsRetire` | src/gateway/Gateway.cpp:219-235 | Retiring the replaced generation |
| `Retirement.KeepsRunTask` | src/runtime/WorkerData.cpp:229-240 | A worker's return task drops its balance and posts one event |
| `HttpText.LowerAscii` | src/http/HttpRequestParser.cpp:22-29 | Every upper-case ASCII letter lowered, nothing else changed |
| `HttpText.TrimOws` | src/http/HttpRequestParser.cpp:31-39 | Exactly the outer blanks removed |
| `HttpText.TrimIs` | src/http/HttpRequestParser.cpp:31-39 | A text written as blanks, core and blanks trims to its core |
| `HttpText.IsToken` | src/http/HttpRequestParser.cpp:41-68 | True exactly for non-empty sequences of token characters |
| `HttpText.ContainsChunked` | src/http/HttpRequestParser.cpp:70-83 | True exactly when some element between commas is, trimmed and in any case, the chunked coding |
| `HttpText.HasBareLineFeed` | src/http/HttpRequestParser.cpp:85-92 | True exactly when some line feed does not follow a carriage return |
| `HttpText.IsValidFieldValue` | src/http/HttpRequestParser.cpp:94-104 | True exactly without control characters other than tab |
| `HttpText.ParseContentLength` | src/http/HttpRequestParser.cpp:106-123 | The number written, refused exactly when empty, not all digits or above the 64-bit maximum |
| `ByteBuffer.Buffer.Append` | src/net/Buffer.cpp:7-20 | The bytes are added at the end; compaction keeps the unread bytes and leaves no more dead than live ones |
| `ByteBuffer.Buffer.Retrieve` | src/net/Buffer.cpp:34-40 | Drops exactly that many bytes, or none when asked for more than there are |
| `HttpRequests.HttpRequestParser.Parse` | src/http/HttpRequestParser.cpp:133-257 | Takes the verdict on everything readable; consumes exactly an accepted request; a decided parser stays decided |
| `HttpRequests.Decide` | src/http/HttpRequestParser.cpp:133-257 | Method, target, merged headers and body of an accepted request, or the reason it is not accepted |
| `HttpRequests.ReadHead` | src/http/HttpRequestParser.cpp:138-245 | Bare line feeds, line limits, request line and fields, in that order |
| `HttpRequests.ParseField` | src/http/HttpRequestParser.cpp:208-233 | Name, trimmed value and framing rule of one field line |
| `HttpRequests.SplitRequestLine` | src/http/HttpRequestParser.cpp:162-177 | Exactly two spaces, a token, a non-empty target and HTTP/1.1 |
| `HttpRequests.ParseFields` | src/http/HttpRequestParser.cpp:186-245 | The field lines up to the blank line within the header limit; later values replace earlier ones, connection values join |
| `HttpSerializer.SerializeRequest` | src/http/HttpRequestSerializer.cpp:139-202 | Produces bytes exactly for valid requests within the limits with one host and no managed field; the bytes are the head, the fields in map order, the managed fields and the body |
| `HttpSerializer.IsValidUriComponent` | src/http/HttpRequestSerializer.cpp:85-100 | Exactly allowed characters and percent-encoded triplets, per sections 3.3 and 3.4 of RFC 3986 |
| `HttpSerializer.IsValidTarget` | src/http/HttpRequestSerializer.cpp:102-112 | A path from a slash and an optional query |
| `HttpSerializer.TryAddWithinLimit` | src/http/HttpRequestSerializer.cpp:44-51 | Adds exactly when the sum stays within the limit |
| `HttpSerializer.CheckHeaders` | src/http/HttpRequestSerializer.cpp:157-180 | Every header valid and unmanaged, one host, total size within the limit |
| `HttpRoundTrip.RoundTrip` | src/http/HttpRequestSerializer.cpp:139-202 | Parsing serialized bytes followed by anything completes with the same method, target and body and the written fields, and leaves exactly what follows |
| `HttpRoundTrip.CanonicalRoundTrip` | src/http/HttpRequestParser.cpp:133-257 | For lower-case names and trimmed values the request itself comes back plus content-length and connection, in any map order |
| `HttpRoundTrip.CutLoses` | src/http/HttpRequestParser.cpp:150-160 | Any serialized request whose line has the limit's length is accepted whole and rejected when its CR arrives alone |
| `HttpRoundTrip.LimitLineCut` | src/http/HttpRequestParser.cpp:150-160 | Such a request exists |
| `HttpGrammar.AcceptsExactly` | src/http/HttpResponseParser.cpp:224-326 | Both parsers accept a head exactly when the bytes are a valid first line, valid non-empty field lines and a blank line laid end to end within the limits, with no bare line feed, giving those fields and that declared length |
| `HttpGrammar.ComposedIsAccepted` | src/http/HttpRequestParser.cpp:133-245 | Every such composition is accepted |
| `HttpGrammar.AcceptedIsComposed` | src/http/HttpRequestParser.cpp:133-245 | Whatever is accepted is such a composition |
| `HttpSegments.Segmentation` | src/http/HttpRequestParser.cpp:133-257 | For either parser and every segmentation: unaccepted input is never consumed; an accepted message is the one the whole stream gives, with the rest unread; an acceptable stream is accepted in pieces exactly when no cut falls inside the CRLF of a limit-length head line |
| `HttpSegments.JudgeExtends` | src/http/HttpResponseParser.cpp:94-141 | An accepted prefix decides the stream; a prefix of an accepted stream is rejected exactly at that cut |
| `HttpSegments.RefusedIff` | src/http/HttpResponseParser.cpp:224-326 | The same for the head alone |
| `HttpResponses.HttpResponseParser.Parse` | src/http/HttpResponseParser.cpp:94-141 | One whole response or nothing consumed; HEAD responses end with their head |
| `HttpResponses.HttpResponseParser.ParseHeaders` | src/http/HttpResponseParser.cpp:143-178 | Consumes exactly the header area and sets how many body bytes follow |
| `HttpResponses.HttpResponseParser.ConsumeBody` | src/http/HttpResponseParser.cpp:180-204 | Offers at most the remaining declared bytes; a declined chunk stays in the input |
| `HttpResponses.ParseHeaderArea` | src/http/HttpResponseParser.cpp:224-326 | Status line, fields, limits and framing of a response head |
| `HttpResponses.ParseField` | src/http/HttpResponseParser.cpp:290-310 | Any transfer-encoding is unsupported; one valid content-length within 16 MiB |
| `HttpResponses.IsStatusLine` | src/http/HttpResponseParser.cpp:242-258 | HTTP/1.1, a status from 200 to 599 and a non-empty valid reason |
| `HttpResponses.StatusOf` | src/http/HttpResponseParser.cpp:259-260 | The three digits as a number between 200 and 599 |
| `HttpStreaming.StreamsTheBody` | src/http/HttpResponseParser.cpp:143-204 | For every response the whole parser accepts, every segmentation and every pattern of accepted and declined chunks: what was delivered is a prefix of the body, is the body exactly when reported complete, and nothing past the message is consumed |
| `Backpressure.StreamRelay.Run` | src/net/ClientConnection.cpp:296-359 | Over every sequence of reads, writes, aborts and failures: the client receives a prefix of head and declared body, nothing twice or out of order; the queue stays under the larger of high watermark and head plus one read; a paused live upstream has more than the low watermark queued |
| `Backpressure.StreamRelay.HandleWrite` | src/net/ClientConnection.cpp:296-337 | Sending moves queued bytes to the wire in order; while live the pause is lifted exactly when the queue has fallen to the low watermark |
| `Backpressure.StreamRelay.WriteResponseBody` | src/net/ClientConnection.cpp:169-184 | Queues the bytes once and reports whether the high watermark is reached |
| `Backpressure.StreamRelay.NotifyDrainedIfBelowLow` | src/net/ClientConnection.cpp:350-359 | Resumes exactly on a drain that crosses the low watermark |
| `Backpressure.StreamRelay.HandleResponseBody` | src/proxy/ProxyTransaction.cpp:374-400 | An accepted chunk is queued exactly once and reading is paused exactly at the high watermark |
| `Backpressure.StreamRelay.PauseUpstreamReading` | src/proxy/ProxyTransaction.cpp:453-459 | Pauses transaction and connection together |
| `Backpressure.StreamRelay.ResumeUpstreamReading` | src/proxy/ProxyTransaction.cpp:461-468 | Does nothing unless paused, and a paused upstream has no buffered input to forward again |
| `Backpressure.StreamRelay.ConsumeInput` | src/net/UpstreamConnection.cpp:287-327 | At most the declared length is forwarded; a completed body ends the exchange |
| `Backpressure.StreamRelay.Begin` | src/net/ClientConnection.cpp:155-167 | The head is queued once and the bytes after it are consumed |
| `Backpressure.StreamRelay.OnReadable` | src/net/UpstreamConnection.cpp:252-285 | Nothing is read while paused |
| `Backpressure.StreamRelay.OnWritable` | src/net/ClientConnection.cpp:296-337 | No drain loses its resume and none resumes above the low watermark |
| `Backpressure.StreamRelay.OnClientGone` | src/net/ClientConnection.cpp:244-262 | A hang-up ends the exchange |
| `Backpressure.StreamRelay.OnUpstreamFailed` | src/proxy/ProxyTransaction.cpp:521-550 | A failure after the head truncates the client and writes no second status line |
| `Backpressure.StreamRelay.FinishUpstream` | src/net/ClientConnection.cpp:186-202 | A complete body finishes the response; what is queued still drains |
| `Transaction.EveryRun` | src/proxy/ProxyTransaction.cpp:151-343 | For every sequence of results, heads, chunks, deadlines and aborts: at most one outcome per attempt, at most one response or head offered, one completion, slots released with the end, while unfinished exactly one attempt in flight or one retry queued, and exactly one response for a client that stays and does not abort |
| `Transaction.NoRetryAfterCommit` | src/proxy/ProxyTransaction.cpp:634-649 | Once the head is committed no attempt is added and nothing else is offered |
| `Transaction.FinishedIsInert` | src/proxy/ProxyTransaction.cpp:267-343 | A finished transaction ignores every event |
| `Transaction.OutcomeOf` | src/proxy/ProxyTransaction.cpp:475-492 | A result publishes exactly one outcome for the current attempt, healthy exactly for an answer below 500, and none when there is no link, it was already accounted or the client is gone before a commit |
| `Transaction.AttemptsBounded` | src/proxy/ProxyTransaction.cpp:663-679 | At most the first attempt and one retry within the budget, plus one only if a retry failed inside its own start call, which the policy must allow |
| `Transaction.BudgetIff` | src/proxy/ProxyTransaction.cpp:634-679 | No run makes more than 1 + retry_budget attempts exactly when the policy cannot follow a retry that failed in its start call with another, or the budget is not one |
| `Transaction.Overrun` | src/proxy/ProxyTransaction.cpp:187-265 | The run with three attempts |
| `Transaction.KeepsBegin` | src/proxy/ProxyTransaction.cpp:151-185 | A new transaction, whatever its start call leads to, has one attempt in flight, one retry queued, or ended with everything released |
| `Transaction.StartedKeeps` | src/proxy/ProxyTransaction.cpp:187-265 | A started attempt is under way, has ended the transaction with everything released, or has queued the one retry uncommitted and within budget |
| `Transaction.UpstreamKeeps` | src/proxy/ProxyTransaction.cpp:267-343 | A result that may not be retried ends the transaction: one completion, slot and active slot released, one response exactly for a present client with nothing committed |
| `Transaction.RetryQueued` | src/proxy/ProxyTransaction.cpp:634-649 | A retryable failure releases the active slot, publishes at most one outcome, queues one retry and changes nothing else |
| `Transaction.FailureKeeps` | src/proxy/ProxyTransaction.cpp:521-562 | A failure ends the transaction in the same way; a committed response gets no second status line |
| `Transaction.KeepsTimeout` | src/proxy/ProxyTransaction.cpp:681-717 | A deadline keeps the invariant: no result of the cancelled attempt is awaited |
| `Transaction.KeepsRetry` | src/proxy/ProxyTransaction.cpp:663-679 | A queued retry keeps the invariant, counting the retry only after its start call returned |
| `Transaction.KeepsHead` | src/proxy/ProxyTransaction.cpp:345-372 | A response head keeps the invariant: committed with one offer, or aborted when the client cannot take it |
| `Transaction.KeepsAbort` | src/proxy/ProxyTransaction.cpp:402-451 | A client abort keeps the invariant: everything released, nothing published |
| `ProxyTransactions.ProxyTransaction.Handle` | src/proxy/ProxyTransaction.cpp:187-343 | Every callback keeps the invariant and refines the machine; it leaves a finished transaction as it is and adds no attempt or offer to a committed one |
| `ProxyTransactions.ProxyTransaction.Drive` | src/proxy/ProxyTransaction.cpp:151-343 | Any sequence of callbacks on the object is a run of the machine: at most one offer and completion, at most one outcome per attempt, and exactly one response for a client that stays and does not abort |
| `ProxyTransactions.ProxyTransaction.HasAlternative` | src/proxy/ProxyTransaction.cpp:651-661 | The first configured endpoint other than the current one, none exactly when all are the same |
| `WorkerQueue.EveryRun` | src/runtime/WorkerRuntime.cpp:100-274 | Over every interleaving of posters, stopper and worker: accepted tasks run once, in acceptance order, all before the loop quits, shutdown tasks too; queued work always has a wake pending or a drain in progress |
| `WorkerQueue.StoppedExits` | src/runtime/WorkerRuntime.cpp:49-80 | Once stopped, the worker left alone runs everything accepted and exits |
| `WorkerQueue.WorkerRuntime.PostTask` | src/runtime/WorkerRuntime.cpp:100-116 | Accepted exactly while running, below capacity and with the wake written; otherwise taken back |
| `WorkerQueue.WorkerRuntime.PostShutdown` | src/runtime/WorkerRuntime.cpp:118-136 | One waiting shutdown task at a time |
| `WorkerQueue.WorkerRuntime.DrainQueue` | src/runtime/WorkerRuntime.cpp:254-274 | Runs the queue and everything admitted meanwhile in order until empty |
| `WorkerQueue.WorkerRuntime.HandleWake` | src/runtime/WorkerRuntime.cpp:215-237 | With others posting in every gap: the queue and what was admitted while it drained, in order, then the shutdown task waiting or posted meanwhile; tasks and a shutdown task posted after that stay, in order, behind a pending wake; quits exactly when stopping with nothing left |
| `Rotation.CheckWeights` | src/routing/WeightedRoundRobin.cpp:8-18 | Accepts exactly non-empty lists of positive weights whose total fits 64 bits |
| `Rotation.WeightedRoundRobin.Next` | src/routing/WeightedRoundRobin.cpp:20-30 | The endpoint whose stretch holds the cursor; the cursor moves on by one and wraps |
| `Rotation.EachItsWeight` | src/routing/WeightedRoundRobin.cpp:20-30 | From any cursor every total-weight consecutive picks go to endpoint i exactly weight-i times |
| `Rotation.ReachesAllIff` | src/runtime/AttemptSelector.cpp:36-42 | As many picks as endpoints reach every endpoint from every cursor exactly with one endpoint or all weights one |
| `SelectionSearch.CompleteIff` | src/runtime/AttemptSelector.cpp:19-32 | For given weights, cursor, snapshot, active counts and tried endpoints: whatever other threads do with the probe slots, the least-active search never gives up with a steadily eligible endpoint untried, exactly when no untried half-open endpoint stands before another with nothing claim-free before it |
| `SelectionSearch.LostToProbe` | src/runtime/SelectionState.cpp:58-74 | Whenever it does give up so, an untried half-open endpoint with as few active attempts as the lowest of the last scan had a free slot in its first pass and none in its second |
| `SelectionSearch.LostSlot` | src/runtime/SelectionState.cpp:58-74 | The failing case: an idle half-open endpoint loses its only slot between the passes and the search ends with a closed endpoint untried |
| `SelectionSearch.ScanFailsIff` | src/runtime/SelectionState.cpp:36-75 | A scan finds nothing exactly when its first pass has no candidate or no candidate of the second has as few active attempts as the lowest the first saw |
| `SelectionSearch.WeightedCompleteIff` | src/runtime/AttemptSelector.cpp:33-43 | One weighted search misses no steadily eligible endpoint, whatever other threads do, exactly when every untried selectable endpoint is in reach of its picks or one in reach needs no claim |
| `SelectionSearch.AlwaysCompleteIff` | src/runtime/AttemptSelector.cpp:33-43 | It misses none for every cursor, snapshot and set of tried endpoints exactly with one endpoint or all weights one |
| `SelectionSearch.WeightedCanMiss` | src/runtime/AttemptSelector.cpp:36-43 | Weights 3 and 1 from the start, no outcome room on the first endpoint: the search gives up with the second eligible and untried |
| `Selection.SelectionState.NextWeightedIndex` | src/runtime/SelectionState.cpp:22-34 | The content match finds the selected endpoint itself |
| `Selection.SelectionState.NextLeastActiveIndex` | src/runtime/SelectionState.cpp:36-75 | Eligibility asked anew in each pass: in rotation order the first candidate of the second pass with the fewest active attempts the first saw; none exactly when there is no such candidate |
| `Selection.SelectionState.LowestActive` | src/runtime/SelectionState.cpp:58-67 | The minimum over the candidates of the first pass, found exactly when there is one |
| `Selection.SelectionState.FirstWithActive` | src/runtime/SelectionState.cpp:69-74 | The candidate of the second pass with that value that the rotation meets first; none exactly when there is none |
| `Selection.SelectionState.AcquireActive` | src/runtime/SelectionState.cpp:86-95 | One more active attempt on that endpoint |
| `Selection.AttemptSelector.SelectLeastActive` | src/runtime/AttemptSelector.cpp:14-32 | Ends; its choices are the scans' choices in order, each but a returned one having failed its claim; gives up exactly at a scan that finds nothing, with the active counts as they were; a returned one counts one more; reports overload exactly when one failed for lack of outcome room |
| `Selection.AttemptSelector.SelectWeighted` | src/runtime/AttemptSelector.cpp:33-44 | Tries exactly the endpoints its picks reached; ends at the first fresh, eligible and claimable pick, which counts one more active attempt, and gives up exactly when there is none, with the counts as they were |
| `Selection.AttemptSelector.MakeSelection` | src/runtime/AttemptSelector.cpp:66-100 | Takes the active slot exactly when no claim is needed or the probe, if half-open, and the outcome room are won; remembers a lack of room |
| `ProtectionMigration.MigratesExactly` | src/health/CoordinatorState.cpp:59-92 | Each new endpoint gets the old health, respectively breaker, exactly when route identity, endpoint identity and that policy match, and the safe baseline otherwise, whatever the order of the records |
| `ProtectionMigration.OneMatches` | src/health/ProtectionSnapshot.cpp:13-19 | Only the record with the same identity counts, wherever it stands |
| `ProtectionMigration.CoordinatorState.ExportProtectionSnapshot` | src/health/CoordinatorState.cpp:40-57 | One record for every endpoint, no two for the same one |
| `ProtectionMigration.CoordinatorState.ImportProtectionSnapshot` | src/health/CoordinatorState.cpp:59-92 | The nested search applies every record to the one endpoint it belongs to |
| `ProtectionMigration.CoordinatorState.PrepareForMigration` | src/health/CoordinatorState.cpp:31-38 | Unknown health where checks are configured, implicitly healthy elsewhere; breakers untouched |

## Left out

- Weak memory orderings: all atomics are sequentially consistent steps.
- Sockets, epoll, eventfd, timers and signal handling: their effects are parameters and steps; a wake is a flag.
- YAML loading: only its validity facts (unique route names, unique address and port within a route, positive limits) appear, as hypotheses.
- Timer-driven liveness of arming and health checks: arming is an event that may or may not happen, and a claimed probe whose attempt is dropped is not returned.
- Termination of the streaming read loop on a buffered incomplete header: each turn of the loop is an event, and only safety of the delivered bytes is stated.
- Gateway shutdown, destructors and thread joins: retirement is modelled while the workers run.
- Metrics text, histograms and the logger: the transaction only counts its one completion.
- Hop-by-hop header stripping and response serialization: the streamed head is an arbitrary byte string.
- The upstream pool, route table, in-flight limiter and timer queue: abstracted where they are used.
- The 64-bit probe id counter: ids grow without bound, so its wrap is not modelled.
- Clock arithmetic beyond 64-bit credit: breaker times are unbounded integers in nanoseconds.
- Probe slots during a selection: which are free at each pass is left to the other threads without restriction, so the slots' own protocol, in ProbeCycles, is not used there.
- The order of tasks in one worker's queue during a retirement, and a failed wake of that queue: any waiting task may run next there; the queue's own order and roll-back are in WorkerQueue.
- The allocation failure inside a mailbox post: only a failed wake-up rolls the post back.
- Bytes are characters: nothing depends on codes above 255.
- OutcomeRing.EveryRunDelivers: for capacities that do not divide 2^32 it covers runs up to the counter's end; past it only the credit sum of EveryRunConserves is stated, order and the unreachable abort being lost there; head and tail are unbounded counters whose low 32 bits choose the slot.
- ProtectionMigration.MigratesExactly: a breaker is opaque there; what its export and import do is stated in BreakerMigration.
- Transaction.EveryRun: a connection reports one head and one result per attempt, as the connection's own callback handling ensures; that handling is not modelled.
- Backpressure.StreamRelay.Run: covers one streamed response after its header area was parsed; the next request on the same client connection is not modelled.
