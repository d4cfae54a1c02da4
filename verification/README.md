# ApiGate: verified resource control

ApiGate is a single-threaded HTTP gateway. One `io_context` runs every handler to completion, so each
handler is one atomic step of a transition system. This project models the parts of the gateway that
decide who may use what, and for how long, and proves what they keep over every run: rate limits, the
accept and drain protocol, the proxied exchange and its one-shot completion, the connection pool, probe
scheduling and upstream health, admission with round robin, the body-buffer budget, and routing with
hop-by-hop filtering.

Objects that the gateway updates in place are classes whose methods are proved against a specification on
values; whole-run theorems are about those specifications. Handlers that may throw take the throwing point
as an argument, or a flag that says whether anything throws, and sockets, timers, the resolver and the HTTP parser are
an environment whose contract is stated where it is used.

`dafny verify dfyconfig.toml` checks the whole project.

| module | part of the gateway |
|---|---|
| `Common` | optional and failing results, fixed-width integers |
| `RateLimit`, `RateWindows` | the token bucket, and the arrival curve it implements exactly |
| `HealthState`, `Cyclic`, `ProbeScheduling`, `HealthChecking` | health counters, rotating probe schedule, the probe driver |
| `ProxyPermits`, `RoundRobin`, `RouteAdmission` | concurrent-proxy permits, rotation, admission of a proxied request |
| `BudgetLedger`, `BufferBudget` | conservation of reserved bytes, and the permits that carry them |
| `ConnectionPool` | idle connections and the single cleanup timer |
| `ProxyExchange`, `ExchangeSafety`, `ExchangeOutcomes`, `ExchangeRuns` | one exchange as a state machine, its invariant, the outcome of every event, and whole runs |
| `ExchangeBudget`, `ExchangeObject` | any number of exchanges on one body budget, and the exchange as an object with its pool and its permit |
| `ConnectionOwnership` | the pool together with any number of exchanges |
| `ServerStates`, `ServerLifecycle` | drain, accept and signal states, and the re-entrant server around them |
| `Strings`, `Routing`, `HopByHop` | targets and tokens, route selection and stripping, forwarded header fields |

Three results differ from what the interfaces suggest, and are stated exactly:

- The wait reported with a rate-limit rejection is computed by two roundings and may be any number of
  seconds by its type. It is always 1, because a bucket earns at least one token a second
  (`RateLimit.RetryAfterIsAlwaysOne`).
- A `put` leaves an idle entry uncovered by the cleanup wait exactly when it adds one under a pending wait that
  expires after the new deadline (`ConnectionPool.PutKeepsCover`). Times that go backwards do this, and
  `ConnectionPool.EarlierPutIsUncovered` shows such a pool; non-decreasing times never do
  (`ConnectionPool.RunKeepsCover`).
- A cleanup wait that is reported cancelled while the pool is running forgets its entries, exactly when
  there are any (`ConnectionPool.CancelledWaitForgets`). Only `stop` cancels the wait, so no run does this.

## Model

| member | source | states |
|---|---|---|
| `RateLimit.CeilDivide` | src/rate_limit.cpp:14-17 | the result is the least natural number whose multiple by the denominator reaches the numerator |
| `RateLimit.Create` | src/rate_limit.cpp:21-32 | a bucket is built if and only if both settings lie in 1 to 1000000, and it starts with a full burst of nanotokens at the given time |
| `RateLimit.FreshIsFull` | src/rate_limit.cpp:21-32 | a new bucket is valid, full, and has the configured rate |
| `RateLimit.TokenBucket.Refill` | src/rate_limit.cpp:34-64 | the two clamps and the 64-bit arithmetic compute min(capacity, units + rate * elapsed) over unbounded integers, with no overflow, and a time that goes backwards is ignored |
| `RateLimit.BurstSecondsFill` | src/rate_limit.cpp:47-52 | the first clamp is exact: after that many seconds every bucket is full |
| `RateLimit.NeededTicksFill` | src/rate_limit.cpp:53-63 | the second clamp decides exactly whether the refill reaches capacity, and the product below it cannot overflow |
| `RateLimit.TokenBucket.TryAcquire` | src/rate_limit.cpp:66-77 | a call is allowed if and only if the refilled bucket holds a token, takes exactly one, and a rejection reports the first whole second, from the bucket's own clock, at which a token is there |
| `RateLimit.WaitIsEarliest` | src/rate_limit.cpp:74-76 | rounding up to nanoseconds and then to seconds still gives the earliest sufficient second |
| `RateLimit.RetryAfterIsAlwaysOne` | src/rate_limit.cpp:74-76 | the earliest sufficient second is always one |
| `RateLimit.RefillIsSplitIndependent` | src/rate_limit.cpp:34-64 | refilling at two times, in either order, equals refilling once at the later |
| `RateWindows.AdmittedIffEveryWindowFits` | src/rate_limit.cpp:34-77 | over any run of calls at any times, a call is admitted if and only if one more admission fits the window opened at creation and the window opened at every earlier call |
| `RateWindows.AdmissionsConform` | src/rate_limit.cpp:34-77 | what a bucket admits keeps every window within burst + rate * elapsed |
| `RateWindows.NoConformingChoiceAdmitsMore` | src/rate_limit.cpp:34-77 | no other choice of admitted calls that keeps every window admits more, on any prefix of the run |
| `RateWindows.OneSecondAfterARejection` | src/rate_limit.cpp:66-77 | after a rejection, one second of the effective clock suffices for admission if nothing was admitted in between |
| `RateWindows.CreatedAdmitsExactlyWhatFits` | src/rate_limit.cpp:21-77 | for every bucket that can be created, over any run: a call is admitted if and only if burst + rate * elapsed has room for it since creation and since every earlier call |
| `RateWindows.CreatedIsMaximal` | src/rate_limit.cpp:21-77 | no other choice within that curve admits more than a created bucket, on any prefix of the run |
| `RateWindows.FirstBurstIsAdmitted` | src/rate_limit.cpp:21-77 | the first burst of calls, at any times, is admitted whole |
| `RateWindows.Calls` | src/rate_limit.cpp:21-77 | a real bucket, created and called at any times, decides exactly so, and every rejection asks for one second |
| `RateWindows.LevelIsWithinEveryWindow` | src/rate_limit.cpp:34-77 | the level never exceeds what any window leaves |
| `RateWindows.LevelIsSomeWindow` | src/rate_limit.cpp:34-77 | the level equals what some window leaves, so it is the tightest one |
| `HealthState.CountersSummariseHistory` | src/health_state.cpp:22-52 | after any history the counters are the trailing runs capped at their thresholds and the flag is the reference availability |
| `HealthState.AvailableIsLatestDecision` | src/health_state.cpp:22-52 | availability is decided by the most recent position where a run reached its threshold |
| `HealthState.AvailableWithoutDecision` | src/health_state.cpp:22-52 | an upstream no run has decided about is available |
| `HealthState.TransitionsAlternate` | src/health_state.cpp:22-52 | reported transitions strictly alternate, starting with unhealthy, and their parity is the flag |
| `HealthState.ReflectsAfterRecord` | src/health_state.cpp:22-52 | recording a result leaves every other slot a function of its own history |
| `HealthState.UpstreamHealthState.constructor` | src/health_state.cpp:9-15 | every slot of every route starts available with an empty history |
| `HealthState.UpstreamHealthState.IsAvailable` | src/health_state.cpp:17-20 | the answer is the reference availability of that slot's history; unknown indexes throw |
| `HealthState.UpstreamHealthState.Record` | src/health_state.cpp:22-52 | the result is appended to one slot's history, the counters still summarise all histories, and a transition is reported exactly when availability changed |
| `ProbeScheduling.Create` | src/health_state.cpp:54-65 | a schedule is built if and only if every interval lies in range, with all slots idle and due at once |
| `ProbeScheduling.ProbeSchedule.TakeDue` | src/health_state.cpp:67-88 | nothing starts when stopped or at the cap; otherwise the cyclically first idle and due slot from the cursor starts, and the cursor moves just past it, or stays if there is none |
| `ProbeScheduling.ProbeSchedule.Complete` | src/health_state.cpp:90-98 | a slot in flight becomes idle and the counter follows; a second completion changes nothing; a bad index throws |
| `ProbeScheduling.ProbeSchedule.NextDue` | src/health_state.cpp:100-115 | the earliest due time of an idle slot, or none when nothing may start |
| `ProbeScheduling.ProbeSchedule.Stop` | src/health_state.cpp:121-129 | no slot is in flight, the counter is zero, and nothing starts again |
| `ProbeScheduling.TakeAgreesWithNextDue` | src/health_state.cpp:67-115 | a scan starts a slot if and only if the next due time exists and has come |
| `ProbeScheduling.TakeSucceedsIff` | src/health_state.cpp:67-88 | a scan starts a slot if and only if it is not stopped, fewer than four are in flight and some slot is idle and due |
| `ProbeScheduling.RunKeepsCounts` | src/health_state.cpp:67-129 | in every state of every run the counter is the number of slots in flight and at most four, and the cursor is in range |
| `ProbeScheduling.StartsAreAnIntervalApart` | src/health_state.cpp:67-88 | any two starts of a slot are at least its interval apart, up to saturation of the clock |
| `ProbeScheduling.StartedSlotsLieBeyond` | src/health_state.cpp:67-88 | while a slot waits, every slot started since lies beyond it from the cursor |
| `ProbeScheduling.NoSlotStartsTwiceWhileAnotherWaits` | src/health_state.cpp:67-88 | while a slot is idle and due, no other slot is started twice |
| `HealthChecking.HealthChecks.Start` | src/health_check.cpp:356-368 | the first pump is queued once, and only with something to probe |
| `HealthChecking.HealthChecks.Stop` | src/health_check.cpp:369-393 | no probe, wait or queued pump survives a stop, and stopping twice changes nothing |
| `HealthChecking.HealthChecks.Failed` | src/health_check.cpp:396-411 | the failure callback is called at most once, after everything has stopped |
| `HealthChecking.HealthChecks.Settle` | src/health_check.cpp:420-424 | a completion frees exactly its slot and records exactly its result |
| `HealthChecking.HealthChecks.Completed` | src/health_check.cpp:412-446 | the result is recorded, the slot is free or started again, nothing more can start, and the driver stops only if something throws; after a stop a completion is ignored |
| `HealthChecking.HealthChecks.OnPosted` | src/health_check.cpp:363-367 | the queued pump starts everything that is due and leaves the driver awake, and stops it only if something throws |
| `HealthChecking.HealthChecks.OnTimer` | src/health_check.cpp:473-483 | an expired wait pumps again, stale or not; a failed one stops the driver and reports once; a cancelled one changes nothing; after a stop none of them does anything |
| `HealthChecking.HealthChecks.StartDue` | src/health_check.cpp:455-468 | the loop ends although it reads the clock anew for every scan and probes may fail synchronously, and the last scan found nothing to start |
| `HealthChecking.HealthChecks.ArmTimer` | src/health_check.cpp:469-484 | the wait is armed at exactly the earliest due time |
| `HealthChecking.HealthChecks.Pump` | src/health_check.cpp:447-493 | afterwards a probe is in flight, or the wait is armed, or there are no slots: no wake-up is lost; nothing is recorded but probes that fail at once, and the driver stops only if something throws |
| `HealthChecking.HealthChecks.Operate` | src/health_check.cpp:356-493 | in every run, at any times and with any failures: every completion delivered is recorded, once and in order; a started driver with slots is stopped or has a wake-up coming; at most four probes are in flight; the failure callback is called at most once |
| `HealthChecking.TakeConsumesTime` | src/health_check.cpp:455-468 | every start moves a due time strictly forward, which is why the loop ends |
| `HealthChecking.SomethingInFlight` | src/health_check.cpp:469-484 | without a next due time there are no slots or some probe is in flight |
| `ProxyPermits.TryAcquire` | src/http_server.cpp:254-263 | a permit is given if and only if capacity is left, and the counter is the number of owning permits |
| `ProxyPermits.ProxyPermit.Release` | src/http_server.cpp:284-292 | the capacity is given back exactly once, and the underflow guard is never needed |
| `ProxyPermits.ProxyPermit.TakeOver` | src/http_server.cpp:270-272 | a move changes the owner and not the count |
| `ProxyPermits.ProxyPermit.MoveFrom` | src/http_server.cpp:274-282 | move assignment gives the old capacity back and takes the other's over, also when both count on one state |
| `RoundRobin.NearestFirst` | src/route_proxy_admission.cpp:45-66 | with fixed availability the first picks are the slots nearest to the start |
| `RoundRobin.NearestExtends` | src/route_proxy_admission.cpp:45-66 | each further pick is the next nearest slot, farther than the one before |
| `RoundRobin.RotationVisitsEachOnce` | src/route_proxy_admission.cpp:45-66 | with k slots available throughout, any k consecutive picks are those slots, each once, in cyclic order |
| `RoundRobin.PickedWithinOneRound` | src/route_proxy_admission.cpp:45-66 | a slot that stays available is picked within one round, whatever happens to the others |
| `RouteAdmission.RouteProxyAdmission.constructor` | src/route_proxy_admission.cpp:9-21 | every route starts at its first slot |
| `RouteAdmission.RouteProxyAdmission.Limit` | src/rate_limit.cpp:96-101 | a route without a bucket is never limited, and only the addressed bucket changes |
| `RouteAdmission.RouteProxyAdmission.LimitRoute` | src/route_proxy_admission.cpp:26-34 | the rate limit settles a request if and only if its route's bucket is empty |
| `RouteAdmission.RouteProxyAdmission.FindHealthy` | src/route_proxy_admission.cpp:52-59 | the scan finds the cyclically first healthy slot from the position, or proves that all are down |
| `RouteAdmission.RouteProxyAdmission.PickSlot` | src/route_proxy_admission.cpp:47-66 | a pick moves its route's position just past the slot; with all slots down the position stays |
| `RouteAdmission.RouteProxyAdmission.ChooseSlot` | src/route_proxy_admission.cpp:44-67 | single-upstream mode takes the only slot; a table route rotates |
| `RouteAdmission.RouteProxyAdmission.AcquireSlot` | src/route_proxy_admission.cpp:35-71 | capacity comes before health, and the permit is given back on every path that does not admit |
| `RouteAdmission.RouteProxyAdmission.TryAcquire` | src/route_proxy_admission.cpp:23-72 | exactly when each outcome occurs, in the order rate limit, route index, capacity, route size, health; an admitted slot is healthy; a token once taken is not refunded, a permit is kept exactly by an admission, positions move by admissions only |
| `RouteAdmission.RouteAdmissionsRotate` | src/route_proxy_admission.cpp:23-72 | the admissions of one route form a rotation despite rejections and other routes in between |
| `RouteAdmission.EachAvailableSlotOncePerRound` | src/route_proxy_admission.cpp:23-72 | k consecutive admissions on a route with k steadily available slots pick each once, in cyclic order |
| `RouteAdmission.AvailableSlotIsPickedWithinARound` | src/route_proxy_admission.cpp:23-72 | a slot that stays available is picked within as many admissions as the route has slots |
| `BufferBudget.PlanBodyReservation` | src/buffer_budget.cpp:19-31 | the reservation is exactly the largest body the parser may still yield; nothing is reserved for a complete message, and only a declared length over the limit is too large |
| `BufferBudget.BufferBudgetControl.TryAcquire` | src/buffer_budget.cpp:105-113 | bytes are granted if and only if they fit under the limit, without 64-bit wrap |
| `BufferBudget.BufferBudgetPermit.Release` | src/buffer_budget.cpp:60-72 | exactly what the permit held is given back, once |
| `BufferBudget.BufferBudgetPermit.ShrinkTo` | src/buffer_budget.cpp:74-88 | a shrink fails only for an empty permit or a larger size, and otherwise gives back exactly the difference |
| `BufferBudget.BufferBudgetPermit.TakeOver` | src/buffer_budget.cpp:44-47 | move construction hands the reservation on and leaves the total unchanged |
| `BufferBudget.BufferBudgetPermit.MoveFrom` | src/buffer_budget.cpp:49-58 | move assignment releases the old reservation and takes the other's over, between permits of one budget or of two |
| `BufferBudget.ReserveBody` | src/http_server.cpp:577-602 | after the header: nothing for a complete message, a refusal for a declared length over the limit or bytes that do not fit, otherwise a permit that covers every body the parser may yield |
| `BufferBudget.BodyArrived` | src/http_server.cpp:614-633 | after the body, whatever other permits did meanwhile: given the parser's length contract the shrink cannot fail, and what stays reserved is the size of the body |
| `BudgetLedger.AcquireConserves` | src/buffer_budget.cpp:105-113 | a granted acquisition keeps the counter equal to the sum over live permits, within the limit |
| `BudgetLedger.ReleaseConserves` | src/buffer_budget.cpp:60-72 | a release keeps the sum, and its underflow guard is unreachable |
| `BudgetLedger.ShrinkConserves` | src/buffer_budget.cpp:74-88 | a shrink keeps the sum, and its second failure branch is unreachable |
| `BudgetLedger.HandConserves` | src/buffer_budget.cpp:44-47 | handing a reservation on keeps the sum |
| `BudgetLedger.MoveConserves` | src/buffer_budget.cpp:49-58 | move assignment, self-assignment included, keeps the sum |
| `BudgetLedger.RunConserves` | src/buffer_budget.cpp:19-113 | after every sequence of acquire, move, shrink, release, share and drop, the counter equals the sum over live permits and is at most the limit |
| `BudgetLedger.OnlyTheLastHolderReleases` | src/http_proxy.cpp:782-788 | a shared permit keeps its bytes until the last holder drops it |
| `ConnectionPool.UpstreamPool.Expire` | src/upstream_pool.cpp:163-177 | exactly the entries whose deadline has passed are dropped |
| `ConnectionPool.UpstreamPool.Take` | src/upstream_pool.cpp:100-131 | the lease is the first matching entry that is unexpired and clean; unclean matches before it are dropped; a stopped pool lends nothing |
| `ConnectionPool.UpstreamPool.Put` | src/upstream_pool.cpp:132-162 | a clean connection takes the first free of 32 slots with a 30-second deadline and the wait is armed; an unclean or late one is dropped |
| `ConnectionPool.UpstreamPool.ArmCleanup` | src/upstream_pool.cpp:178-203 | the single wait is armed at the earliest idle deadline, unless one is pending; a failure stops the pool |
| `ConnectionPool.UpstreamPool.OnTimer` | src/upstream_pool.cpp:204-232 | an expired wait drops what is due and arms the next one; a failed wait stops the pool |
| `ConnectionPool.UpstreamPool.Stop` | src/upstream_pool.cpp:234-253 | every slot is emptied and stays empty |
| `ConnectionPool.PutKeepsCover` | src/upstream_pool.cpp:132-203 | every entry stays covered if and only if nothing is added, or no wait is pending, or the pending one expires no later than the new deadline |
| `ConnectionPool.EarlierPutIsUncovered` | src/upstream_pool.cpp:132-203 | a reachable pool in which a put at an earlier time leaves its entry uncovered |
| `ConnectionPool.CancelledWaitForgets` | src/upstream_pool.cpp:204-232 | a cancelled wait on a running pool leaves its entries uncovered exactly when there are any |
| `ConnectionPool.StepKeepsCover` | src/upstream_pool.cpp:100-253 | every operation at a time not before the previous one keeps all entries covered |
| `ConnectionPool.RunKeepsCover` | src/upstream_pool.cpp:100-253 | with non-decreasing times, in every state of every run each idle entry has a pending wait that expires no later than it |
| `ConnectionPool.NothingAfterStop` | src/upstream_pool.cpp:234-253 | after a stop nothing is cached or lent for the rest of the run |
| `ConnectionPool.KeptForThirtySeconds` | src/upstream_pool.cpp:100-162 | in every run, after a clean put with room and events that neither stop or fail the pool nor concern that connection, a take that wants only it yields it if and only if less than thirty seconds have passed |
| `ConnectionPool.ExpiredWaitCleansUp` | src/upstream_pool.cpp:204-232 | an expired wait drops every entry whose time is over, and no other |
| `ExchangeSafety.StartStepKeepsInv` | src/http_proxy.cpp:301-320 | starting, on a reused or a new connection, leaves one operation under an armed deadline, or an exception ends the exchange cleaned up |
| `ExchangeSafety.CancelKeepsInv` | src/http_proxy.cpp:322-331 | a cancel that wins the claim ends the exchange without a verdict, with its lease closed and its waits cancelled |
| `ExchangeSafety.DeadlineStepKeepsInv` | src/http_proxy.cpp:354-371 | a wait that completes ends a live exchange if it is the current one, and is harmless if it is an older one |
| `ExchangeSafety.ArmingContinues` | src/http_proxy.cpp:354-371 | arming a deadline and starting an operation leaves exactly both, or an exception at either point ends the exchange |
| `ExchangeSafety.ResolvedStepKeepsInv` | src/http_proxy.cpp:390-415 | a finished resolution leads to a connect or to the end |
| `ExchangeSafety.ConnectedStepKeepsInv` | src/http_proxy.cpp:417-450 | a finished connect leads to a handshake, a write or the end, a rejected TLS identity included |
| `ExchangeSafety.HandshakenStepKeepsInv` | src/http_proxy.cpp:452-465 | a finished handshake keeps the invariant, whatever throws |
| `ExchangeSafety.WrittenStepKeepsInv` | src/http_proxy.cpp:487-519 | a written request leads to reading the response under the one read deadline, or to the end |
| `ExchangeSafety.HeaderStepKeepsInv` | src/http_proxy.cpp:521-589 | a response header leads to a body, a stream or the end in every case it can mean |
| `ExchangeSafety.StreamHeaderKeepsInv` | src/http_proxy.cpp:632-684 | a stream starts with a block of 1 to 16384 bytes or with a complete message, and an exception before or in the header callback ends it |
| `ExchangeSafety.BlockStepKeepsInv` | src/http_proxy.cpp:686-727 | a block read leads to another read, a downstream write of exactly its bytes, or the end |
| `ExchangeSafety.SentStepKeepsInv` | src/http_proxy.cpp:604-630 | an acknowledged write delivers everything decoded so far and leads to the next read, success or the end |
| `ExchangeSafety.BodyStepKeepsInv` | src/http_proxy.cpp:767-789 | a whole body always leads to the end |
| `ExchangeSafety.CompletingEnds` | src/http_proxy.cpp:866-888 | completing ends the exchange with one verdict, and an abort after it only if the callback threw |
| `ExchangeSafety.CompletingStreamEnds` | src/http_proxy.cpp:749-765 | the same for a stream, with success only for a fully delivered one |
| `ExchangeSafety.RejectingEnds` | src/http_proxy.cpp:817-823 | a budget rejection ends the exchange, whatever throws |
| `ExchangeSafety.RaisingEnds` | src/http_proxy.hpp:66-86 | an exception anywhere in a handler ends the exchange cleaned up, without a success |
| `ExchangeSafety.FailingEnds` | src/http_proxy.cpp:825-843 | failing a live exchange ends it with one verdict that is not success and leaves its bytes alone |
| `ExchangeSafety.FinishingStreamEnds` | src/http_proxy.cpp:729-747 | finishing a fully delivered stream ends the exchange, whatever throws |
| `ExchangeSafety.FinishingResponseEnds` | src/http_proxy.cpp:791-815 | finishing a buffered response ends the exchange, whatever throws |
| `ExchangeSafety.EndedStepIsInert` | src/http_proxy.cpp:322-388 | a handler that finds the exchange ended starts nothing, arms nothing, tells no one and leaves the lease alone |
| `ExchangeSafety.StepKeepsInv` | src/http_proxy.cpp:301-947 | every step, with every possible exception, keeps the invariant: one claim, one operation, one live deadline, faithful bytes |
| `ExchangeOutcomes.StepMeetsTable` | src/http_proxy.cpp:390-843 | what every completion makes of a live exchange, read off the event: which operation follows under which deadline, which verdict is given first, whether the connection is kept, returned or closed, and what each exception changes about it |
| `ExchangeOutcomes.StageErrorEnds` | src/http_proxy.cpp:390-589 | a failed resolution, connect, TLS identity, handshake, write, header, body, block or downstream write ends the exchange: nothing outstanding, connection closed, failure reported through finish after the header and on_complete before it |
| `ExchangeOutcomes.CleanStageGoesOn` | src/http_proxy.cpp:390-727 | without an error or an exception the exchange stays live with exactly the next stage's operation and its connection, and no one is told anything |
| `ExchangeOutcomes.StartMeets` | src/http_proxy.cpp:301-320 | a start writes on a reused connection and resolves for a new one; if it throws, the exchange ends without a verdict |
| `ExchangeOutcomes.CancelMeets` | src/http_proxy.cpp:322-331 | a cancel ends the exchange without a verdict and closes its connection |
| `ExchangeRuns.RunKeepsInv` | src/http_proxy.cpp:301-947 | the invariant holds in every state of every run |
| `ExchangeRuns.OneVerdict` | src/http_proxy.cpp:749-765 | at most one of on_complete, finish and on_abort is called in any run, but for an abort after a callback that threw |
| `ExchangeRuns.NothingAfterTheClaim` | src/http_proxy.cpp:322-388 | once claimed, no later handler starts an operation, arms a wait, tells anyone or touches the lease |
| `ExchangeRuns.NoCompletionAfterStreamHeader` | src/http_proxy.cpp:604-684 | in a run in which a stream header is handed down, on_complete is never called, before or after |
| `ExchangeRuns.OneOperationAtATime` | src/http_proxy.cpp:604-727 | at most one upstream or downstream operation is outstanding, and exactly one while the exchange is live |
| `ExchangeRuns.StreamIsFaithful` | src/http_proxy.cpp:604-747 | the bytes acknowledged downstream are an in-order prefix of the decoded body, a write under way carries exactly the rest, and success is reported only with the whole body delivered and nothing outstanding |
| `ExchangeRuns.DeadlineIsAlwaysArmed` | src/http_proxy.cpp:354-388 | a live exchange has an armed deadline, and from the response header on it is the one armed at line 499, never another |
| `ExchangeRuns.StaleDeadlineIsIgnored` | src/http_proxy.cpp:354-371 | a wait of an older generation changes nothing, whatever its outcome |
| `ExchangeRuns.EndedIsCleanedUp` | src/http_proxy.cpp:791-947 | in every run, an exchange that has ended has returned or closed its connection and cancelled every wait |
| `ExchangeRuns.LeaseReturnedIff` | src/http_proxy.cpp:729-815 | a connection is given back exactly when a live exchange has received its response to the end over a reusable connection, even if building the result then throws |
| `ExchangeRuns.FinalAcknowledgementSucceeds` | src/http_proxy.cpp:604-630 | the acknowledgement of the last write ends the stream and reports success, with the whole body delivered |
| `ExchangeRuns.ExpiryEnds` | src/http_proxy.cpp:354-371 | an expired wait of the current generation ends a live exchange in any stage: the connection is closed and the failure goes to finish after the header, to on_complete before it |
| `ExchangeBudget.Judge` | src/http_proxy.cpp:541-583 | exactly when a header is an error, invalid, too large, complete, over budget or followed by a body, and how many bytes that asks for (for streams src/http_proxy.cpp:632-658) |
| `ExchangeBudget.StepKeepsInv` | src/http_proxy.cpp:521-823 | every step of any exchange, response or request keeps the counter equal to what is held, and every outstanding buffer paid for |
| `ExchangeBudget.CounterIsTheSum` | src/buffer_budget.cpp:60-113 | in every run with any number of exchanges, the counter is the sum of what exchanges, responses and requests hold, within the limit |
| `ExchangeBudget.ShrinkNeverFails` | src/http_proxy.cpp:782-787 | in every run the shrink of a response body succeeds: the failure branch is unreachable |
| `ExchangeBudget.BlocksArePaidFor` | src/http_proxy.cpp:647-657 | in every run a block that is being read or written has 1 to 16384 bytes, and exactly those are reserved |
| `ExchangeBudget.NothingReservedEarly` | src/http_proxy.cpp:521-583 | in every run nothing is reserved for a response before its header is there |
| `ExchangeObject.HttpProxyExchange.constructor` | src/http_proxy.cpp:287-299 | the lease is taken from the real pool whenever that holds a matching clean connection whose time is not over, and is the new one otherwise; nothing is reserved |
| `ExchangeObject.HttpProxyExchange.OnHeader` | src/http_proxy.cpp:521-589 | on the real budget: exactly the bytes the header calls for are reserved and held by the exchange's permit; a lease that leaves is put into the real pool and nothing else happens to it; the protocol stays a run of the state machine |
| `ExchangeObject.HttpProxyExchange.OnBody` | src/http_proxy.cpp:767-815 | on the real budget: the shrink succeeds, the counter drops by exactly the unused bytes, and the rest leaves with a completed response or stays with the exchange |
| `ExchangeObject.HttpProxyExchange.OnEvent` | src/http_proxy.cpp:301-947 | every other event keeps the budget as it is, puts a lease that leaves into the real pool, never loses it when there is no pool, and keeps the protocol a run of the state machine |
| `ConnectionOwnership.StepKeepsInv` | src/upstream_pool.cpp:100-253 | every step of the pool or of any exchange keeps each connection with at most one owner |
| `ConnectionOwnership.ExactlyOnePlace` | src/upstream_pool.cpp:100-162 | in every state of every run a connection has at most one owner, one idle slot or one exchange; without one it is discarded |
| `ConnectionOwnership.ClosedIsNeverPooled` | src/http_proxy.cpp:939-947 | over whole runs, a connection that an exchange has closed is never idle in the pool again, and no exchange ever holds it as an open one |
| `ConnectionOwnership.DiscardedStaysDiscarded` | src/upstream_pool.cpp:100-253 | no step brings a discarded connection back |
| `ConnectionOwnership.DiscardedForever` | src/upstream_pool.cpp:100-253 | over whole runs, a discarded connection is never pooled or lent again |
| `ConnectionOwnership.IdleCameFrom` | src/http_proxy.cpp:729-747 | a connection becomes idle only by being returned, unclosed, by the exchange that held it |
| `ConnectionOwnership.LeaseCameFrom` | src/http_proxy.cpp:287-296 | an exchange gets its connection only when it is built: a new one, or a matching clean idle one |
| `ConnectionOwnership.ReturnedLeaseIsOpen` | src/http_proxy.cpp:791-815 | an exchange returns only a lease it has not closed, and only before it has ended |
| `ConnectionOwnership.StaleCallbackTouchesNothing` | src/http_proxy.cpp:939-947 | a callback of an exchange that returned its lease touches no connection, wherever that lease is now |
| `ConnectionOwnership.NothingPooledAfterStop` | src/upstream_pool.cpp:234-253 | after a stop nothing is idle, every new exchange gets a new connection, and returned leases are discarded |
| `ServerStates.DrainState.SessionFinished` | src/http_server.cpp:121-135 | the end of a shutdown is reported exactly by the last session to leave |
| `ServerStates.DrainState.BeginDrain` | src/http_server.cpp:137-144 | only a running server begins to drain, and an empty one is complete at once |
| `ServerStates.DrainState.BeginForceStop` | src/http_server.cpp:146-153 | a running or draining server is forced once |
| `ServerStates.AcceptCapacityState.NextAction` | src/http_server.cpp:181-204 | the decision never exceeds the limit, always leaves an accept or retry pending or the server paused at its limit, and says exactly when it pauses, resumes and starts |
| `ServerStates.ShutdownSignalState.Observe` | src/http_server_internal.hpp:86-122 | over any sequence of waits and completions the object reports what the automaton does |
| `ServerStates.ReportsAreExpected` | src/http_server_internal.hpp:86-122 | exactly what every wait reports, from its history: the first signal begins the drain, the second forces it, later and late ones are ignored, errors are fatal unless cancelled after completion |
| `ServerStates.FlagsSummariseHistory` | src/http_server_internal.hpp:86-122 | the flags are the number of signals so far and whether the shutdown is complete |
| `ServerStates.SignalsEscalateOnce` | src/http_server_internal.hpp:86-122 | over any run a drain is begun at most once and never after a force stop, and after a force stop later signals are ignored or fatal |
| `ServerStates.LaterReports` | src/http_server_internal.hpp:86-122 | once forced or completed nothing more is requested |
| `ServerLifecycle.HttpSession.Finish` | src/http_server.cpp:1256-1265 | a session leaves the server once, and whatever the server does in return keeps its invariant |
| `ServerLifecycle.HttpSession.Stop` | src/http_server.cpp:472-505 | a stopped session has always left the server |
| `ServerLifecycle.HttpSession.BeginDrain` | src/http_server.cpp:454-470 | a session waiting for a request leaves at once, any other stays in its phase and is marked |
| `ServerLifecycle.HttpServer.Start` | src/http_server.cpp:1370-1390 | a started server is awake; only an exception stops it instead |
| `ServerLifecycle.HttpServer.DriveAccept` | src/http_server.cpp:1500-1536 | afterwards a running server is awake, even if starting the accept threw |
| `ServerLifecycle.HttpServer.Join` | src/http_server.cpp:1558-1568 | a new session is counted by both states and the session set |
| `ServerLifecycle.HttpServer.OnAccept` | src/http_server.cpp:1538-1571 | an accept adds exactly one session, an error schedules one retry, and the server keeps running unless something throws; after running nothing changes |
| `ServerLifecycle.HttpServer.OnAcceptRetryTimer` | src/http_server.cpp:1573-1599 | a retry resumes accepting and changes nothing else unless something throws; its failure while running fails the runtime |
| `ServerLifecycle.HttpServer.RemoveSession` | src/http_server.cpp:1619-1647 | exactly one session leaves, counters follow, the last one completes a shutdown, and a freed place wakes the server |
| `ServerLifecycle.HttpServer.BeginDrain` | src/http_server.cpp:1457-1498 | a drain is graceful: unless something throws, a session survives it if and only if it was busy with a request, which it is left to finish; the drain is announced at once if none remains, and not before otherwise |
| `ServerLifecycle.HttpServer.DrainSessions` | src/http_server.cpp:1481-1489 | the loop over the snapshot closes exactly the waiting sessions and marks the others, although closing one may complete the drain in the middle of it |
| `ServerLifecycle.HttpServer.ForceStop` | src/http_server.cpp:1724-1747 | a forced drain completes at once and is announced once |
| `ServerLifecycle.HttpServer.ForceStopDrain` | src/http_server.cpp:1408-1436 | the second signal forces a drain and is ignored in every other phase |
| `ServerLifecycle.HttpServer.OnDrainTimer` | src/http_server.cpp:1709-1722 | the deadline ends a drain and is ignored in every other phase |
| `ServerLifecycle.HttpServer.Stop` | src/http_server.cpp:1438-1448 | an immediate stop empties the session set without an announcement |
| `ServerLifecycle.HttpServer.StopAllSessions` | src/http_server.cpp:1749-1756 | the loop ends, because every session in the set is unfinished and each stop removes one |
| `ServerLifecycle.HttpServer.FinishDrain` | src/http_server.cpp:1758-1785 | the drain callback is called once, and only for an enabled drain; it may stop the server again or throw |
| `ServerLifecycle.HttpServer.FailRuntime` | src/http_server.cpp:1817-1840 | the first failure stops everything and is reported once, later ones do nothing |
| `ServerLifecycle.HttpServer.OnSessionReads` | src/http_server.cpp:508-515 | a session of a draining server never reads another request, and any other does |
| `ServerLifecycle.HttpServer.OnSessionClosed` | src/http_server.cpp:1228-1265 | exactly that session leaves unless something throws, and the last one to leave a drain announces it |
| `ServerLifecycle.HttpServer.Serve` | src/http_server.cpp:1370-1785 | in every run, between handlers: counters equal the session set, connections plus the pending accept stay within the limit, a running server has an accept or retry pending or is full, phases only move forward, a claimed failure has been reported once, and a drain that nothing halted has been announced, once, exactly if no session is left |
| `Strings.SplitIsExact` | src/http_proxy.cpp:84-99 | splitting at a separator loses nothing and splits everywhere |
| `Strings.TokenIsTheTrimmedText` | src/http_proxy.cpp:62-71 | a token is the lowered text between surrounding blanks |
| `Routing.ValidatePrefix` | src/config.cpp:224-259 | a prefix is accepted if and only if it is the root or a slash followed by valid segments |
| `Routing.ValidateTable` | src/config.cpp:458-461 | a table is accepted if and only if all its prefixes are valid and distinct |
| `Routing.SegmentCharsAreUnreserved` | src/config.cpp:239-247 | the characters of a segment are the unreserved ones of section 2.3 of RFC 3986 |
| `Routing.SelectRoute` | src/http_handler.cpp:100-142 | the selected route has the longest segment-boundary prefix of the path, strictly longer than every other match; none is selected exactly when none matches or the request is not proxied |
| `Routing.ProxiedIff` | src/http_handler.cpp:103-117 | which requests are proxied, in terms of the target as it was received: method, body, upgrade, fragment, and the local paths with or without a query |
| `Routing.MatchingIsBySegments` | src/http_handler.cpp:129-130 | a prefix matches if and only if its segments begin the segments of the path |
| `Routing.MatchingAtTheEnds` | src/http_handler.cpp:129-130 | the root matches every rooted path, a path matches itself, and a prefix matches whatever continues it after a slash |
| `Routing.LongestMatchIsUnique` | src/http_handler.cpp:100-142 | there is only one such route |
| `Routing.SelectionIgnoresOrder` | src/http_handler.cpp:100-142 | the selected prefix is the same under every permutation of the table |
| `Routing.MatchingIgnoresOrder` | src/http_handler.cpp:100-142 | whether any route matches is the same under every permutation |
| `Routing.StrippingIsExact` | src/http_proxy.cpp:171-183 | stripping leaves a target that starts with a slash, the query unchanged and the path the exact suffix, or the root |
| `Routing.StrippingLosesNothing` | src/http_proxy.cpp:171-183 | the original target can be recovered from the prefix and the stripped target |
| `Routing.OtherwiseUnchanged` | src/http_proxy.cpp:171-183 | without stripping, and for the root or the single-upstream mode, the target is sent as it is |
| `HopByHop.ScanValue` | src/http_proxy.cpp:82-100 | the scan of one value finds exactly its trimmed, lowered, non-empty comma elements |
| `HopByHop.ConnectionTokens` | src/http_proxy.cpp:73-103 | the scanned set is exactly the tokens of all Connection fields |
| `HopByHop.TokensAreLowered` | src/http_proxy.cpp:73-103 | every token is lower case and not empty, so it can be compared with lowered names |
| `HopByHop.FilterIsTheKeptSubsequence` | src/http_proxy.cpp:186-198 | the filtered fields are the kept ones, each exactly once, in order and unchanged |
| `HopByHop.FilteredAreKept` | src/http_proxy.cpp:186-198 | a field survives if and only if it was there and is kept |
| `HopByHop.InsertKeepsGrouping` | src/http_proxy.cpp:184-198 | inserting next to equally named fields keeps them together |
| `HopByHop.CopyFields` | src/http_proxy.cpp:186-198 | copying by insertion does not reorder: it yields exactly the kept subsequence |
| `HopByHop.UpstreamFields` | src/http_proxy.cpp:184-208 | the request sent upstream carries exactly the fields that are neither hop-by-hop, nominated, rebuilt nor dropped, in order and unchanged, then the rebuilt Host, then Connection: close unless the connection is kept, then the length unless a GET has no body |
| `HopByHop.DownstreamFields` | src/http_proxy.cpp:212-231 | the same for the response header handed down, then the gateway's Server, then the Connection field that the client's version and wish call for |
| `HopByHop.ForwardedAreEndToEnd` | src/http_proxy.cpp:104-115 | every forwarded field was there, unchanged, and is neither fixed hop-by-hop nor nominated |
| `HopByHop.NeverForwarded` | src/http_proxy.cpp:104-115 | a field is forwarded if and only if it was there, no token nominates it, and its name is none of those written out |
| `HopByHop.PersistenceIsUnderstood` | src/http_proxy.cpp:199 | whoever reads the finished message, at either version, keeps the connection exactly if that was wished |

## Left out

- Sockets, DNS, TLS, Boost.Asio and Beast: they are an environment that completes started operations, may fail or throw at the places named in the model, and keeps the contracts stated in `ProxyExchange.Enabled`, `BufferBudget.ParserYields` and `ConnectionPool.Step`.
- JSON parsing of the route table, command line, logging, metrics, Docker and scripts: text and I/O around the protocols.
- API keys, fixed error bodies and status mapping: foreign cryptography, and branches settled by reading them.
- The transport stages of a probe (src/health_check.cpp:77-290): they end in one success or failure, which is an event here.
- The session's HTTP conversation (reading, keep-alive, the cap of 100 requests, response writing): only the phase that the drain protocol looks at, and the reservation of a request body, are kept.
- `stop_accepting` also stops the pool and the health checks; those stops are modelled where those objects are, not inside `ServerLifecycle`.
- HealthChecking.HealthChecks.Pump: clock readings stay below the last representable time; at that instant a slot would be due again at once.
- The protocol fields of the exchange are one value that the object replaces at each handler, not fields updated one by one; whether a connection is reusable is the environment's choice, and the bytes of a buffered body are not modelled.
- HopByHop.CopyFields: takes equally named fields to be adjacent, as the field container keeps them (`HopByHop.InsertKeepsGrouping`).
- HopByHop.DownstreamFields: the framing of the response body that is set after the header is built (src/http_proxy.cpp:237 and 659-679) is not modelled, and a length is a given text.
- Ownership across all exchanges is proved on values, with connections as numbers, so what a connection object does internally is not captured.
- Shutdown signals reach the server through application glue that is not part of this model.
