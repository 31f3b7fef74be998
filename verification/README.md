# Routiq, verified

A Dafny model of the stateful cores of Routiq, an API gateway with a control plane and an
auth service, with proofs about them. Each module follows one component:

- **Filter compiler and cursor** (`Sql`, `Filter`, `FilterMeaning`, `FilterSelects`, `FilterBuilder`,
  `Cursor`). Mongo-style filters become SQL text with numbered placeholders and one shared parameter
  array. The model emits tokens, reads them back with a recursive-descent reader that has
  SQL's precedence, and evaluates them in three-valued logic; the references are a direct
  denotation of the filter on a row, and a two-valued account of which rows certainly meet a
  filter, which certainly fail it, and which filters are refused. The cursor pages through a table by id.
- **Redis circuit breaker** (`EventRing`, `RollingWindow`, `Breaker`, `GuardedCalls`, `CallSignals`). A ring of
  one-second buckets stands in for an event log, histograms stand in for latencies, and a
  CLOSED / OPEN / HALF_OPEN machine guards calls whose timers and promises race.
- **Config distribution** (`ConfigStore`, `ConfigStream`, `StreamLosses`, `StreamOrder`, `EdgeSync`, `EdgeStream`,
  `Sse`, `SsePrint`, `StreamWire`, `Decimal`). Publishers bump a revision, append to a bounded ring and broadcast;
  a subscriber resumes from its Last-Event-ID; the edge fetches snapshots from several
  threads. All of these are steps of transition systems that interleave freely, down to the
  bytes of the event stream and how they are cut into reads.
- **Auth state at the edge** (`Revocation`, `TokenCache`, `TokenAnswers`). A snapshot built from index deltas, and
  a bounded least-recently-used cache of validated tokens.
- **Kernels** (`RateLimit`, `RateRace`, `RateRoom`, `Baseline`, `BaselineMeaning`, `Civil`). A 64-bit window counter under
  compare-and-exchange, a robust median over a ring, and civil dates from day counts.

Code that updates fields or buffers is a class or a method with loops, proved equal to a
function of the old state; the properties are then proved of that function, over every input
or every run. Clocks, randomness and the answers of databases and networks are arguments.
Steps that the original does under one lock or in one turn of its event loop are one step.
GET /config, POST /config and rollback are one step each.

Some things the code does are not what one would hope for. They are kept as they are, shown
by a concrete input, and bounded by an exact condition:

- `$not` with an object that holds `$size` drops the other operators of the object
  (`NotSizeDropsOperators`). Without a further `$not` inside, that does no harm on any database and
  row if and only if the other operators are the same `$size` or an empty `$nin`
  (`NotSizeExactlyWhen`). An empty member of `$or` or an empty operator object compiles to `()`, which
  is not SQL; the text is readable exactly without those (`WherePreservesMeaning`).
- Rollback publishes outside the store lock, so two publications can overlap and reach the ring
  out of order. An edge that resumes can then miss a revision, at once (`OverlapLosesRevision`) or
  long after, when eviction has left a hole (`EvictionLeavesHole`). `KeptExactlyWhen` says for every
  interleaving, edge and revision when it is told, and `RunSafeIff` when resuming is safe for all edges.
- Revocations are indexed by expiry, although the header comment of revocation.rs (line 11) says
  event time. A revocation that lapses more than a minute before the latest expiry already seen
  is never picked up (`ShortAfterLong`, `OverlookedForever`); `KeyAgreesIff` says for every run and key
  when the snapshot agrees with the index.
- A check that still carries the previous second, or a saturation write that arrives late, moves
  the rate-limit window back and so reopens the current second (`StaleCheckReopens`,
  `LateSaturationReopens`). `OverrunIff` says from which states a second can still go over the limit,
  and `AdmittedPerEntry` with `EntriesAreUsed` what windows that go back cost at most.
- A version floor published for the empty user id is demanded of a cached identity without a user
  id and not of a fresh one; `AcceptableIsAnswered` shows that this is the only way in which the
  cache refuses a token that a full validation accepts.
- The event stream does not carry every event: `RoundTripIff` says exactly which ones survive.

## Model

| member | source | states |
|---|---|---|
| `Sql.MeaningOfClauses` | uam-backend/src/db/filter.ts:157-191 | reading the text of clauses joined by AND gives the conjunction of their meanings, and fails exactly when one of them is unreadable |
| `Sql.ReadsClause` | uam-backend/src/db/filter.ts:20-158 | the printed form of any clause, followed by any text that can follow a primary, is read back as that clause: parentheses and NOT bind as intended |
| `FilterMeaning.WherePreservesMeaning` | uam-backend/src/db/filter.ts:160-191 | for any parameters before and after, the emitted text is readable exactly for filters without empty `$or` members or operator objects, and then has the filter's three-valued meaning on every row, unless a negated `$size` drops an operator that matters |
| `FilterSelects.SelectsExactlyWhen` | uam-backend/src/db/filter.ts:20-191 | the text of a readable, plain filter is true on exactly the rows that certainly meet the filter and false on exactly those that certainly fail it, each field read from the column it names and each operator from its own comparison |
| `FilterSelects.CompileFails` | uam-backend/src/db/filter.ts:20-191 | a filter is refused if and only if it has an unknown field or an unsupported operator that is compiled, with the message of the first one in document order |
| `FilterSelects.OperandDecided` | uam-backend/src/db/columns.ts:57-64 | a condition on a field is decided by the column the field names, the primary key for the id field, and by nothing else of the row |
| `FilterSelects.AmongIff` | uam-backend/src/db/filter.ts:20-158 | a list condition holds exactly when some item equals the cell and fails exactly when every item is known and different |
| `FilterMeaning.FilterEval` | uam-backend/src/db/filter.ts:160-191 | a whole filter's clauses evaluate to its denotation, whatever else is in the parameter array |
| `FilterMeaning.OperandMeaning` | uam-backend/src/db/filter.ts:20-50 | one field's clause means equality, containment or the operator object, at any parameter offset |
| `FilterMeaning.OpMeaning` | uam-backend/src/db/filter.ts:52-158 | each operator's clause means that operator on the cell, nulls included |
| `FilterMeaning.NotSizeExactlyWhen` | uam-backend/src/db/filter.ts:57-68 | a negated object with `$size: n` and no further `$not` compiles to the right condition for every database with lawful comparisons and every row if and only if each of its operators is `$size: n` or `$nin: []` |
| `FilterMeaning.WrongSomewhere` | uam-backend/src/db/filter.ts:57-68 | for any other operator beside `$size` there is such a database and a row on which the compiled condition is wrong |
| `FilterMeaning.NotSizeDropsOperators` | uam-backend/src/db/filter.ts:57-68 | a concrete filter on migrationHistory and a row on which the dropped operator changes the answer |
| `FilterMeaning.EachParameterOnce` | uam-backend/src/db/filter.ts:20-191 | the placeholders in the text are exactly the numbers of the pushed parameters, each once and in push order |
| `FilterBuilder.ParamList.Push` | uam-backend/src/db/filter.ts:29-49 | parameters are only appended, and the returned placeholder is the new length |
| `FilterBuilder.BuildExpr` | uam-backend/src/db/filter.ts:20-50 | the builder returns the text of the compiled clause, pushes exactly its parameters, and fails with the same error; even then earlier parameters are untouched |
| `FilterBuilder.BuildOperatorExpr` | uam-backend/src/db/filter.ts:52-158 | the same for an operator object, whose clauses are joined by AND |
| `FilterBuilder.BuildOps` | uam-backend/src/db/filter.ts:56-155 | the loop over the operators yields one text per operator in order, or the first error |
| `FilterBuilder.BuildOp` | uam-backend/src/db/filter.ts:57-155 | one operator's text and parameters, including the recursive negation |
| `FilterBuilder.BuildWhere` | uam-backend/src/db/filter.ts:160-191 | the whole where-clause is the compiled filter's text and its parameters are appended to those already there |
| `FilterBuilder.BuildEntry` | uam-backend/src/db/filter.ts:167-189 | one key of a filter contributes the clauses of its compilation |
| `FilterBuilder.BuildOrMembers` | uam-backend/src/db/filter.ts:168-178 | every member of `$or` is one parenthesised text, empty ones included |
| `FilterBuilder.BuildAndMembers` | uam-backend/src/db/filter.ts:180-186 | empty members of `$and` contribute nothing |
| `Cursor.Run` | uam-backend/src/db/User.ts:205-226 | the cursor fails exactly when the filter does not compile or is unreadable, and otherwise yields every selected row exactly once in id order; for plain filters these are the rows that certainly meet the filter; a filter that does not compile fails with the message of its first fault |
| `Cursor.Pages` | uam-backend/src/db/User.ts:210-225 | the paging loop ends and its pages concatenate to the sorted selection, for any table size |
| `Cursor.NthPage` | uam-backend/src/db/User.ts:211-224 | the page query with the last id bound to the extra placeholder returns the next 500 rows of the sorted selection |
| `Cursor.LaterMeaning` | uam-backend/src/db/User.ts:213-217 | adding the id condition selects exactly the rows after the last id that the filter selects |
| `Cursor.EvalIgnoresLater` | uam-backend/src/db/User.ts:211-214 | the extra parameter does not disturb the filter's placeholders |
| `Cursor.KeepSort` | uam-backend/src/db/User.ts:218-219 | filtering and ordering by id commute |
| `Cursor.SelectedIsDenoted` | uam-backend/src/db/User.ts:207-208 | for a plain readable filter the rows the text selects are the rows the filter denotes |
| `Cursor.SelectedMeets` | uam-backend/src/db/User.ts:205-226 | the rows that are kept are those of the table that certainly meet the filter |
| `EventRing.AggregateExact` | uam-backend/src/config/redisCircuitBreaker.ts:281-302 | under a clock that does not go back, an aggregate is the tally of the events of the last w seconds, plus those of second now-w exactly when nothing has been recorded in the current second |
| `EventRing.AggregateAfterRecord` | uam-backend/src/config/redisCircuitBreaker.ts:247-302 | right after a record it is the tally of exactly the last w seconds |
| `EventRing.SlotsExact` | uam-backend/src/config/redisCircuitBreaker.ts:247-258 | each slot holds the tally of the events of the latest second that was recorded in it |
| `EventRing.SlotIsRemainder` | uam-backend/src/config/redisCircuitBreaker.ts:249-249 | the slot of a second is its remainder by the ring size |
| `EventRing.Apart` | uam-backend/src/config/redisCircuitBreaker.ts:249-258 | two seconds that share a slot are at least a ring apart |
| `RollingWindow.BandBrackets` | uam-backend/src/config/redisCircuitBreaker.ts:263-269 | a latency is in a band at or below k exactly when it is at most bound k |
| `RollingWindow.FindBand` | uam-backend/src/config/redisCircuitBreaker.ts:263-269 | the search loop finds that band |
| `RollingWindow.PercentileUs` | uam-backend/src/config/redisCircuitBreaker.ts:325-336 | the cumulative loop returns the bound of the first band that covers the target, and 0 without samples |
| `RollingWindow.TargetIsCeiling` | uam-backend/src/config/redisCircuitBreaker.ts:325-327 | the rank looked for is the least whole number that is at least the percentage of the total |
| `RollingWindow.PercentileBrackets` | uam-backend/src/config/redisCircuitBreaker.ts:325-336 | the percentile is the bound of the band of the exact nearest-rank latency of the log, so below the open-ended last band it is not below it, and the next lower bound is |
| `RollingWindow.NearestRankExists` | uam-backend/src/config/redisCircuitBreaker.ts:325-327 | there is an exact nearest-rank latency for every rank in range |
| `RollingWindow.PercentileSound` | uam-backend/src/config/redisCircuitBreaker.ts:325-336 | for every log with events and every percentage in 1..100 there is an exact percentile, and the value read off the histogram is the bound of its band |
| `RollingWindow.PercentileMonotone` | uam-backend/src/config/redisCircuitBreaker.ts:325-336 | a higher percentage never gives a lower percentile |
| `RollingWindow.SummaryConsistent` | uam-backend/src/config/redisCircuitBreaker.ts:247-279 | the bands of a tally add up to its total, the number of events, and errors plus timeouts do not exceed it |
| `RollingWindow.OutcomesCounted` | uam-backend/src/config/redisCircuitBreaker.ts:260-278 | the errors and timeouts of a tally are the numbers of such events in the log |
| `RollingWindow.CoveredCounts` | uam-backend/src/config/redisCircuitBreaker.ts:263-270 | the first k bands count exactly the events in them |
| `RollingWindow.TallyLawful` | uam-backend/src/config/redisCircuitBreaker.ts:260-300 | adding histograms commutes with recording, which is what the ring refinement needs |
| `RollingWindow.RingSize` | uam-backend/src/config/redisCircuitBreaker.ts:231-233 | the ring has between 1 and 64 slots, and the requested number if that is in range |
| `RollingWindow.Window.RecordEvent` | uam-backend/src/config/redisCircuitBreaker.ts:247-279 | recording in place resets a stale bucket and counts the event in its own |
| `RollingWindow.Window.AggregateWindow` | uam-backend/src/config/redisCircuitBreaker.ts:281-302 | the aggregate loop adds up exactly the buckets in the window |
| `Breaker.Clamp` | uam-backend/src/config/redisCircuitBreaker.ts:150-195 | every configuration comes out within the safe ranges, recovery within the probe budget included, and one already in range is unchanged |
| `Breaker.ClampNearest` | uam-backend/src/config/redisCircuitBreaker.ts:150-195 | each setting goes to the nearest value of its range, and the recovery target to no more than the probe budget |
| `Breaker.JudgementsMean` | uam-backend/src/config/redisCircuitBreaker.ts:476-555 | a window is degraded exactly when it has enough events and too large a share of errors or of timeouts, or its exact 99th percentile lies in too high a band; recovered exactly when the share of errors and the band are low enough |
| `Breaker.CircuitBreaker.constructor` | uam-backend/src/config/redisCircuitBreaker.ts:364-367 | a new breaker is CLOSED, with the clamped configuration and an empty ring |
| `Breaker.CircuitBreaker.TryAcquire` | uam-backend/src/config/redisCircuitBreaker.ts:409-437 | an acquire takes the step of the machine from the old state, verdict included, and leaves the ring alone |
| `Breaker.CircuitBreaker.TryAcquireHalfOpen` | uam-backend/src/config/redisCircuitBreaker.ts:439-463 | the probing half of an acquire, with its deadline, budget and concurrency bound |
| `Breaker.CircuitBreaker.TripOpen` | uam-backend/src/config/redisCircuitBreaker.ts:557-573 | a trip sets time and jittered cooldown only if the breaker is not OPEN already |
| `Breaker.CircuitBreaker.CheckStatisticalOpen` | uam-backend/src/config/redisCircuitBreaker.ts:537-555 | trips exactly when the window is degraded |
| `Breaker.CircuitBreaker.ReleaseCall` | uam-backend/src/config/redisCircuitBreaker.ts:466-534 | a release records the event and takes the machine's step for its outcome |
| `Breaker.CircuitBreaker.ReleaseSuccess` | uam-backend/src/config/redisCircuitBreaker.ts:471-495 | a success clears the failure runs, and closes a probing breaker that has earned it |
| `Breaker.CircuitBreaker.ReleaseTimeout` | uam-backend/src/config/redisCircuitBreaker.ts:497-515 | a timeout counts towards both runs, and not as an error |
| `Breaker.CircuitBreaker.ReleaseError` | uam-backend/src/config/redisCircuitBreaker.ts:517-531 | an error counts towards the failure run |
| `GuardedCalls.EveryRunGood` | uam-backend/src/config/redisCircuitBreaker.ts:409-658 | in every run, for any order of timers, resolutions and rejections: each admitted call is released exactly once; acquires = rejected + requests + in flight; requests = successes + errors + timeouts, each the number of such releases in the log; every trip but an open one was followed by a HALF_OPEN episode; 0 <= in flight <= max(maxInflight, halfOpenProbes); while CLOSED the trailing failures and timeouts are below their thresholds; a HALF_OPEN episode stays within its probe budget and has seen only successes |
| `GuardedCalls.StepGood` | uam-backend/src/config/redisCircuitBreaker.ts:409-658 | every single step keeps all of that |
| `GuardedCalls.GuardNeverActs` | uam-backend/src/config/redisCircuitBreaker.ts:467-467 | a release always has a slot to free, so the guard against a negative count never acts |
| `GuardedCalls.VerdictReasons` | uam-backend/src/config/redisCircuitBreaker.ts:409-463 | each verdict exactly when its reason holds: concurrency at the limit of the state, circuit-open while cooling, past the probing deadline or out of probes, and otherwise admitted |
| `GuardedCalls.NoAdmissionWhileCooling` | uam-backend/src/config/redisCircuitBreaker.ts:419-434 | between a trip and openedAt + cooldown no call is admitted, the breaker stays OPEN, and stragglers that settle do not move the deadline |
| `GuardedCalls.ProbeWithinBound` | uam-backend/src/config/redisCircuitBreaker.ts:409-463 | from every good non-CLOSED state with nothing in flight, acquires at the deadlines get a probe admitted, by the second one, within halfOpenMaxMs + openCooldownMs + cooldownJitterMs |
| `GuardedCalls.NeverWedges` | uam-backend/src/config/redisCircuitBreaker.ts:409-463 | that holds in every reachable state of every configuration |
| `GuardedCalls.JudgesLastSeconds` | uam-backend/src/config/redisCircuitBreaker.ts:466-555 | after a release the detector judges exactly the events of the last windowSecs seconds of the log |
| `GuardedCalls.OpensExactlyWhen` | uam-backend/src/config/redisCircuitBreaker.ts:497-555 | a release while CLOSED opens the circuit if and only if a trailing run of the log reaches its threshold or those events are degraded |
| `GuardedCalls.RunOpensExactlyWhen` | uam-backend/src/config/redisCircuitBreaker.ts:497-555 | the same for every run of every configuration with the breaker's own detector |
| `GuardedCalls.RecoveryEarned` | uam-backend/src/config/redisCircuitBreaker.ts:476-490 | an episode that ends in CLOSED saw only successes, at least recoverySuccesses of them, within its budget, and a recovered window |
| `GuardedCalls.OnlyWayOut` | uam-backend/src/config/redisCircuitBreaker.ts:409-573 | only a release closes a probing breaker, and only an acquire after the cooldown leaves OPEN |
| `GuardedCalls.ClosesExactlyWhen` | uam-backend/src/config/redisCircuitBreaker.ts:471-531 | a release while HALF_OPEN closes the circuit if and only if the call resolved, the episode has then seen recoverySuccesses outcomes and the last windowSecs seconds of the log are recovered; it reopens the circuit if and only if the call did not resolve |
| `GuardedCalls.RunClosesExactlyWhen` | uam-backend/src/config/redisCircuitBreaker.ts:471-531 | the same for every run of every configuration with the breaker's own detector |
| `GuardedCalls.TripSetsDeadline` | uam-backend/src/config/redisCircuitBreaker.ts:557-573 | whatever step opens the circuit, its cooldown starts then, for the configured time and the jitter drawn |
| `GuardedCalls.StragglersIgnored` | uam-backend/src/config/redisCircuitBreaker.ts:557-573 | a call that settles while OPEN neither closes the circuit nor moves its deadline |
| `CallSignals.TotalsCountSignals` | uam-backend/src/config/redisCircuitBreaker.ts:613-658 | in every run timeoutsTotal counts the calls whose first signal was the timer or a rejection that looks like a timeout, errorsTotal those rejected otherwise, successTotal those that resolved |
| `CallSignals.ClosedMeansFewFailures` | uam-backend/src/config/redisCircuitBreaker.ts:497-531 | while CLOSED fewer than consecutiveTimeoutOpen calls have timed out, and fewer than consecutiveFailOpen have failed in any way, since the last one that resolved |
| `CallSignals.TimersOpen` | uam-backend/src/config/redisCircuitBreaker.ts:643-643 | consecutiveTimeoutOpen timers that fire in a row leave a CLOSED breaker OPEN, whatever came before |
| `ConfigStore.Store.PushSnapshot` | gateway-control-plane/src/main.rs:155-160 | a push appends and drops the oldest snapshot beyond the limit |
| `ConfigStore.Store.PopSnapshot` | gateway-control-plane/src/main.rs:162-168 | a pop drops the newest snapshot unless it is the only one |
| `ConfigStore.PushAllKeepsLast` | gateway-control-plane/src/main.rs:155-160 | any number of pushes keeps the most recent snapshots, as many as fit, and at least one |
| `ConfigStore.RollbackUndoes` | gateway-control-plane/src/main.rs:155-172 | as many rollbacks as pushes bring back the old snapshot exactly while it is retained, and otherwise stop at the oldest one kept |
| `ConfigStream.SelectCompleteIff` | gateway-control-plane/src/main.rs:229-254 | replay leaves out no event that is still in the ring, for every Last-Event-ID, if and only if the ring ends in its largest revision |
| `ConfigStream.OutOfOrderRing` | gateway-control-plane/src/main.rs:229-254 | a ring appended out of order on which a resuming edge is told nothing |
| `ConfigStream.BridgesIff` | gateway-control-plane/src/main.rs:229-254 | on a ring without holes every revision of the gap is replayed or declared stale, unless the edge has no revision and entries were evicted |
| `ConfigStream.SelectIsGap` | gateway-control-plane/src/main.rs:229-254 | on a ring without holes the replay is exactly the end of the ring after the edge's revision, in order, or a stale frame alone when the gap starts before the ring |
| `ConfigStream.CapTruncates` | gateway-control-plane/src/main.rs:246-253 | a smaller cap cuts off the end of the replay, and then the edge is told that it is stale |
| `ConfigStream.Hub.PublishRevision` | gateway-control-plane/src/main.rs:274-286 | an uninterrupted publication is bump, append with eviction, broadcast, in this order |
| `ConfigStream.Hub.Resume` | gateway-control-plane/src/main.rs:661-702 | a connection subscribes first and then replays |
| `ConfigStream.Hub.Pump` | gateway-control-plane/src/main.rs:706-729 | one turn of the pump forwards one broadcast, or a stale frame if the receiver lagged |
| `ConfigStream.RingStep` | gateway-control-plane/src/main.rs:274-286 | with appends in order the ring is a block of consecutive revisions, and exactly the later ones have not been appended |
| `ConfigStream.ReplayCovers` | gateway-control-plane/src/main.rs:661-702 | at replay every revision after the Last-Event-ID is sent, covered by a stale frame, or not broadcast yet |
| `ConfigStream.NoRevisionLost` | gateway-control-plane/src/main.rs:229-286 | with appends in order, each revision after a Last-Event-ID of at least 1 has been sent, is covered by a stale frame, or is on its way, evictions and lagging included; once nothing is on its way all have been sent or covered |
| `ConfigStream.BacklogTellsAll` | gateway-control-plane/src/main.rs:706-729 | when publishers are idle, working off the backlog tells the edge about every revision |
| `ConfigStream.FramesAreReal` | gateway-control-plane/src/main.rs:274-286 | in every interleaving, in order or not, frames name only published revisions |
| `ConfigStream.SerialisedIsOrdered` | gateway-control-plane/src/main.rs:827-832 | publishers that run one at a time append in order |
| `ConfigStream.OverlapLosesRevision` | gateway-control-plane/src/main.rs:856-867 | two overlapping publications and an edge that resumes at the smaller one: everything is quiet and a revision was never told |
| `StreamLosses.ReplayToldIff` | gateway-control-plane/src/main.rs:229-254 | a replay tells a revision, or covers it by a stale frame, if and only if the edge is behind the ring's last entry and the revision is in the ring or the gap starts before the ring |
| `StreamLosses.KeptExactlyWhen` | gateway-control-plane/src/main.rs:661-729 | in every interleaving, appends in order or not, an edge that stays connected is told a revision, or still will be, if and only if it was published later, was on its way at the replay, was answered by the ring, or the receiver overflowed since |
| `StreamLosses.RunKeptExactlyWhen` | gateway-control-plane/src/main.rs:229-286 | the same for every run of the control plane |
| `StreamLosses.ResumeSafeIff` | gateway-control-plane/src/main.rs:229-286 | resuming at any revision is safe if and only if every revision no longer on its way is below the ring or in it and not beyond its last entry |
| `StreamLosses.RunSafeIff` | gateway-control-plane/src/main.rs:229-286 | the same in every reachable state of every interleaving |
| `StreamLosses.QuietSafeIff` | gateway-control-plane/src/main.rs:229-286 | between publications: if and only if the ring ends in the current revision and holds every revision from its first on |
| `StreamLosses.EvictionLeavesHole` | gateway-control-plane/src/main.rs:274-286 | a run after which the ring ends in its largest revision and a resuming edge is still never told one that was evicted out of order |
| `StreamOrder.LiveInOrder` | gateway-control-plane/src/main.rs:706-729 | in every interleaving the frames sent after the replay, followed by the queue, are exactly the revisions broadcast since the subscription, in broadcast order; a receiver that fell off the buffer has its last stale frame followed by an end of the broadcasts, in order |
| `StreamOrder.RunOrder` | gateway-control-plane/src/main.rs:706-729 | every run keeps that order, from any point of a live connection on |
| `StreamOrder.SerialisedIncreases` | gateway-control-plane/src/main.rs:274-286 | publishers that take turns broadcast strictly increasing revisions |
| `StreamOrder.SerialisedLiveIncreases` | gateway-control-plane/src/main.rs:706-729 | so the live frames, followed by the queue, are strictly increasing then, whether or not the receiver fell off the buffer |
| `EdgeSync.ValidatesIff` | gateway-edge/config-sidecar/src/main.rs:61-81 | a snapshot of the control plane validates exactly when it has a version, routes and services, and then yields its revision |
| `EdgeSync.SnapshotValidatesIff` | gateway-edge/config-sidecar/src/main.rs:61-81 | any body, whichever fields it lacks, validates exactly when it has a non-empty version, a route and a service, and then stands for its revision or for 0 |
| `EdgeSync.SyncAgent.FetchAndApply` | gateway-edge/config-sidecar/src/main.rs:117-172 | a fetch activates the snapshot exactly when it validates, is newer and is written; every failure leaves revision, version and file as they were, and the result says which happened |
| `EdgeSync.SyncAgent.Reconcile` | gateway-edge/config-sidecar/src/main.rs:175-217 | a snapshot is fetched exactly when the control plane's revision differs from the edge's, with or without a 304 |
| `EdgeSync.ActivateLowersIff` | gateway-edge/config-sidecar/src/main.rs:148-163 | an activation lowers the revision exactly when a server without revisions sends another version |
| `EdgeSync.ETagInjective` | gateway-control-plane/src/main.rs:556-558 | entity tags are equal exactly when revisions are |
| `EdgeSync.StepGood` | gateway-edge/config-sidecar/src/main.rs:117-217 | every step keeps the file genuine and does not lower the edge's revision |
| `EdgeSync.NeverRegresses` | gateway-edge/config-sidecar/src/main.rs:147-163 | however the requests of any number of threads overlap, the edge's revision never decreases |
| `EdgeSync.FileIsItsRevision` | gateway-edge/config-sidecar/src/main.rs:141-163 | in every run the file is the validated content of exactly the revision the edge believes in |
| `EdgeSync.NotModifiedMeansInSync` | gateway-control-plane/src/main.rs:577-598 | a 304 to a version check, however long it was under way, means the file equals the live config |
| `EdgeSync.OneFetchConverges` | gateway-edge/config-sidecar/src/main.rs:117-172 | after the last mutation one fetch whose write succeeds puts the edge in sync for the rest of the run if and only if the live config validates, whatever other threads do |
| `EdgeSync.RollbackRestoresIff` | gateway-control-plane/src/main.rs:846-867 | post then rollback publishes two revisions, and the last carries the old content exactly when the store still held it or nothing changed |
| `EdgeStream.StreamConvergesIff` | gateway-edge/config-sidecar/src/main.rs:221-329 | in every run, with invalid configs, lost answers, failed writes and appends out of order, once the stream has settled the edge holds exactly the live config if and only if it has got past the last revision that this connection was not told about or whose fetch did not take effect |
| `EdgeStream.StreamConverges` | gateway-edge/config-sidecar/src/main.rs:221-329 | when appends are in order, configs valid and the stream thread's fetches succeed, there is no such revision and a settled edge is in sync |
| `EdgeStream.StepGood` | gateway-edge/config-sidecar/src/main.rs:273-324 | every step keeps each revision at the edge, in the fetch under way, noted as missed, in an unhandled frame, or on its way |
| `EdgeStream.IgnoreFollows` | gateway-edge/config-sidecar/src/sse.rs:39-45 | a frame the edge ignores announces nothing it lacks |
| `EdgeStream.DispatchFetchesIff` | gateway-edge/config-sidecar/src/main.rs:273-324 | the next frame starts a fetch exactly if it is a stale frame or names a revision above the edge's |
| `Decimal.ParsePrinted` | gateway-edge/config-sidecar/src/sse.rs:67-71 | parsing the decimal form of a 64-bit number gives it back |
| `Decimal.ParsesIff` | gateway-edge/config-sidecar/src/sse.rs:67-71 | a text parses to a number exactly if it is digits of that value, with at most one plus sign before them |
| `Decimal.DigitsInjective` | gateway-control-plane/src/main.rs:556-558 | different numbers print differently |
| `Sse.FrameEndTerminates` | gateway-edge/config-sidecar/src/sse.rs:100-109 | the end of a frame is the end of an LF or CRLF terminator, at least two characters in |
| `Sse.FrameEndLeast` | gateway-edge/config-sidecar/src/sse.rs:100-109 | no terminator ends earlier |
| `Sse.ParseBlock` | gateway-edge/config-sidecar/src/sse.rs:47-96 | the line loop computes the fold of the lines into id, event and data |
| `Sse.CommentsIgnored` | gateway-edge/config-sidecar/src/sse.rs:58-60 | a comment line anywhere in a frame changes nothing |
| `Sse.FieldEffect` | gateway-edge/config-sidecar/src/sse.rs:54-83 | a line that gives a field a value changes that field alone; data accumulates and an unusable id or an empty event name is ignored |
| `Sse.SilentLine` | gateway-edge/config-sidecar/src/sse.rs:54-61 | a line that gives no field a value does nothing |
| `Sse.LastWins` | gateway-edge/config-sidecar/src/sse.rs:66-77 | the last usable id and the last usable event name of a frame are the ones that count |
| `Sse.FrameBuffer.DrainFrames` | gateway-edge/config-sidecar/src/sse.rs:113-126 | draining in place yields the events of all complete frames, keeps the tail, and terminates |
| `Sse.FrameBuffer.Receive` | gateway-edge/config-sidecar/src/main.rs:268-273 | one read appends to the buffer and drains it |
| `Sse.ChunkIndependent` | gateway-edge/config-sidecar/src/sse.rs:100-126 | draining s and then its tail with t gives the events and the tail of draining s + t |
| `Sse.AnyChunking` | gateway-edge/config-sidecar/src/sse.rs:100-126 | so does any way of cutting a stream into reads |
| `SsePrint.SseFrame` | gateway-control-plane/src/main.rs:600-611 | the growing string is the frame's lines: id if there is one, event, one data line per line of the data, and a blank line |
| `SsePrint.PrintedText` | gateway-control-plane/src/main.rs:600-611 | the text of an event with one line of data, character by character |
| `SsePrint.FirstBlank` | gateway-edge/config-sidecar/src/sse.rs:100-109 | a printed frame ends at its own blank line, whatever follows |
| `SsePrint.LinesOfBlock` | gateway-edge/config-sidecar/src/sse.rs:47-54 | trimming a printed frame and cutting it into lines gives its lines back, up to carriage returns |
| `SsePrint.DecodedIff` | gateway-edge/config-sidecar/src/sse.rs:47-96 | what is decoded from a printed event is the event exactly when its name and data survive trimming |
| `SsePrint.DataKept` | gateway-edge/config-sidecar/src/sse.rs:62-94 | data comes back exactly when no line starts with white space or ends with a carriage return and there is no trailing newline |
| `SsePrint.RoundTripIff` | gateway-control-plane/src/main.rs:600-611 | printing an event and reading it back gives exactly that event if and only if its name is non-empty, on one line and trimmed, its data is clean, and it is not an empty default message |
| `SsePrint.StreamRoundTrip` | gateway-control-plane/src/main.rs:600-621 | any number of such frames, concatenated, read back in order with an empty tail |
| `StreamWire.RetryIsSilent` | gateway-control-plane/src/main.rs:691-691 | the reconnect hint at the head of a stream yields no event and disturbs nothing after it |
| `StreamWire.NoticeIsMeant` | gateway-edge/config-sidecar/src/main.rs:273-324 | a change, a stale notice and a heartbeat are dispatched as such, a change with its revision |
| `StreamWire.IdBeforeBody` | gateway-edge/config-sidecar/src/main.rs:293-302 | the revision of a change is its id, or without one that in its body, or 0 |
| `StreamWire.WireCarries` | gateway-edge/config-sidecar/src/main.rs:255-326 | however the bytes of a stream are cut into reads, the edge acts on exactly the messages sent, in order |
| `Revocation.SnapshotSync.SyncOnce` | gateway-edge/rust-ext/src/revocation.rs:241-365 | a cycle merges the deltas into the unexpired entries and the floors, raises both watermarks and counts a generation, as the cycle step of the transition system does; a failed one changes nothing |
| `Revocation.MergeRevoked` | gateway-edge/rust-ext/src/revocation.rs:319-325 | the loop inserts every member of the delta and ends with the largest score |
| `Revocation.FetchFloors` | gateway-edge/rust-ext/src/revocation.rs:281-302 | the chunked lookup answers for every changed user |
| `Revocation.MergeFloors` | gateway-edge/rust-ext/src/revocation.rs:334-345 | a fetched floor replaces the old one and a deleted one removes it |
| `Revocation.CycleAgreesIff` | gateway-edge/rust-ext/src/revocation.rs:250-325 | after a cycle the snapshot agrees with the index on a key if and only if the range reached the key or it agreed before |
| `Revocation.MarkIsMax` | gateway-edge/rust-ext/src/revocation.rs:319-355 | the watermark after a cycle is the largest score seen so far |
| `Revocation.CycleRaisesMarks` | gateway-edge/rust-ext/src/revocation.rs:319-355 | every successful cycle raises both watermarks so |
| `Revocation.IsRevokedIff` | gateway-edge/rust-ext/src/revocation.rs:76-90 | a token is revoked exactly when an unexpired entry is held under one of its revocation keys |
| `Revocation.RedeliveryIdempotent` | gateway-edge/rust-ext/src/revocation.rs:171-173 | delivering a delta again changes nothing |
| `Revocation.CollectKeepsUnexpired` | gateway-edge/rust-ext/src/revocation.rs:357-362 | index cleanup removes exactly the entries that expired an hour ago or earlier, so no unexpired one |
| `Revocation.StepGood` | gateway-edge/rust-ext/src/revocation.rs:241-365 | publications of any score, failed cycles, successful cycles and the clock all keep every key out of reach, within reach of the next cycle, or in agreement |
| `Revocation.KeyAgreesIff` | gateway-edge/rust-ext/src/revocation.rs:241-365 | in every run, whatever is published, after a successful cycle the snapshot agrees with the index on a key if and only if the key's latest publication was within the overlap or they agreed already |
| `Revocation.FloorAgreesIff` | gateway-edge/rust-ext/src/revocation.rs:265-345 | the same for the version floor of a user |
| `Revocation.NextCycleSees` | gateway-edge/rust-ext/src/revocation.rs:250-263 | in every run a revocation published now is seen by the next successful cycle if and only if its expiry is at most 60 seconds below the watermark or the snapshot agreed with it already |
| `Revocation.NextCycleSeesFloor` | gateway-edge/rust-ext/src/revocation.rs:265-345 | the same for a version floor, within 60,000 milliseconds |
| `Revocation.DeltaEqualsRebuild` | gateway-edge/rust-ext/src/revocation.rs:241-365 | when every key's latest publication was within the overlap and a successful cycle has followed, the unexpired part of the snapshot is what a full rebuild from the index gives, and likewise the floors are those published |
| `Revocation.VerdictIsTheIndex` | gateway-edge/rust-ext/src/revocation.rs:76-90 | in every run, a token whose own keys are not waiting for a cycle or below the overlap is rejected exactly when the index has an unexpired entry under one of them, whatever became of other keys |
| `Revocation.OverlookedForever` | gateway-edge/rust-ext/src/revocation.rs:250-263 | a revocation below the overlap when published is not picked up by any later cycle |
| `Revocation.ShortAfterLong` | gateway-edge/rust-ext/src/revocation.rs:250-263 | a concrete run of a new worker that leaves an unexpired revocation of that kind out |
| `TokenCache.EffectiveCacheExpiry` | gateway-edge/rust-ext/src/auth.rs:116-118 | an entry lives until the token's expiry or the TTL, whichever is earlier, without overflow |
| `TokenCache.AcceptsExactlyWhen` | gateway-edge/rust-ext/src/auth.rs:242-352 | a full validation accepts exactly the tokens that are verified, in time, addressed to this gateway, under no revocation key, at their user's version floor and free of line breaks |
| `TokenCache.Validator.ValidateToken` | gateway-edge/rust-ext/src/auth.rs:214-370 | the header, the stale-snapshot guard, the cache and the full validation, in the source's order, decide both the answer and the new cache |
| `TokenCache.BearerOnly` | gateway-edge/rust-ext/src/auth.rs:215-215 | the token is what follows the scheme in the header, and a header without the scheme has none |
| `TokenAnswers.AnswersExactlyWhen` | gateway-edge/rust-ext/src/auth.rs:214-370 | after every run a call returns an identity if and only if it passes the stale-snapshot guard, the identity is the one in the token's claims, and either a grant of the token is cached and unexpired and its version is the user's floor, or no such grant is cached and the token meets the conditions of a full validation |
| `TokenAnswers.AcceptableIsAnswered` | gateway-edge/rust-ext/src/auth.rs:226-240 | after every run a call that passes the guard returns the identity of every token that a full validation accepts, except a cached one without user id under another floor for the empty id |
| `TokenAnswers.OthersKept` | gateway-edge/rust-ext/src/auth.rs:226-367 | a call drops an entry of another token exactly when it caches a new token in a full cache and the entry is the least recently used; a guarded call changes nothing |
| `TokenAnswers.MostRecentFirst` | gateway-edge/rust-ext/src/auth.rs:81-84 | after every run the cache lists its tokens in the order of their last use |
| `TokenCache.StepGood` | gateway-edge/rust-ext/src/auth.rs:214-370 | every call keeps each cached entry backed by a full validation of the same token |
| `TokenCache.BoundedStaleness` | gateway-edge/rust-ext/src/auth.rs:226-240 | whenever a call at t returns an identity, a full validation of the same token at some t0 in (t - TTL, t] returned it, t is before exp (section 4.1.4 of RFC 7519), the version is the floor published for a named user at t, and with fail-closed the snapshot is fresh |
| `TokenCache.RevocationTakesEffect` | gateway-edge/rust-ext/src/auth.rs:320-323 | a token that every call from time r on sees revoked is rejected at every t >= r + TTL, whatever was cached or evicted |
| `TokenCache.RejectedIsForgotten` | gateway-edge/rust-ext/src/auth.rs:226-240 | a rejected token is no longer cached, and an accepted one is the most recent entry |
| `TokenCache.CacheBounded` | gateway-edge/rust-ext/src/auth.rs:81-84 | after any call the cache has one entry per token and at most 8192 |
| `TokenCache.PutEvictsLast` | gateway-edge/rust-ext/src/auth.rs:357-367 | a new token goes to the front and only the least recently used entry of a full cache makes room |
| `RateLimit.SaturationFits` | gateway-edge/rust-ext/src/rate_limit.rs:290-290 | the saturation word keeps second and count apart if and only if the limit is below 2^32 - 1 |
| `RateLimit.Bucket.CheckRateLimit` | gateway-edge/rust-ext/src/rate_limit.rs:331-368 | the retry loop, with any writes of other threads in between, decides and writes as the race from the last word it saw |
| `RateLimit.RaceOutcome` | gateway-edge/rust-ext/src/rate_limit.rs:349-368 | an admitted check leaves its own second with a count it was entitled to, and a refused one saw that second used up |
| `RateRace.CheckIsRun` | gateway-edge/rust-ext/src/rate_limit.rs:331-368 | the verdict and the word of a check are those of a run of the transition system: begin, an exchange that fails on each word others put in its way, and a last try; being admitted is exactly one admission on the log |
| `RateRace.CheckCounts` | gateway-edge/rust-ext/src/rate_limit.rs:349-368 | a check is admitted exactly when the word it was decided on is of another second or below the limit, and then leaves that count plus one, or one in a new second |
| `RateRace.WritesOnlyOverLoaded` | gateway-edge/rust-ext/src/rate_limit.rs:365-368 | the word changes only by an exchange over the very word its thread had loaded |
| `RateRace.FailedExchangeReloads` | gateway-edge/rust-ext/src/rate_limit.rs:365-368 | a check whose exchange fails, if only spuriously, writes nothing and goes on with the word as it is now |
| `RateRace.SaturationWrites` | gateway-edge/rust-ext/src/rate_limit.rs:284-297 | a saturation write is attempted once and puts one more than the limit into its second if the word has not changed since its load |
| `RateLimit.AdmittedPerEntry` | gateway-edge/rust-ext/src/rate_limit.rs:284-368 | in every interleaving a second admits at most the limit times the number of times the word entered it |
| `RateRoom.AtMostRoom` | gateway-edge/rust-ext/src/rate_limit.rs:284-368 | from any state, a continuation whose windows do not go back admits at most the room that the word leaves of a second |
| `RateRoom.RoomIsReached` | gateway-edge/rust-ext/src/rate_limit.rs:331-368 | and some such continuation admits exactly that many |
| `RateRoom.OverrunIff` | gateway-edge/rust-ext/src/rate_limit.rs:284-368 | so a second can still go over the limit without a further window going back if and only if what it has admitted and what the word leaves of it exceed the limit together |
| `RateRoom.AtMostLimit` | gateway-edge/rust-ext/src/rate_limit.rs:331-368 | a bucket whose committed windows never go back admits no more than the limit in any second |
| `RateRoom.EntriesAreUsed` | gateway-edge/rust-ext/src/rate_limit.rs:284-368 | the limit for each entry is reached: for every number of entries some run admits exactly the limit times that number |
| `RateLimit.RefusedOnlyWhenFull` | gateway-edge/rust-ext/src/rate_limit.rs:353-368 | without saturation writes a check is refused only when its second has admitted the whole limit, in every interleaving |
| `RateRoom.UsedUpStays` | gateway-edge/rust-ext/src/rate_limit.rs:356-358 | once a second is used up it admits nothing more as long as windows do not go back |
| `RateRoom.SaturationUsesUp` | gateway-edge/rust-ext/src/rate_limit.rs:284-297 | a saturation write for the current second uses it up |
| `RateLimit.StaleCheckReopens` | gateway-edge/rust-ext/src/rate_limit.rs:345-368 | with a limit of 1, a check that carries the previous second lets a second call through |
| `RateLimit.LateSaturationReopens` | gateway-edge/rust-ext/src/rate_limit.rs:284-297 | so does a saturation write that arrives after its second |
| `Baseline.MadBaseline.constructor` | gateway-edge/rust-ext/src/baselines.rs:29-31 | a new baseline has seen nothing |
| `Baseline.MadBaseline.Observe` | gateway-edge/rust-ext/src/baselines.rs:33-37 | writing at the index and wrapping keeps the ring in step with the log |
| `Baseline.MadBaseline.Rotation` | gateway-edge/rust-ext/src/baselines.rs:33-37 | the filled part of the ring is the last min(n, 256) observations, turned round, and so equal as a multiset |
| `Baseline.MadBaseline.Median` | gateway-edge/rust-ext/src/baselines.rs:48-61 | the median is that of the last observations in any order |
| `Baseline.MadBaseline.Mad` | gateway-edge/rust-ext/src/baselines.rs:64-81 | so is the median absolute deviation |
| `Baseline.MadBaseline.CheckAnomaly` | gateway-edge/rust-ext/src/baselines.rs:88-101 | the trigger depends only on the last observations |
| `Baseline.PickMedian` | gateway-edge/rust-ext/src/baselines.rs:54-60 | sorting a copy and taking the middle gives the median |
| `Baseline.TurnedSame` | gateway-edge/rust-ext/src/baselines.rs:48-81 | turning the observations round changes neither statistic |
| `Baseline.MedianInMajority` | gateway-edge/rust-ext/src/baselines.rs:48-61 | the median lies in every interval that holds more than half of the values |
| `Baseline.MedianBreakdown` | gateway-edge/rust-ext/src/baselines.rs:48-61 | replacing fewer than half of the values by anything keeps the median between the extremes of the rest |
| `Baseline.MadBreakdown` | gateway-edge/rust-ext/src/baselines.rs:64-81 | and the deviation within their range |
| `Baseline.HalfBreaks` | gateway-edge/rust-ext/src/baselines.rs:48-61 | half is enough: for every even size it moves the median to any height |
| `Baseline.SpikeStillDetected` | gateway-edge/rust-ext/src/baselines.rs:88-101 | a minority of poisoned observations cannot hide a spike that clears the honest range |
| `Baseline.LowValueNotFlagged` | gateway-edge/rust-ext/src/baselines.rs:88-101 | nor make it flag a value no higher than every honest one |
| `BaselineMeaning.MedianIsCentre` | gateway-edge/rust-ext/src/baselines.rs:48-61 | the median is the centre of the points that have at least half of the values on either side |
| `BaselineMeaning.MadIsCentre` | gateway-edge/rust-ext/src/baselines.rs:64-81 | the deviation is the same for the distances from the median |
| `BaselineMeaning.NotFiniteIgnored` | gateway-edge/rust-ext/src/baselines.rs:48-61 | an observation that is not a finite number leaves the statistics alone, wherever it is |
| `BaselineMeaning.FiniteKept` | gateway-edge/rust-ext/src/baselines.rs:48-61 | finite observations are all kept, in order |
| `BaselineMeaning.FlatBaselineFlags` | gateway-edge/rust-ext/src/baselines.rs:88-101 | when more than half of the values are equal, a value is flagged if and only if it is above the floor and above one and a half times that value |
| `BaselineMeaning.ConstantBaselineFlags` | gateway-edge/rust-ext/src/baselines.rs:88-101 | so on a constant baseline |
| `BaselineMeaning.SpreadBaselineFlags` | gateway-edge/rust-ext/src/baselines.rs:88-101 | on a baseline that is half 0 and half 2h, a value is flagged if and only if it is above the floor and above h + k * 1.4826 * h |
| `Civil.YearOfEraExact` | gateway-edge/rust-ext/src/quota.rs:46-50 | the closed form finds the right year for every day of the 400-year era |
| `Civil.DateStep` | gateway-edge/rust-ext/src/quota.rs:51-54 | moving on one day in the March-based year is moving on one day in the calendar |
| `Civil.ClosedFormIsCalendar` | gateway-edge/rust-ext/src/quota.rs:43-54 | for every day count the closed form is a valid Gregorian date and equals the calendar stepped day by day from 1970-01-01 |
| `Civil.DatesIncrease` | gateway-edge/rust-ext/src/quota.rs:43-54 | later days have later dates |
| `Civil.SameKeyIffSameDay` | gateway-edge/rust-ext/src/quota.rs:38-56 | two instants share a day key if and only if they fall on the same UTC day |
| `Civil.KeyIsDate` | gateway-edge/rust-ext/src/quota.rs:38-56 | the last two digits of the key are the day of the calendar date, the two before them the month, and the rest, at least four digits, the year |

## Left out

- The breaker on atomics in both redis_cb.rs files, and the breaker's reset(): the first is the same machine under weaker interleavings, the second deliberately breaks the pairing of acquires and releases.
- Floating-point rounding: rates, thresholds, medians and deviations are real numbers; latencies and scores are whole numbers.
- The latencySum of a bucket: it is written and never read.
- The concrete column table of the users table: a schema is a parameter, so the results hold for every table of columns.
- Database errors other than unreadable text, and the hydration of rows into User objects.
- Separate reads of the live config and the revision inside GET /config, and the swap of the live config outside the store lock in rollback: each request is one step.
- Control-plane restarts, revision seeding from Postgres, durable recording, admin signatures and nonces, 64-bit wrap-around of revisions.
- The version label and timestamp of a config event: an event is its revision; a poisoned ring lock is not modelled.
- The 256 KiB limit of the stream buffer, retries with backoff, metrics and logging.
- The SCAN fallback of the revocation sync, and changes to the two indexes between the range query and the floor lookup of one cycle.
- The text matching that classifies a rejected promise as timeout or error: it is part of the signal.
- FilterMeaning.NotSizeExactlyWhen: not for a `$not` nested inside the negated object, where operators can cancel out and harmlessness is the validity of an arbitrary three-valued formula; Plain is a sufficient condition there.
- HMAC, SHA-256, base64, JSON, regular expressions and collations: function values.
- Changes of the snapshot during one token validation: a call sees one snapshot.
- The hash from user to rate-limit bucket, and the channel to the sync thread: the results are per bucket, for one common limit.
- quota_decision, debt, entropy, adaptive concurrency, sentinel, health, single flight, config validation, backpressure, WAF and router: easier members, or resting on libraries that are not part of this model.
