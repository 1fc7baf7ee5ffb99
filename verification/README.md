# A verified model of the inference billing ledger and its neighbours

This project models the parts of an inference platform that keep accounts, and
proves what they promise. It is organised after the source files.

**The billing ledger** (`Ledger`, `LedgerInvariants`, `LedgerCache`, `LedgerTheorems`,
`LedgerAnswers`, `LedgerExamples`, `LedgerWindows`, `SpendCaps`, `UsageService`, `Periods`, `Calendar`). A request reserves tokens,
first from the user's allowance in the current period and then from the wallet, runs, and is
settled, released or expired. `Ledger` defines each call as one atomic step over the rows of the
tables, with steps of the environment between them: time, credits bought or earned by referral,
changes of allowances (which may be negative), plans, prices and limits. `UsageService` is the
service as a class that updates its tables in place; each method is proved to be the step of its
name. The theorems then range over all runs of steps. Conservation of the wallet, the life of an
event, uniqueness and the router's usage rows are stated for any counts, negative ones included. The
cached period counters equal the event ledger exactly along the runs in which no clamp bites, which
includes every run with counts that are not negative and no failed assertion. Key caps hold at
every point while settlements stay inside their reservations.

**The protocols around it** (`Router`, `RouterService`, `Failover`, `InferenceApi`). Router
calls roll back when they raise. `ExecuteInference` tries candidates in order; between its
reservation and its settlement any other calls may run, on the same event too. `InvokeE2ee` settles or releases on
each kind of ending of an encrypted exchange. Each handler's tables are proved to be a ledger run of
its own calls and of what happened meanwhile, so the run theorems apply to any sequence of handlers.

**Epoch statistics** (`Percentile`, `Aggregation`, `Snapshots`): the integer nearest-rank
percentile, the fold of request rows into buckets, write-once snapshots and the backward walk.

**Supporting parts**: the stake streak (`Streak`), canonical JSON and the two messages signed
over it (`CanonicalJson`, `CanonicalJsonProofs`, `CanonicalJsonOrder`, `SignedMessages`), the
maze game's simulation (`Maze`) and the admin service (`Admin`).

## What the code does not keep

Some promises of the code and its comments hold only under a condition. Each is stated with its
exact condition.

- Settling a live, wallet-funded reservation of a user who has moved to an unlimited plan
  changes the period counter (usage.py:287-288) before the assertion of usage.py:292 fails.
  `execute_inference` and `invoke_e2ee` catch the exception, release the event and commit; the router
  and the ends of streams roll back.
  `LedgerTheorems.SettleCacheExact` says exactly when the counter is wrong after the failure,
  `CaughtAssertionCacheExact` when it is wrong after the release, and
  `LedgerExamples.FailedAssertionLeavesStaleCache` gives a run from empty tables.
  `FixedPlansKeepCache` shows that it takes a change of plan, and
  `LedgerInvariants.RecalculateKeeps` that the next recalculation repairs the current period.
- On the plaintext path the enclave's token counts are not checked for sign. After a negative sum a
  clamp of a period counter can bite, at once or at a later release or expiry.
  `LedgerCache.StepCacheExact` gives the exact condition of every step, `LedgerTheorems.RunCacheExact`
  that of every run, and `LedgerExamples.NegativeChargeLeavesStaleCache` a run in which it happens.
- A settlement beyond its reservation consults no cap. `SpendCaps.SettleCapsExact` says exactly when
  the key stays within its caps, and `LedgerExamples.OverrunExceedsCap` gives a key that does not.
- A request id comes from the client, and `reserve_inference_tokens` returns whatever event the user
  has under it (usage.py:155-179). A product call that reuses the id of an open reservation settles
  or releases that reservation.
  - For a router's reservation no router row is written then: `Router.EveryReservationHasItsRow` says
    exactly when a row is missing, and `LedgerExamples.TakenReservationHasNoRow` gives a run.
  - The call whose reservation was settled meanwhile is answered as settled, charges nothing, and logs
    counts the event does not carry (against product_routes.py:356-357), unless they are the same: the
    contracts of `ExecuteInference` and `InvokeE2ee` say exactly when, and
    `LedgerExamples.ForeignSettlementStands` gives a run.
- If closing the connection to the enclave raises (e2ee_routes.py:430, 460 and 491), no handler
  releases the committed reservation. `Failover.ExpiryIsBackstop` says what closes it.
- `finalize_due` describes epochs beyond its bound as left to the next pass
  (stats_service.py:159-165). The walk stops at the first finalized epoch, so they are never
  finalized: `Snapshots.DeferredEpochIsNeverFinalized`, with an instance in `DeferralHappens`, and
  `GapIsForever` for any such gap. `CaughtUpExactly` says when a pass leaves nothing behind.
- The node id published for a bucket is that of the first row that has one, so it depends on row
  order exactly when the rows disagree: `Aggregation.NodeOrderExact`.
- The allowlist text is independent of entry order exactly when different entries differ in id,
  version or hash: `SignedMessages.EntryOrderExact`.
- The Python printer escapes everything outside printable ASCII and the TypeScript printer does
  not, so the two texts differ on such strings; each reads back, and each is canonical.

## Model

| member | source | states |
|---|---|---|
| `LedgerTheorems.WalletIsConserved` | inference-mono/inference_api/inference_api/usage.py:115-329 | over every run of calls with any counts, credits bought or earned and clock ticks from empty tables: balance is not negative, balance plus the wallet slices of open and settled events equals the credits, and balance equals the sum of the transaction log |
| `LedgerTheorems.RunCacheExact` | inference-mono/inference_api/inference_api/usage.py:115-360 | for any counts: the cached counters equal the ledger at every point of a run if and only if they follow each of its steps, that is, no clamp at zero bites and no settlement fails its assertion at another charge |
| `LedgerCache.StepCacheExact` | inference-mono/inference_api/inference_api/usage.py:115-360 | for any counts: the counters equal the ledger after a step if and only if they follow it, said of the state before it for reserve, settle, release, expire and recalculate |
| `LedgerCache.ExpireCacheExact` | inference-mono/inference_api/inference_api/usage.py:115-139 | expiry keeps the counters exact if and only if, at each overdue reservation, what has been given back to its period by then is no more than the counter |
| `LedgerCache.CloseCacheExact` | inference-mono/inference_api/inference_api/usage.py:319-322 | a release or expiry keeps the counters exact if and only if the share taken back is no more than the counter |
| `LedgerCache.SettleLiveCacheExact` | inference-mono/inference_api/inference_api/usage.py:262-306 | a settlement with any counts keeps the counters exact if and only if it is refused for funds or the counter covers what it takes back, or its failed assertion left the counter as it was |
| `LedgerCache.RecalculateCacheExact` | inference-mono/inference_api/inference_api/usage.py:331-360 | a recalculation makes the current period exact whatever its counter was, so the counters are exact if and only if those of the other periods survive the expiry |
| `LedgerCache.ReserveCacheExact` | inference-mono/inference_api/inference_api/usage.py:141-242 | a reservation keeps the counters exact under the conditions of the expiry and the recalculation in it; a grant itself never moves a counter off the ledger |
| `LedgerCache.SettleRefusedExact` | inference-mono/inference_api/inference_api/usage.py:258-298 | the outcome of a live settlement for any counts: assertion, refusal for funds or closed, each exactly when |
| `LedgerTheorems.RunKeepsCache` | inference-mono/inference_api/inference_api/usage.py:115-360 | over every run with counts that are not negative and without a failed assertion each period's cached used tokens equal the sum, over its events, of charged minus wallet for settled and reserved minus wallet for open ones, and remaining is what is left of the total |
| `LedgerTheorems.FixedPlansKeepCache` | inference-mono/inference_api/inference_api/usage.py:262-306 | while no user's plan changes between metered and unlimited, no settlement of any run reaches the assertion, whatever its counts; with counts that are not negative the cache stays exact |
| `LedgerTheorems.SettleCacheExact` | inference-mono/inference_api/inference_api/usage.py:262-306 | a settlement with counts that are not negative keeps the cache exact if and only if it is not the settlement of a wallet-funded live reservation of a user who is now unlimited, at a charge that differs from the allowance slice |
| `LedgerExamples.FailedAssertionLeavesStaleCache` | inference-mono/inference_api/inference_api/usage.py:286-292 | a run from empty tables, a purchase, a reservation and a change of plan, after which a settlement fails its assertion and the counter is wrong, and still is after the release that execute_inference and invoke_e2ee then commit |
| `LedgerTheorems.CaughtAssertionCacheExact` | inference-mono/inference_api/inference_api/usage.py:286-306 | after a failed assertion is caught, the event released and the session committed, the counters are exact if and only if the old counter is the larger of the event's share and the re-split counter |
| `LedgerExamples.NegativeChargeLeavesStaleCache` | inference-mono/inference_api/inference_api/usage.py:277-288 | a run from empty tables in which a settlement at a negative sum leaves the counter exact and the release of another event then leaves it wrong |
| `LedgerTheorems.NegativeChargeCacheExact` | inference-mono/inference_api/inference_api/usage.py:277-288 | the settlement at a negative sum itself keeps the cache exact if and only if the credit is no more than the rest of the counter |
| `LedgerTheorems.RecountIsCache` | inference-mono/inference_api/inference_api/usage.py:495-519 | once a user's overdue reservations are expired, the recount of any of the user's periods is the cached counter |
| `LedgerInvariants.RecalculateKeeps` | inference-mono/inference_api/inference_api/usage.py:331-360 | recalculation keeps every invariant and makes the current period's counter exact, whatever it was before |
| `LedgerTheorems.RunKeeps` | inference-mono/inference_api/inference_api/usage.py:115-360 | every interleaving of the calls, with any counts, and the environment keeps the rows sound (prices by counts, wallet slices not negative, one event per user and request id, events in periods of their user) and the wallet funded; with counts that are not negative also every wallet slice within its event |
| `LedgerTheorems.RunEvents` | inference-mono/inference_api/inference_api/usage.py:156-329 | over every run with any counts an event keeps its identity, leaves the open state at most once, and never changes afterwards |
| `LedgerTheorems.ClosedIsFinal` | inference-mono/inference_api/inference_api/usage.py:251-329 | settling or releasing a closed event changes nothing, and only a settled one is answered as settled |
| `LedgerTheorems.ReserveReplay` | inference-mono/inference_api/inference_api/usage.py:156-179 | a replayed request returns its first event and does nothing but expire the user's overdue reservations |
| `LedgerAnswers.ReserveAnswers` | inference-mono/inference_api/inference_api/usage.py:141-242 | the answer to a request under a new id: refused for funds if and only if the wallet does not cover what the refreshed allowance leaves open; else by the credit cap if and only if windowed credits and charge exceed it; else by the dollar cap if and only if the wallet is drawn on and windowed wallet tokens with it cost more; else granted |
| `LedgerAnswers.ReserveWrites` | inference-mono/inference_api/inference_api/usage.py:211-242 | every field of the event a granted request opens, among them the charge, the price and the part drawn on the wallet |
| `LedgerAnswers.SettleWrites` | inference-mono/inference_api/inference_api/usage.py:262-306 | every field a settlement changes on its event: counts, charge and the wallet slice left when the own reservation is taken back |
| `LedgerAnswers.SettleAnswers` | inference-mono/inference_api/inference_api/usage.py:251-298 | the answer of a settlement in every state of its event: settled, released, expired, overdue, wallet-funded on an unlimited plan, unaffordable, or closed |
| `LedgerAnswers.RecalculateExact` | inference-mono/inference_api/inference_api/usage.py:331-360 | a recalculation leaves the period at the sum of the five allowances, at what the events draw on it, and remaining at the rest or zero |
| `LedgerAnswers.ExpiryMovesNoSpend` | inference-mono/inference_api/inference_api/key_limits.py:106-126 | overdue reservations count in no cap, so expiring them moves no key's spend |
| `LedgerAnswers.ReleaseSpendExact` | inference-mono/inference_api/inference_api/key_limits.py:106-126 | a release takes exactly the event's slices from its key's spend, if it counts in the window |
| `LedgerAnswers.LogIsSigned` | inference-mono/inference_api/inference_api/usage.py:451-455 | over every run each logged transaction has the sign of its kind: credits not negative, refunds positive, debits negative |
| `LedgerTheorems.ReserveThenRelease` | inference-mono/inference_api/inference_api/usage.py:181-242 | a granted reservation that is then released restores every period and every balance exactly and leaves one released event |
| `LedgerTheorems.CloseIsExact` | inference-mono/inference_api/inference_api/usage.py:115-139 | release and expiry take exactly the allowance slice back from the counter (no clamp bites) and refund exactly the wallet slice |
| `LedgerTheorems.ReserveDrawsAllowanceFirst` | inference-mono/inference_api/inference_api/usage.py:181-242 | a granted metered reservation raises used by its allowance slice, never beyond the larger of total and old used, debits exactly its wallet slice, and touches the wallet only if remaining becomes 0 |
| `LedgerTheorems.SettleDrawsAllowanceFirst` | inference-mono/inference_api/inference_api/usage.py:262-306 | a metered settlement replaces the reservation's slices by slices that add up to the final charge, with the same bound, the exact wallet movement and the same allowance-first rule |
| `LedgerTheorems.SettleInsideReservation` | inference-mono/inference_api/inference_api/usage.py:258-306 | a live reservation settled at no more raw tokens than it reserved closes unless it runs into the assertion (a wallet-funded event of an unlimited user), is charged no more than reserved, and its wallet slice does not grow |
| `LedgerTheorems.SettleInsideAfterRun` | inference-mono/inference_api/inference_api/usage.py:244-306 | the same after any run of other calls, with any counts, between reservation and settlement |
| `LedgerTheorems.SettleFundsExact` | inference-mono/inference_api/inference_api/usage.py:271-298 | a settlement is refused for funds if and only if the user is metered and the charge exceeds remaining allowance plus balance plus what the event itself holds |
| `LedgerInvariants.ChargeIsCeiling` | inference-mono/inference_api/inference_api/usage.py:35-36 | the charge is the least whole number of tokens that covers raw tokens times a four-decimal multiplier |
| `LedgerInvariants.ChargeIsMonotone` | inference-mono/inference_api/inference_api/usage.py:35-36 | more raw tokens are never charged less |
| `LedgerInvariants.CloseKeeps` | inference-mono/inference_api/inference_api/usage.py:120-139 | giving a reservation back keeps soundness and funding |
| `LedgerInvariants.ExpireKeeps` | inference-mono/inference_api/inference_api/usage.py:115-139 | expiry changes exactly the overdue events of the user or of all, and keeps soundness and funding |
| `LedgerInvariants.ReserveKeeps` | inference-mono/inference_api/inference_api/usage.py:141-242 | every outcome of a reservation keeps soundness and funding |
| `LedgerInvariants.SettleLiveKeeps` | inference-mono/inference_api/inference_api/usage.py:262-306 | a settlement with any counts keeps soundness and funding in every outcome, and fails its assertion exactly for a wallet-funded event of an unlimited user |
| `LedgerInvariants.ReleaseKeeps` | inference-mono/inference_api/inference_api/usage.py:313-329 | a release keeps soundness and funding |
| `UsageServices.UsageService.ReserveInferenceTokens` | inference-mono/inference_api/inference_api/usage.py:141-242 | the rows afterwards and the outcome are those of the ledger's reservation step |
| `UsageServices.UsageService.ReserveInPeriod` | inference-mono/inference_api/inference_api/usage.py:181-242 | pricing, allowance-first split, wallet debit, caps and the new event, on the locked period |
| `UsageServices.UsageService.EnforceSpendLimits` | inference-mono/inference_api/inference_api/key_limits.py:136-174 | refuses exactly when the key's windowed credits or wallet dollars with this request would exceed a cap; reads only |
| `UsageServices.UsageService.SettleInferenceUsage` | inference-mono/inference_api/inference_api/usage.py:244-311 | rows and outcome of the settlement step: replay, inactive, overdue, and the re-split of a live event |
| `UsageServices.UsageService.Resplit` | inference-mono/inference_api/inference_api/usage.py:262-306 | the own reservation undone, the charge split again, refused without funds |
| `UsageServices.UsageService.Commit` | inference-mono/inference_api/inference_api/usage.py:286-306 | period, wallet, log and event after a funded split, and the assertion between them |
| `UsageServices.UsageService.ReleaseInferenceReservation` | inference-mono/inference_api/inference_api/usage.py:313-329 | rows of the release step: closed events stay, overdue ones expire, live ones give both slices back |
| `UsageServices.UsageService.ExpireStaleReservations` | inference-mono/inference_api/inference_api/usage.py:115-139 | exactly the overdue open events are expired and given back; the count returned is their number |
| `UsageServices.OverdueCountExact` | inference-mono/inference_api/inference_api/usage.py:115-139 | the count returned is the number of open reservations whose time has come, of the user or of all |
| `UsageServices.UsageService.RecalculateCurrentPeriod` | inference-mono/inference_api/inference_api/usage.py:331-360 | overdue events expired, the current period found or opened, and its counter recounted |
| `UsageServices.UsageService.GetOrCreatePeriod` | inference-mono/inference_api/inference_api/usage.py:406-422 | one row for each user and window |
| `UsageServices.UsageService.LockOrCreateWallet` | inference-mono/inference_api/inference_api/usage.py:428-449 | a missing wallet row is created empty |
| `UsageServices.UsageService.AdjustWallet` | inference-mono/inference_api/inference_api/usage.py:451-455 | every change of a balance writes a transaction of the same amount |
| `SpendCaps.CapsHoldThroughout` | inference-mono/inference_api/inference_api/key_limits.py:88-174 | with fixed limits and settlements of any sign inside their reservations a key is within both caps at every point of every run, across expiry and window roll-over |
| `SpendCaps.RunKeepsCaps` | inference-mono/inference_api/inference_api/key_limits.py:106-174 | a whole run of such steps ends within both caps |
| `SpendCaps.ReserveRespectsCaps` | inference-mono/inference_api/inference_api/usage.py:204-209 | each granted reservation leaves the key's credits within its credit cap and, if it draws on the wallet, the wallet dollars within the dollar cap |
| `SpendCaps.SettleSpendExact` | inference-mono/inference_api/inference_api/key_limits.py:106-126 | a settlement moves the key's spend by exactly final charge minus reservation, if the event counts in the window, and its wallet spend by the change of the slice; no cap is consulted |
| `SpendCaps.SettleCapsExact` | inference-mono/inference_api/inference_api/key_limits.py:106-174 | a settlement leaves its key within the caps if and only if spend and overrun together are within both |
| `LedgerExamples.OverrunExceedsCap` | inference-mono/inference_api/inference_api/key_limits.py:136-174 | a key with a cap of ten credits reserves ten within it and is beyond it after a settlement at 25 |
| `SpendCaps.SpendShrinks` | inference-mono/inference_api/inference_api/key_limits.py:88-126 | expiry, release and settlement inside never raise a key's windowed spend, and a roll-over clears it |
| `Periods.PeriodIsResetWindow` | inference-mono/inference_api/inference_api/usage.py:39-105 | in all three modes the period is the stretch between the two neighbouring reset instants around now, anchors clamped to short months |
| `Periods.PeriodsTileTime` | inference-mono/inference_api/inference_api/usage.py:39-105 | all instants of a period have that period, and the next one starts where it ends |
| `LedgerWindows.PeriodRowsNeverOverlap` | inference-mono/inference_api/inference_api/usage.py:406-422 | with fixed anchors, along every run that looks windows up at their time, a user has one period row per window and never two that hold the same instant |
| `Periods.LimitWindowsTile` | inference-mono/inference_api/inference_api/key_limits.py:88-99 | limit windows hold now, tile time, and never start earlier as time passes |
| `Periods.LimitWindowExact` | inference-mono/inference_api/inference_api/key_limits.py:88-99 | a daily window is the calendar day of now and a monthly one its calendar month, from midnight to midnight |
| `Periods.PeriodExact` | inference-mono/inference_api/inference_api/usage.py:39-105 | day, second and following month of the start and end of each kind of usage period |
| `Calendar.BeforeIsTime` | inference-mono/inference_api/inference_api/usage.py:39-105 | one instant is before another if and only if fewer microseconds have passed |
| `Calendar.DayCountIsGregorian` | inference-mono/inference_api/inference_api/usage.py:39-105 | the month-by-month calendar beneath the windows agrees with the closed form of the Gregorian day count |
| `Router.UsageRowsAreExact` | inference-mono/inference_api/inference_api/router_service.py:62-173 | over every run of router calls and of any calls of other planes, the usage table has exactly one router row per settled router reservation, with its counts, except for exactly the reservations that another plane settled, and no other router row |
| `Router.EveryReservationHasItsRow` | inference-mono/inference_api/inference_api/router_service.py:105-152 | every settled router reservation has its row if and only if no other plane settled one along the run |
| `Router.ClosedElsewhereKeeps` | inference-mono/inference_api/inference_api/usage.py:155-179 | a settlement of a router reservation from another plane leaves it without a row, and every other row as it was |
| `LedgerExamples.TakenReservationHasNoRow` | inference-mono/inference_api/inference_api/product_routes.py:316-350 | from empty tables: a router reserves, a product call with the same request id gets that event and settles it, and the settled reservation has no row |
| `Router.CreateReturnsOwn` | inference-mono/inference_api/inference_api/router_service.py:62-103 | an answered reservation belongs to this router, key and owner, and was opened for this model and these counts |
| `Router.SettleReplay` | inference-mono/inference_api/inference_api/router_service.py:105-152 | a settlement repeated with other counts is rejected without change; with the same counts it adds no row and leaves the event |
| `Router.FirstSettlementAddsItsRow` | inference-mono/inference_api/inference_api/router_service.py:105-152 | a first settlement closes its event and appends the one row the invariant asks for |
| `Router.CreateErrs` | inference-mono/inference_api/inference_api/router_service.py:62-103 | a reservation that is answered with an error leaves no trace |
| `Router.CreateSucceedsExactly` | inference-mono/inference_api/inference_api/router_service.py:62-103 | a reservation is answered if and only if the key is known and may use the model and the event reserved is open and of this router, key, model and these counts; which of the first two failures is which |
| `Router.SettleSucceedsExactly` | inference-mono/inference_api/inference_api/router_service.py:105-152 | a settlement is answered if and only if the event is of this router, key and request id and closes now, or was closed with these counts; the row of a first settlement and none for a repeated one |
| `Router.ReleaseSucceedsExactly` | inference-mono/inference_api/inference_api/router_service.py:154-173 | a release is answered if and only if the event is of this router and key and not settled |
| `Router.CreateFailsExactly` | inference-mono/inference_api/inference_api/router_service.py:84-103 | which failure a reservation call answers for each state of the event it got |
| `Router.RouterEventFailsExactly` | inference-mono/inference_api/inference_api/router_service.py:205-226 | which failure the look-up answers: missing, other request id, other router or other key |
| `RouterServices.RouterInferenceService.CreateReservation` | inference-mono/inference_api/inference_api/router_service.py:62-103 | state and reply of the reservation call; rolled back when it raises |
| `RouterServices.RouterInferenceService.SettleUsage` | inference-mono/inference_api/inference_api/router_service.py:105-152 | state and reply of the settlement call; rolled back when it raises |
| `RouterServices.RouterInferenceService.ReleaseReservation` | inference-mono/inference_api/inference_api/router_service.py:154-173 | state and reply of the release call |
| `Router.RouterEvent` | inference-mono/inference_api/inference_api/router_service.py:205-226 | an event is answered if and only if it exists and is of this router, this key and, where one is given, this request id |
| `InferenceApis.InferenceApi.ExecuteInference` | inference-mono/inference_api/inference_api/product_routes.py:270-394 | without a reservation nothing changes; every other exit closes it; at most the maximum number of candidates is tried, each failed forward before the end leaves one failure row; the tables are a ledger run of exactly its own calls and any calls made meanwhile; what is billed and logged are the counts the serving attempt reports, or the estimate and the words of the answer in place of missing ones; the event is closed from what is found then, and what is logged is what the event carries if and only if it was open or settled at the same counts; a new request id is charged once, at the price it was reserved at, by this call unless another call settled it meanwhile |
| `LedgerExamples.ForeignSettlementStands` | inference-mono/inference_api/inference_api/usage.py:251-257 | from empty tables: a second call with the id of a reservation settles it, and the reservation's own settlement at other counts is then answered as done with nothing charged |
| `InferenceApis.InferenceApi.TryCandidates` | inference-mono/inference_api/inference_api/product_routes.py:316-394 | the loop: candidates in order until one serves or raises, the rows it leaves, the ledger run it is, and the event closed on every way out from what is found then |
| `InferenceApis.InferenceApi.SettleServed` | inference-mono/inference_api/inference_api/product_routes.py:340-372 | settles with the prompt and completion tokens the enclave reports, with the estimate and the words of the answer (one at least) in place of missing ones, and writes the usage row with these counts exactly when the event is settled |
| `InferenceApis.InferenceApi.Serve` | inference-mono/inference_api/inference_api/product_routes.py:345-394 | a served candidate: settled, then the period refreshed, or what a failure left open released |
| `InferenceApis.InferenceApi.ExecuteMeshFallback` | inference-mono/inference_api/inference_api/product_routes.py:397-460 | a refused reservation leaves no trace; the development answer is never billed: its reservation is released or expired, its row has zero tokens, and the tables are the ledger run of these calls |
| `InferenceApis.InferenceApi.BillingRequestId` | inference-mono/inference_api/inference_api/e2ee_routes.py:312-334 | a supplied id is used if this user never used it, else a new one is; either way the id is fresh |
| `InferenceApis.InferenceApi.InvokeE2ee` | inference-mono/inference_api/inference_api/e2ee_routes.py:349-545 | a refused reservation leaves no trace; every other exit closes the reservation but a relayed stream and an exchange whose closing raises; billed counts, usage row and miner row of each kind of ending; the tables are a ledger run of its own calls and any calls made meanwhile; the event is closed from what is found then, logged as it is if and only if it was open or settled at the same counts, and charged by this call unless another call settled it meanwhile |
| `Failover.ExpiryIsBackstop` | inference-mono/inference_api/inference_api/usage.py:115-139 | a reservation no handler closes is closed after the first expiry of its user once it is overdue, and uncharged if and only if no other request settled it meanwhile |
| `InferenceApis.InferenceApi.CloseExchange` | inference-mono/inference_api/inference_api/e2ee_routes.py:404-569 | what each ending settles, releases and records, from the event as it is found |
| `InferenceApis.InferenceApi.CloseStream` | inference-mono/inference_api/inference_api/product_routes.py:735-790 | the end of a stream: settles what was reported or relayed, else releases; a settlement that raises leaves no trace; a hang-up pays for relayed chunks up to the cap and always finds its funds |
| `Failover.ReleaseCloses` | inference-mono/inference_api/inference_api/usage.py:313-329 | a release closes an event in every state, as released or, if overdue, as expired, and charges nothing |
| `Failover.SettleOutcomes` | inference-mono/inference_api/inference_api/usage.py:244-311 | a settlement answers closed exactly when the event is settled, and then charged at its own multiplier |
| `Failover.FreshReservation` | inference-mono/inference_api/inference_api/usage.py:156-242 | under a new request id a reservation is a new, unsettled event at the price of the moment, or is refused |
| `Failover.RunKeepsPending` | inference-mono/inference_api/inference_api/product_routes.py:316-394 | a waiting reservation stays unsettled, uncharged and priced as it was if and only if no other request settles it |
| `Failover.StepSettlesExactly` | inference-mono/inference_api/inference_api/usage.py:244-311 | which call settles an open event: a settlement of it while it is live, affordable and not failing the assertion, and no other |
| `Failover.RunKeepsPriced` | inference-mono/inference_api/inference_api/usage.py:156-329 | whatever other requests do, the price of a reservation stays and only a settlement charges it |
| `Percentile.PercentileIsNearestRank` | inference-mono/inference_api/inference_api/stats_service.py:41-54 | for 1 to 100 the result is the one member that at least p per cent of the values do not exceed and fewer than p per cent lie below |
| `Percentile.PercentileIsMonotone` | inference-mono/inference_api/inference_api/stats_service.py:41-54 | the percentile does not fall as p grows |
| `Percentile.PercentileIgnoresOrder` | inference-mono/inference_api/inference_api/stats_service.py:41-54 | the percentile depends only on the multiset of values |
| `Aggregation.Aggregate` | inference-mono/inference_api/inference_api/stats_service.py:201-282 | the entries have strictly increasing keys, one for each (hotkey, model, version) among the rows, and each is the fold of the rows of its key |
| `Aggregation.EntryFieldsExact` | inference-mono/inference_api/inference_api/stats_service.py:266-282 | field by field what an entry says: each counter its sum, p50 and p95 nearest ranks of the served latencies or none, p50 not above p95, the anchor of hotkey and model, the node id of the first row that has one |
| `Aggregation.RowCounts` | inference-mono/inference_api/inference_api/stats_service.py:217-262 | what one more row adds to each sum and to the latencies of its own key, and to those of no other |
| `Aggregation.EntriesInOrder` | inference-mono/inference_api/inference_api/stats_service.py:259-259 | entries stand in the order of hotkey, then model, then version |
| `Aggregation.FillBuckets` | inference-mono/inference_api/inference_api/stats_service.py:217-264 | the dictionary has one bucket per key in order of first appearance, each the fold of the rows so far |
| `Aggregation.AddRow` | inference-mono/inference_api/inference_api/stats_service.py:228-264 | what one row adds to its bucket |
| `Aggregation.AggregateConservesRequests` | inference-mono/inference_api/inference_api/stats_service.py:217-282 | successes and failures over all entries add up to the number of rows |
| `Aggregation.VerifiedWithinTotal` | inference-mono/inference_api/inference_api/stats_service.py:247-262 | for counts that are not negative, verified sums never exceed the served sums |
| `Aggregation.AggregateIgnoresOrder` | inference-mono/inference_api/inference_api/stats_service.py:201-282 | any two orders of the same rows give the same entries, node ids aside |
| `Aggregation.NodeOrderExact` | inference-mono/inference_api/inference_api/stats_service.py:234-235 | the published node id is independent of row order if and only if the rows of the key that have one agree on it |
| `Snapshots.MinerEpochStatsService.Finalize` | inference-mono/inference_api/inference_api/stats_service.py:87-152 | an epoch is stored once as the aggregate of its rows at that moment; later calls return it unchanged |
| `Snapshots.MinerEpochStatsService.FinalizeDue` | inference-mono/inference_api/inference_api/stats_service.py:154-190 | exactly the unbroken run of due epochs downward from the newest closed one is finalized, cut at the bound, and nothing else changes |
| `Snapshots.SnapshotsAreImmutable` | inference-mono/inference_api/inference_api/stats_service.py:87-152 | over every run in which request rows change in any way, a stored epoch stays as it was |
| `Snapshots.DueRunIsUnique` | inference-mono/inference_api/inference_api/stats_service.py:167-190 | which epochs a pass finalizes follows from the store alone |
| `Snapshots.PassRespectsLag` | inference-mono/inference_api/inference_api/stats_service.py:167-190 | no epoch above current - 1 - lag is touched, and at most the bound is finalized |
| `Snapshots.NewestIsTaken` | inference-mono/inference_api/inference_api/stats_service.py:167-190 | the epoch current - 1 - lag is finalized first if it has traffic and no snapshot |
| `Snapshots.RowsOfExact` | inference-mono/inference_api/inference_api/stats_service.py:201-216 | the rows of an epoch are exactly those stamped with it, as often as they occur |
| `Snapshots.GapIsForever` | inference-mono/inference_api/inference_api/stats_service.py:175-188 | an epoch without a snapshot below a finalized one is never finalized by later passes |
| `Snapshots.DeferredEpochIsNeverFinalized` | inference-mono/inference_api/inference_api/stats_service.py:159-165 | refutes the promise of a later pass: the epoch left by a pass that reached its bound stays without a snapshot |
| `Snapshots.DeferralHappens` | inference-mono/inference_api/inference_api/stats_service.py:159-188 | a pass with a bound of one over two closed epochs with traffic, which defers the older one |
| `Snapshots.CaughtUpExactly` | inference-mono/inference_api/inference_api/stats_service.py:159-188 | a pass leaves nothing behind if and only if, before it, every due epoch is within the bound of the newest closed one and every epoch from there to the newest is due |
| `Streak.ComputeStreakStart` | inference-mono/inference_api/inference_api/ht_indexer.py:125-155 | the one-pass result is the timestamp of the event that lifts the balance of the lower-cased address above zero for good, if there is one |
| `Streak.StartExistsExactly` | inference-mono/inference_api/inference_api/ht_indexer.py:125-155 | there is one such event exactly when the final balance is positive, and never two |
| `Streak.NoStreakExactly` | inference-mono/inference_api/inference_api/ht_indexer.py:125-155 | with timestamps that parse, no streak is returned if and only if the final balance is not positive |
| `Streak.IrrelevantEventsDoNotMatter` | inference-mono/inference_api/inference_api/ht_indexer.py:125-155 | an event without effect on the position may stand anywhere in the log |
| `Streak.IrrelevantHasNoDelta` | inference-mono/inference_api/inference_api/ht_indexer.py:158-200 | events of other accounts or subnets, self-swaps and unusable ones have no effect |
| `Streak.AdditionRaises` | inference-mono/inference_api/inference_api/ht_indexer.py:174-177 | stake added counts up by its amount, in any spelling of the address |
| `Streak.RemovalLowers` | inference-mono/inference_api/inference_api/ht_indexer.py:178-181 | stake removed counts down by its amount |
| `Streak.SwapMovesBoth` | inference-mono/inference_api/inference_api/ht_indexer.py:182-191 | a swap between two subnets moves its amount out of the first and into the second, and nothing in others |
| `Streak.NodeSwapInRaises` | inference-mono/inference_api/inference_api/ht_indexer.py:192-196 | a swap from a node into the subnet counts up, with either spelling of its fields |
| `Streak.NodeSwapOutLowers` | inference-mono/inference_api/inference_api/ht_indexer.py:197-200 | a swap from the subnet to a node counts down, with either spelling of its fields |
| `Streak.WithdrawalEndsStreak` | inference-mono/inference_api/inference_api/ht_indexer.py:125-155 | after a withdrawal of the whole balance there is no streak |
| `Streak.AllowanceIsMonotone` | inference-mono/inference_api/inference_api/ht_indexer.py:100-122 | more stake never earns a smaller allowance |
| `Streak.AllowanceExact` | inference-mono/inference_api/inference_api/ht_indexer.py:100-122 | nothing without stake, below the minimum or before the streak is old enough, else so much for each whole unit of stake, up to the cap |
| `CanonicalJsonProofs.ParsePrint` | inference-mono/ui/lib/attestation-verify.ts:19-32 | parsing a canonical text gives the value back with object members in key order, for either printer |
| `CanonicalJsonProofs.EveryValueReadsBack` | inference-mono/ui/lib/attestation-verify.ts:19-32 | a printed value followed by anything that can follow it reads back as itself and leaves the rest |
| `CanonicalJsonProofs.StringReadsBack` | inference-mono/ui/lib/attestation-verify.ts:19-32 | string escaping is undone by reading, for controls, quotes, surrogate pairs and lone surrogates |
| `CanonicalJsonProofs.ArrayExact` | inference-mono/ui/lib/attestation-verify.ts:19-32 | the text of an array: brackets, and commas between the items |
| `CanonicalJsonProofs.ObjectExact` | inference-mono/ui/lib/attestation-verify.ts:19-32 | the text of an object: braces, members in key order, commas between them |
| `CanonicalJsonProofs.MemberExact` | inference-mono/ui/lib/attestation-verify.ts:19-32 | the text of a member: its quoted key, a colon and its value |
| `CanonicalJsonProofs.UnitExact` | inference-mono/ui/lib/attestation-verify.ts:19-32 | which units of a string are written as themselves, in two characters or in six |
| `CanonicalJsonProofs.NumberExact` | inference-mono/ui/lib/attestation-verify.ts:19-32 | the text of an integer: decimal digits and a minus |
| `Prelude.OrderIsLexicographic` | inference-mono/ui/lib/attestation-verify.ts:19-32 | keys are ordered lexicographically by their codes |
| `CanonicalJsonOrder.PrintExact` | inference-mono/ui/lib/attestation-verify.ts:19-32 | two values print the same if and only if they are the same up to the order of object members |
| `CanonicalJsonOrder.SameIffSameCanon` | inference-mono/ui/lib/attestation-verify.ts:19-32 | equality up to member order is equality of canonical forms |
| `SignedMessages.ReceiptMessageExact` | inference-mono/inference_api/inference_api/attestation.py:43-72 | two receipts have the same signed bytes if and only if they agree on every normalised field |
| `SignedMessages.ReceiptReads` | inference-mono/inference_api/inference_api/attestation.py:43-72 | the signed receipt reads back as an object of nine members in key order, each field under its own name, absent text empty and an absent time null |
| `SignedMessages.AllowlistMessageExact` | inference-mono/ui/lib/attestation-verify.ts:61-86 | two allowlists have the same signed text if and only if version, activation time and the sorted normalised entries are the same |
| `SignedMessages.AllowlistReads` | inference-mono/ui/lib/attestation-verify.ts:44-86 | the signed allowlist reads back as its kind, version, activation time if given, and as many entries as were given, each with the six fields of one of them under their names, the hash in lower case |
| `SignedMessages.EntriesInOrder` | inference-mono/ui/lib/attestation-verify.ts:68-75 | the entries stand in the order of model id, then version, then hash |
| `SignedMessages.EntryOrderExact` | inference-mono/ui/lib/attestation-verify.ts:61-86 | the sorted entries are independent of arrival order if and only if no two different entries share id, version and hash |
| `SignedMessages.AllowlistIgnoresOrder` | inference-mono/ui/lib/attestation-verify.ts:44-86 | such an allowlist has the same signed text in every order |
| `Maze.Play` | inference-mono/ui/components/not-found-game.tsx:480-525 | over every sequence of frames, key presses, pauses and restarts the game invariant holds: all actors on open tiles heading to open tiles, remaining the number of cells left, score 10 per dot, 50 per pellet and 200 per ghost, lives positive unless lost |
| `Maze.Game.Update` | inference-mono/ui/components/not-found-game.tsx:366-380 | one frame keeps the invariant, costs at most one life, is won only with nothing left, and goes on playing only with something left |
| `Maze.Game.StepPac` | inference-mono/ui/components/not-found-game.tsx:272-313 | the player moves by its speed along open tiles, and a tile it reaches is emptied and no other |
| `Maze.Game.Arrive` | inference-mono/ui/components/not-found-game.tsx:289-311 | at a centre the wanted way is taken if open, else straight on, else it stops |
| `Maze.Game.Reverse` | inference-mono/ui/components/not-found-game.tsx:274-281 | mid-corridor reversal does not move the player |
| `Maze.ReversalKeepsPlace` | inference-mono/ui/components/not-found-game.tsx:274-281 | the place is the same seen from the other tile |
| `Maze.Game.TurnAtCentre` | inference-mono/ui/components/not-found-game.tsx:282-286 | the turn taken while standing on a centre |
| `Maze.Game.Eat` | inference-mono/ui/components/not-found-game.tsx:293-303 | what one tile is worth (10 for a dot, 50 for a pellet), and what a pellet does to the ghosts |
| `Maze.Game.ChooseGhostDir` | inference-mono/ui/components/not-found-game.tsx:315-327 | a ghost turns back only at a dead end; a hunter takes a way of least distance, a frightened one of greatest, and otherwise the draw picks |
| `Maze.Ways` | inference-mono/ui/components/not-found-game.tsx:316-318 | the ways on that do not lead back, or all open ways where there is none |
| `Maze.Game.StepGhosts` | inference-mono/ui/components/not-found-game.tsx:329-343 | each ghost advances by its own speed and stays in the corridors |
| `Maze.Game.StepGhost` | inference-mono/ui/components/not-found-game.tsx:335-342 | the loop over tile centres ends and never enters a wall |
| `Maze.Game.CheckCollisions` | inference-mono/ui/components/not-found-game.tsx:345-364 | a life is lost if and only if a touching ghost is not edible; otherwise exactly the touching ghosts are eaten, counted and sent home |
| `Maze.Game.EatGhost` | inference-mono/ui/components/not-found-game.tsx:350-357 | an eaten ghost is worth 200, goes home and cannot be eaten again before the next pellet |
| `Maze.Game.LoseLife` | inference-mono/ui/components/not-found-game.tsx:252-265 | one life less; lost at none, else the actors return to their starts |
| `Maze.Game.ResetLevel` | inference-mono/ui/components/not-found-game.tsx:191-201 | a full board, actors at their starts, no score |
| `Maze.FreshDotsExact` | inference-mono/ui/components/not-found-game.tsx:124-134 | a fresh board has a dot or a pellet exactly where the maze has one |
| `Maze.StartsExact` | inference-mono/ui/components/not-found-game.tsx:142-159 | the actors start on their marks, at rest, and the ghosts' homes are their starts |
| `Maze.TouchesExact` | inference-mono/ui/components/not-found-game.tsx:345-350 | actors touch when their drawn places are less than 0.7 tiles apart |
| `Maze.Game.Start` | inference-mono/ui/components/not-found-game.tsx:203-209 | a new round from idle, won or lost; a paused one goes on |
| `Admin.SeedDefaultRoles` | inference-mono/api/app/admin/service.py:140-173 | afterwards each default role is exactly its definition, other roles are untouched, and seeding again changes nothing |
| `Admin.AdminService.Operate` | inference-mono/api/app/admin/service.py:173-738 | over every sequence of role and plan operations an active owner survives, active assignments are unique per user and role, no test plan is active or visible, and no two plans share a slug, a name or a price |
| `Admin.AdminService.GrantRole` | inference-mono/api/app/admin/service.py:194-225 | granted exactly to existing users and roles by a caller allowed to, adding a row only if none is active |
| `Admin.AdminService.RevokeRole` | inference-mono/api/app/admin/service.py:227-253 | revokes exactly the one active assignment, and never the last active owner |
| `Admin.AdminService.CreatePlan` | inference-mono/api/app/admin/service.py:578-631 | the stored plan, refused exactly on a clash of slug, name or price; a test plan is stored inactive and hidden |
| `Admin.AdminService.UpdatePlan` | inference-mono/api/app/admin/service.py:633-688 | only the set fields change; refused exactly for a missing plan or a clash; a test plan ends inactive and hidden |
| `Admin.AdminService.ActivatePlan` | inference-mono/api/app/admin/service.py:708-738 | a test plan is refused, any other becomes active and visible |
| `Admin.AdminService.DeactivatePlan` | inference-mono/api/app/admin/service.py:690-706 | the plan becomes inactive and hidden and nothing else changes |
| `Admin.OwnerCountUpdate` | inference-mono/api/app/admin/service.py:1082-1091 | how replacing one assignment changes the number of active owners |
| `Admin.OwnerCountExact` | inference-mono/api/app/admin/service.py:1082-1091 | the owner count is the number of assignments of the owner role that are not revoked |
| `Admin.ClashesExactly` | inference-mono/api/app/admin/service.py:1259-1287 | a clash is another plan with the slug, the name or one of the prices asked for, empty ones aside |

## Left out

- HTTP, SSE, FastAPI wiring, SQL and row locks: each call of a service is one atomic step at one instant; a call that raises under the router is rolled back.
- Rows are values in tables that the methods update in place: a handler that closes its event reads it as the table then has it, not as an object it loaded earlier; sharing of one ORM object between two callers is not modelled, nor are the game's actors as separate objects.
- `UsageServices.UsageService.ReserveInferenceTokens`: the second look-up of the request id, taken once the period row is locked, coincides with the first in an atomic step and is not repeated.
- The settled and released timestamps, the miner attribution columns of an event, and the allowance components stored beside a period's total.
- The lifetime of a reservation is a setting; here `expiresAt` is any instant the caller gives.
- The range of years of `datetime` and the 28-digit context of `Decimal`: days and token counts are unbounded integers, multipliers are whole ten-thousandths.
- `LedgerTheorems.RunKeepsCache`: holds for runs with counts that are not negative and without a failed assertion; `RunCacheExact` is the statement for all runs.
- `SpendCaps.CapsHoldThroughout`: reservations are for counts that are not negative and a credit cap is not negative, as the request schemas and api/app/api_keys/schemas.py:109 require.
- `InferenceApis.InferenceApi.InvokeE2ee`: when closing the connection raises, nothing but expiry is claimed to close the reservation; an exchange stands for this as `Abandoned`.
- `InferenceApis.InferenceApi.CloseStream`: a settlement that raises at the end of a stream leaves the event open until it is overdue, so only the decision to settle or release is claimed.
- `InferenceApis.InferenceApi.ExecuteInference`: what a forward does and returns, and what other requests do meanwhile, is input; signatures, sealing and attestation checks are not modelled.
- `SignedMessages.AllowlistMessageExact`: lower-casing covers ASCII letters, and fields that are absent or null are one case.
- `CanonicalJsonProofs.ParsePrint`: numbers are integers of any size; fractions, numbers beyond JavaScript's safe integers and undefined values are not part of the model.
- `CanonicalJsonOrder.PrintExact`: both printers order keys by UTF-16 code units here; Python orders by code points, which differs only between keys with surrogate pairs and keys with units from U+E000 on.
- `Streak.ComputeStreakStart`: the decoded event arguments are the input, and the reading of an amount as a number is any function.
- `Snapshots.MinerEpochStatsService.Finalize`: the per-bucket rows stored beside a snapshot and the signature over it.
- `Admin.AdminService.UpdatePlan`: slug making and the test-plan rule are any functions; plan fields that no rule reads are left out.
- `Admin.AdminService.RevokeRole`: two revocations that each count the owners before the other commits are not modelled; a call is one step.
- The IP allowlist of keys, audit log, Stripe, e-mail, listing and read models: plumbing or easy members.
- The version of the published allowlist over deactivated rows is not claimed to grow.
- Drawing, input devices and sound of the maze game; a frame's length is any time that is not negative, where the page caps it at 50 milliseconds.
