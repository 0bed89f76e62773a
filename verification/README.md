# Verification of the platform's stateful core

This project models the parts of the backend that carry state, loops or arithmetic, and proves what
they keep over whole runs. `dafny verify dfyconfig.toml` checks everything.

| Files | What they model |
|---|---|
| `RateLimitStore`, `RateLimitLedger`, `RateLimitBounds`, `RateLimitRedis` | The sliding-window limiter: the in-memory store in place, the Lua script over sorted sets, and a full log of admitted hits as the specification both are measured against. |
| `Login` | The account lockout as a client of the limiter, with other callers interleaved. |
| `CommandAgent`, `CommandAgentTheorems`, `CommandAgentResults` | The plain and the streaming tool-calling loop, over an arbitrary model and arbitrary tools, and what a turn returns, told by a log of it. |
| `Decisions`, `DashboardCache`, `DashboardTheorems` | The decision history, and the dashboard snapshot cache as steps that switch only where the code awaits. |
| `Findings`, `Alerts`, `AlertTheorems` | KPI checks and the reconciliation of live alerts with them, with operator actions in between. |
| `PlatformSync`, `PlatformSyncTheorems` | Syncing campaigns, ad sets and ads through one upsert statement each. |
| `Analytics` | The batch upsert of daily facts, the aggregations and the client rollup. |
| `BodyGuard`, `BodyGuardTheorems` | The body size guard and the audit buffer with its replay, around an arbitrary app. |
| `RouteCache`, `RouteCacheTheorems` | The model route cache with its lifetime, loads in flight, commits and invalidations. |
| `Similarity`, `Sorting` | Cosine similarity, top-k search, and Python's stable sort. |
| `Pricing`, `Rounding`, `Slug` | Cost rounding, slug normalisation, unique slugs. |
| `Sets`, `Wrappers` | Shared helpers. |

Objects the code updates in place are classes whose methods are proved against a function of the old
state; the main results are lemmas about those functions. Systems whose point is interleaving are
state machines over their steps.

## Assumptions

- Clock readings do not go back in the order the limiter's lock is taken, and each limiter scope
  uses one fixed window. Hit members (`uuid4`) are new. The limiter's calls within a login are
  single steps, and other logins may come between them. The lower-casing of an email, the password
  comparison, the language models and the tool handlers are arbitrary functions. A tool's handler
  may depend on every call and answer so far, not on what was said.
- The dashboard's hash is compared, never inverted. Decisions on one recommendation have
  distinct times, but may be appended out of their order: a row's time is its transaction's start.
- Numbers are exact: no floating-point or `Decimal` context rounding, and an exact square root where
  `** 0.5` is taken. Spend and revenue in the analytics tables are whole cents.
- Publishing a route map and its time is one step, and so is an evaluation pass, an upsert
  statement, or the code between two awaits.

## What the code does differently from its documentation

- `command_agent.py:194-199` promises that streaming ends with the exact result of the plain turn.
  The plain client passes an empty text beside tool calls on as `""` (`openrouter.py:469`), the
  streaming loop records none (`command_agent.py:233`), so the model is asked to continue different
  transcripts. `LoopsAgreeIff` says exactly for which turns the requests differ, `ResultsAgreeIff` for
  which the result can, and `EmptyTextDiverges` gives two different results of one model.
  An exception other than an `AppError` ends the stream with no result event at all.
- `rate_limit.py:203-204` says that separators cannot break out of a key; a colon in the scope name
  still lets two pairs share one. `StoresAgreeIff` and `ScopesKeepKeysApartIff` are exact; no scope name in use has a colon.
- `dashboard_service.py:114-115` promises fresh decisions. The model's reply is parsed with the whole
  recommendation schema (`recommendations.py:62`, `schemas/ai.py:151`), and the merge overwrites only
  where a decision is recorded, so a decision the model makes up for an undecided recommendation is
  stored and served (`InventedDecisionIsServed`); cached responses are exact otherwise
  (`EveryServedResponse`, `PlainRepliesServeCurrent`). A generated response also misses a decision
  recorded while the review is awaited (`GeneratedResponseCurrentIff`).
- `middleware.py:260-262` buffers "the" request body. A client that disconnects midway leaves a
  shorter copy (`DisconnectLeavesUnfinishedCopy`). It reaches the audit diff like any other copy:
  within the cap, if no service recorded a diff, the response status is 2xx
  (`middleware.py:172`) and the copy is a JSON object that is not empty (`middleware.py:295-302`).
- `model_router.py:115-117` promises that a write is picked up immediately after invalidation. A load
  that is in flight then brings the old routes back (`LateLoadHidesUpdate`, `InvalidationHoldsIff`, `UpdateIsSeen`).
- Acknowledging a resolved alert (`alert_service.py:69-77`) makes it live again, which can leave two
  live alerts for one key (`RevivedAlertDuplicates`); a pass then resolves only one of them
  (`AcknowledgeKeepsUniqueIff`, `SecondPass`).
- `pricing.py:93-95` treats a published rate of zero as a missing one (`CatalogPricesCharged`,
  `ZeroPricesAreMissing`).

## Model

| member | source | states |
|---|---|---|
| RateLimitStore.MemoryRateLimitStore.PruneBuckets | app/core/rate_limit.py:84-95 | The sweep drops exactly the buckets whose newest hit is an hour old, and scopes left empty, at most every five minutes. |
| RateLimitStore.MemoryRateLimitStore.EnforceCap | app/core/rate_limit.py:97-107 | Beyond the cap exactly the first keys in newest-hit order go, ties in insertion order. |
| RateLimitStore.MemoryRateLimitStore.Allow | app/core/rate_limit.py:109-121 | The whole new state and the answer of one call: sweep, trim, deny or append and cap. |
| RateLimitStore.MemoryRateLimitStore.Forget | app/core/rate_limit.py:123-125 | Removes one key's bucket and nothing else; an unknown scope is left alone. |
| RateLimitStore.MemoryRateLimitStore.Reset | app/core/rate_limit.py:127-130 | Back to the fresh store. |
| RateLimitLedger.TrimCounts | app/core/rate_limit.py:114-117 | Popping from the front leaves exactly the logged hits inside the window. |
| RateLimitLedger.AllowRefines | app/core/rate_limit.py:109-121 | One call answers as the full log does (deny iff `times` admitted hits lie in the window) and leaves every bucket a faithful tail of its history. |
| RateLimitLedger.StoreRefinesLedger | app/core/rate_limit.py:84-130 | Over every run of allow, forget and reset, the swept, trimmed and capped store gives the answers of the full log, with evicted histories dropped from it. |
| RateLimitBounds.WindowBound | app/core/rate_limit.py:109-121 | No window of the scope's length ever holds more than `times` admissions of a key whose history is kept. |
| RateLimitBounds.SweepInvisibleIff | app/core/rate_limit.py:62-69 | Sweeping never changes an answer, for all states and calls, exactly when the window is at most 3600 seconds. |
| RateLimitBounds.SweepDropsExactly | app/core/rate_limit.py:84-95 | A bucket survives a call's sweep exactly when the last sweep is less than five minutes ago or it holds a hit less than an hour old; no scope is left empty. |
| RateLimitBounds.ForgetEmptiesOne | app/core/rate_limit.py:123-130 | Forgetting empties one key's history and no other; resetting empties all. |
| RateLimitBounds.EvictedAreOldest | app/core/rate_limit.py:97-107 | However far a scope is over the cap, exactly the excess goes, and nothing that goes was hit later than anything that stays. |
| RateLimitBounds.AllowTidy | app/core/rate_limit.py:97-121 | With a positive limit no bucket is empty and no scope over 50,000 keys afterwards; the admitted key is never evicted, and an evicted one was admitted no later than any kept. |
| RateLimitBounds.RunStaysTidy | app/core/rate_limit.py:59-130 | The same bound after every run. |
| RateLimitBounds.ZeroLimitLeavesEmptyBucket | app/core/rate_limit.py:113-118 | A limit of zero denies but leaves an empty bucket, so the positive limit is needed. |
| RateLimitRedis.RedisRateLimitStore.Allow | app/core/rate_limit.py:175-184 | The script's effect and answer, or admission with nothing changed when the database cannot be reached. |
| RateLimitRedis.RedisRateLimitStore.Reset | app/core/rate_limit.py:192-199 | Deletes every key of the limiter and no other. |
| RateLimitRedis.ScriptRefines | app/core/rate_limit.py:137-146 | The script answers as the log, its sorted set holds the log's window, and its expiry never drops a hit that still counts. |
| RateLimitRedis.OtherKeysStay | app/core/rate_limit.py:192-205 | Over any run, a database key without the limiter's prefix stays as it is. |
| RateLimitRedis.FreshStoresAgree | app/core/rate_limit.py:109-145 | Memory and Redis give the same answer at every step of the same run, when the cap evicts nothing and no two pairs share a key. |
| RateLimitRedis.StoresAgreeIff | app/core/rate_limit.py:201-205 | They agree on all runs over a set of pairs exactly when those pairs have distinct database keys. |
| RateLimitRedis.ScopesKeepKeysApartIff | app/core/rate_limit.py:201-205 | A set of scope names keeps the database keys of all its pairs apart exactly when no name followed by a colon begins another. |
| RateLimitRedis.KeysAreDistinct | app/core/rate_limit.py:201-205 | Scope names without a colon keep all database keys apart. |
| RateLimitRedis.ColonFreeStoresAgree | app/core/rate_limit.py:109-145 | So over scope names without a colon they agree on all runs. |
| RateLimitRedis.ColonSharesKey | app/core/rate_limit.py:202-205 | Two different pairs with one database key. |
| Login.AuthService.Login | app/services/auth_service.py:66-114 | The outcome, the limiter state and the session row of one login, on every branch. |
| Login.WhoGetsIn | app/services/auth_service.py:66-90 | The exact condition of each of the four outcomes, from the users and their hashes: a session only for an active user with the right password who is let through. |
| Login.LoginIsItsEvents | app/services/auth_service.py:69-94 | With nothing in between, a login is its entry at the limiter, and its refund if it succeeds. |
| Login.RunTracks | app/services/auth_service.py:66-94 | With logins interleaved between entry and refund, the limiter's history of an account is exactly its attempts let through to the password check since its last refund. |
| Login.LockoutExact | app/services/auth_service.py:50-78 | After any run, with logins under way, an attempt is turned away iff 20 such attempts lie within the last 300 seconds. |
| Login.LockoutWindow | app/services/auth_service.py:69-94 | While no success refunds the account, and however many of its logins are under way at once, at most 20 attempts reach the password check in any 300-second window. |
| Login.SuccessRefunds | app/services/auth_service.py:91-94 | Right after a success the account's history is empty. |
| Login.FailedLoginsLookAlike | app/services/auth_service.py:69-88 | A failed login gives the same answer and the same limiter state whether or not the account exists. |
| CommandAgent.RunTurn | app/ai/command_agent.py:144-189 | The plain loop's outcome and every request it makes equal the recursive turn. |
| CommandAgent.RunTurnStream | app/ai/command_agent.py:191-270 | The streaming loop's events, escape and requests equal its recursive turn. |
| CommandAgent.ReadDeltas | app/ai/command_agent.py:211-233 | One stream's text, calls and delta events, empty texts left out. |
| CommandAgent.AnswerPlainCalls | app/ai/command_agent.py:167-183 | The plain inner loop answers the calls in order and stages what they stage. |
| CommandAgent.AnswerStreamedCalls | app/ai/command_agent.py:241-262 | The streaming inner loop does the same and reports progress for each dispatched call. |
| CommandAgentResults.PlainTurnIsLogged | app/ai/command_agent.py:144-189 | Every turn has a log of at most six rounds, each starting from the transcript of the one before; permitted calls reach their handlers in order. On an answer, a provider error or the round cap it returns exactly the operations the handlers gave, in order: one for each single one, all of each batch, none for any other result. A clarification returns its last question and none; it raises exactly when a handler or the model crashes. |
| CommandAgentResults.StreamingTurnIsLogged | app/ai/command_agent.py:191-270 | The same log and the same operations for the stream, in its last and only result event; its delta events spell the streamed text, and its progress events name each dispatched call once, in order. |
| CommandAgentResults.StreamedInOrder | app/ai/command_agent.py:211-233 | A stream's text is its pieces in order, and its calls are the calls it carries. |
| CommandAgentResults.NewestHistoryShown | app/ai/command_agent.py:272-286 | The model is shown the newest twenty messages, in order, between the system prompt and the new message. |
| CommandAgentTheorems.StreamingIsCollecting | app/ai/command_agent.py:191-270 | Streaming is the plain loop over the collected stream: same requests, one result event and it comes last, and none if an exception escapes. |
| CommandAgentTheorems.TextIrrelevantToTools | app/ai/command_agent.py:288-306 | What the tools do does not depend on the text beside the calls. |
| CommandAgentTheorems.RequestsAgreeIff | app/ai/command_agent.py:152-186 | From any point with any number of rounds left, the two loops make the same requests exactly when no empty text beside tool calls is carried into a further one, and then they end alike. |
| CommandAgentTheorems.LoopsAgreeIff | app/ai/command_agent.py:144-270 | For every conversation with one model behind both clients, streaming makes the plain turn's requests exactly when the plain turn carries no empty text beside tool calls into a further request. |
| CommandAgentTheorems.LoopsAgree | app/ai/command_agent.py:194-199 | Under that condition the turn ends alike on every exit, with the same reply and staged operations as its one, last result event. |
| CommandAgentTheorems.ResultsAgreeIff | app/ai/command_agent.py:194-199 | The exact condition for the promised result: for every model that leads the plain loop through this turn, streaming ends as it does, exactly when the turn carries no empty text beside tool calls into a further request. |
| CommandAgentTheorems.EmptyTextDiverges | app/ai/command_agent.py:167-233 | Without it any two replies can be the two results of one model. |
| CommandAgentTheorems.EveryPromptAnswered | app/ai/command_agent.py:56-60 | Both loops make at most six requests, and in each one every earlier call is answered by exactly one tool message with its id, in order. |
| CommandAgentTheorems.ReadOnlyStagesNothing | app/ai/command_agent.py:288-298 | A read-only user's turn returns no staged operation, however it ends, if only write tools stage. |
| CommandAgentTheorems.ClarificationDropsStaged | app/ai/command_agent.py:169-186 | A clarification ends the turn with the last question asked and drops everything staged. |
| Decisions.ScanNewestFirst | app/repositories/recommendation_repository.py:69-73 | The newest-first scan returns exactly the latest decision of every recommendation that has one. |
| Decisions.DistinctOnRecKey | app/repositories/recommendation_repository.py:61-68 | So does the `DISTINCT ON` query. |
| Decisions.LatestUnique | app/repositories/recommendation_repository.py:52-73 | With distinct times the current decision is the one row of its key with the greatest time, in whatever order the rows were appended. |
| Decisions.DialectsAgree | app/repositories/recommendation_repository.py:61-73 | With distinct times the scan and the `DISTINCT ON` query return the same map. |
| Decisions.TiesAreAmbiguous | app/repositories/recommendation_repository.py:61-73 | Two rows of one key at one time may be listed either way, and both queries then return either one. |
| Decisions.CurrentDecisionCounts | app/repositories/recommendation_repository.py:75-84 | The loop counts, per decision, the recommendations whose current decision it is. |
| Decisions.CountsAddUp | app/repositories/recommendation_repository.py:75-84 | No recommendation is counted twice or lost. |
| DashboardCache.MergeShowsCurrentIff | app/services/dashboard_service.py:304-309 | Merging shows exactly the current decisions when, and only when, no recommendation without a recorded decision already carries one. |
| DashboardCache.RunKeeps | app/services/dashboard_service.py:79-183 | Lock, snapshot, drafts and history stay consistent over every interleaving. |
| DashboardTheorems.EveryServedResponse | app/services/dashboard_service.py:105-117 | Every cache-served response has the content of one generation made under an equal hash at most 24 hours earlier and the current decision of every decided recommendation; it shows exactly the current decisions when, and only when, the stored payload has none on any other. |
| DashboardTheorems.PlainRepliesServeCurrent | app/services/dashboard_service.py:105-117 | If no reply of the model brings a decision along, every cache-served response shows exactly the decisions current when served. |
| DashboardTheorems.ServedExactlyWhen | app/services/dashboard_service.py:90-117 | A response comes from the cache exactly when an ordinary build looks at it, at its start or on getting the lock, and the row has its hash and is at most 24 hours old; a forced build never gets one. |
| DashboardTheorems.GeneratesExactlyWhen | app/services/dashboard_service.py:90-103 | A generation begins exactly with a forced build, without the lock, or with an ordinary one that finds no usable row and the lock free; with the lock taken it waits. |
| DashboardTheorems.GenerationStoresItsDraft | app/services/dashboard_service.py:119-174 | Whatever other builds do meanwhile, a generation stores and returns what was drafted, under its hash and the time of the review, each recommendation with the decision current when the draft arrived, and frees its lock. |
| DashboardTheorems.InventedDecisionIsServed | app/ai/recommendations.py:60-63 | Otherwise any decision the model makes up for an undecided recommendation is served from the cache with no decision recorded. |
| DashboardTheorems.OneGenerationAtATime | app/services/dashboard_service.py:97-103 | At most one ordinary generation is under way. |
| DashboardTheorems.OneGenerationPerWindow | app/services/dashboard_service.py:93-103 | With unchanged inputs and no forced build, of two stored generations the later started more than 24 hours after the earlier was stored. |
| DashboardTheorems.GenerationStartsLate | app/services/dashboard_service.py:93-103 | The same of every generation under way, whether it will be stored or fail: it started more than 24 hours after every stored one. |
| DashboardTheorems.GeneratedResponseCurrentIff | app/services/dashboard_service.py:152-174 | A generated response shows the current decisions exactly when none of its recommendations got a newer one during the review and each decision the model made up is the one recorded meanwhile. |
| DashboardTheorems.DecisionDuringReviewIsMissed | app/services/dashboard_service.py:152-174 | For every decision, a run in which it is missed. |
| Findings.FindingsMeaning | app/services/alert_service.py:154-236 | When each of the four checks fires, for every campaign, in products instead of ratios. |
| Findings.FindingsTell | app/services/alert_service.py:92-236 | A pass has the findings of its campaigns, in their order; each names its campaign, kind, metric and bound, and what it measured, in products instead of ratios. |
| Findings.CplSeverity | app/services/alert_service.py:145-183 | The severity of a cost-per-lead finding by how far spend exceeds what its leads allow. |
| Findings.CtrSeverity | app/services/alert_service.py:185-204 | The severity of a click-through finding by how far clicks fall below the target. |
| Findings.FindingKeysDistinct | app/services/alert_service.py:154-236 | Campaigns with distinct ids never raise two findings with one key. |
| Alerts.AlertService.Acknowledge | app/services/alert_service.py:69-77 | Sets the status and actor of any alert found, resolved or not. |
| Alerts.AlertService.Resolve | app/services/alert_service.py:79-85 | Sets the status and actor of any alert found. |
| Alerts.AlertService.IndexLive | app/services/alert_service.py:91 | Maps each live key to one of its live alerts. |
| Alerts.AlertService.Evaluate | app/services/alert_service.py:89-142 | The new table and all four counts of one pass. |
| AlertTheorems.OldRowsAfter | app/services/alert_service.py:97-130 | An existing row keeps its key, its campaign and who acted on it, and its status unless it is the indexed alert of a key without a finding, which is resolved; no resolved alert changes. |
| AlertTheorems.FindingsShownAfter | app/services/alert_service.py:97-124 | After a pass every finding is shown, with its numbers, by a live alert of its key: the one it had, or a new open one of the finding's campaign that nobody has acted on. |
| AlertTheorems.LiveWithKeyAfter | app/services/alert_service.py:97-130 | A key with a finding keeps its live alerts or gets one; a key without one loses exactly its indexed alert, even when it had several. |
| AlertTheorems.LiveKeysAreFindingKeys | app/services/alert_service.py:89-142 | After a pass over unique live alerts the live keys are the finding keys. |
| AlertTheorems.CountsBalance | app/services/alert_service.py:96-142 | opened + updated is the number of findings, and opened - auto_resolved the change in live alerts, in any state. |
| AlertTheorems.SecondPass | app/services/alert_service.py:89-142 | A second pass opens nothing, and resolves nothing exactly when no key without a finding had two live alerts. |
| AlertTheorems.AcknowledgeKeepsUniqueIff | app/services/alert_service.py:69-77 | Acknowledging keeps live alerts unique exactly when the alert is live already or its key has no live alert. |
| AlertTheorems.EveryRun | app/services/alert_service.py:69-142 | Over every run of passes, resolutions and such acknowledgements live alerts stay unique per key, each pass ends with the finding keys, and nothing else revives a resolved alert. |
| AlertTheorems.RevivedAlertDuplicates | app/services/alert_service.py:69-142 | Open, resolve, open again, acknowledge the resolved alert: a run from the empty table that ends with two live alerts for one key. |
| PlatformSync.PlatformInsightRepository.UpsertCampaigns | app/repositories/platform_insight_repository.py:44-77 | The new campaign rows and the returned ids, or a failure that changes nothing. |
| PlatformSync.PlatformInsightRepository.UpsertAdSets | app/repositories/platform_insight_repository.py:79-126 | The same for ad sets whose campaign was returned. |
| PlatformSync.PlatformInsightRepository.UpsertAds | app/repositories/platform_insight_repository.py:128-172 | The same for ads, with the number of rows kept. |
| PlatformSync.PlatformInsightRepository.Sync | app/services/platform_insight_service.py:79-90 | One pass feeds the ids of each level to the next, all or nothing. |
| PlatformSyncTheorems.UpsertAllUpserts | app/repositories/platform_insight_repository.py:72-77 | One statement writes each value under the id its key already had, and touches nothing else. |
| PlatformSyncTheorems.PassSucceedsIff | app/repositories/platform_insight_repository.py:44-172 | A pass goes through exactly when no campaign, no ad set whose campaign is in the batch and no ad whose ad set is one of those comes twice, whatever is stored. |
| PlatformSyncTheorems.PassSkipsExactly | app/repositories/platform_insight_repository.py:62-172 | Told by its batch alone: a completed pass writes every campaign, exactly the ad sets whose campaign is in the batch and exactly the ads whose ad set is one of those, each under the parent it names; all other rows stay, and the counts are the numbers written. |
| PlatformSyncTheorems.EverySequenceOfPasses | app/repositories/platform_insight_repository.py:44-172 | Over any sequence of passes every parent id points at a row of the same client and platform, and no row changes its id. |
| PlatformSyncTheorems.EveryRunOfPasses | app/repositories/platform_insight_repository.py:44-172 | The same for every run from empty tables, between any two points of it. |
| Analytics.AnalyticsService.BulkUpsert | app/repositories/analytics_repository.py:35-68 | The deduplicated statement leaves the table that upserting row by row leaves, and returns the number of distinct cells. |
| Analytics.LastRowWins | app/repositories/analytics_repository.py:40-44 | Each cell ends with the facts of its last row. |
| Analytics.OtherCellsStay | app/repositories/analytics_repository.py:35-68 | No cell outside the batch changes. |
| Analytics.UpsertIdempotent | app/repositories/analytics_repository.py:35-68 | Repeating a batch changes nothing. |
| Analytics.AnalyticsService.ByPlatform | app/repositories/analytics_repository.py:140-166 | Each platform's sums over its rows in the period, and no empty group. |
| Analytics.AnalyticsService.DailySeries | app/repositories/analytics_repository.py:186-212 | The same per day. |
| Analytics.AnalyticsService.Totals | app/repositories/analytics_repository.py:128-138 | The sums of the rows in scope. |
| Analytics.BreakdownsAddUp | app/repositories/analytics_repository.py:128-212 | Without a platform filter the totals equal the sums of the per-platform and of the per-day groups. |
| Analytics.PlatformTotalsMatch | app/repositories/analytics_repository.py:128-166 | The totals for one platform are that platform's group, and zero if it has none. |
| Analytics.DayTotalsMatch | app/repositories/analytics_repository.py:128-212 | The totals of one day, both ends included, are that day's group; the series has no day outside the period. |
| Analytics.AnalyticsService.Ingest | app/services/analytics_service.py:46-72 | The new table, the refreshed client row and the count. |
| Analytics.CostPerLead | app/services/client_rollup.py:30-34 | The stored cost per lead times the leads is the stored spend, up to half a cent a lead; without leads it is zero. |
| Analytics.RollupsStayInStep | app/services/client_rollup.py:24-34 | After any sequence of ingests every client's stored spend, leads and cost per lead are those of its rows. |
| BodyGuard.GuardedReceive.Receive | app/core/middleware.py:400-407 | The next message, or the exception exactly when a body message takes the running total past the limit. |
| BodyGuard.BufferRequestBody | app/core/middleware.py:259-277 | The consumed messages and their joined body, read up to the end, a disconnect or the cap, on every exit. |
| BodyGuard.ReplayReceive.Receive | app/core/middleware.py:280-286 | The same contract as the guard's receive, message by message. |
| BodyGuard.Call | app/core/middleware.py:382-423 | A whole request around an arbitrary app: what it reads and what is sent. |
| BodyGuardTheorems.WhatIsSent | app/core/middleware.py:382-440 | The whole exchange in literals: a declared length over the limit, or a body that passes it while buffered, gets status 413 and the error text with nothing read; otherwise what the app sends is sent, followed by those two messages exactly when it lets the rejection escape before its response has begun. |
| BodyGuardTheorems.AppReadsTheOriginal | app/core/middleware.py:280-286 | The app reads the original messages in order, none skipped or repeated; the first body message past the limit is refused, and so is every later one. |
| BodyGuardTheorems.NeverMoreThanTheLimit | app/core/middleware.py:400-407 | The app never gets more than `max_bytes` of body, even if it swallows the exception and reads on. |
| BodyGuardTheorems.AtMostOneStart | app/core/middleware.py:409-423 | At most one response is begun, and an escaped rejection is answered when the app had begun none. |
| BodyGuardTheorems.HonestLengthDecides | app/core/middleware.py:387-395 | With a truthful length (section 8.6 of RFC 9110) the header alone decides between a 413 (section 15.5.14) with nothing read and an undisturbed exchange. |
| BodyGuardTheorems.BufferingIsTransparent | app/core/middleware.py:259-288 | Buffering changes nothing the app or the client can observe, unless the limit is passed before buffering would have stopped or the client never sends enough to stop it. |
| BodyGuardTheorems.AuditBodyNotTruncated | app/core/middleware.py:259-295 | The copy is the bodies of the messages read; within the cap it is whole unless the client disconnected, and nothing shorter would have been returned. |
| BodyGuardTheorems.DisconnectLeavesUnfinishedCopy | app/core/middleware.py:266-277 | Whatever part of a body a client sends before disconnecting is returned as the copy, though it is not the whole body. |
| RouteCache.RouteCacheGlobals.Lookup | app/ai/model_router.py:153-159 | The cache, its time and the answer of one uninterrupted lookup. |
| RouteCache.RouteCacheGlobals.InvalidateCache | app/ai/model_router.py:114-119 | The cache is dropped, its time is not. |
| RouteCache.UninterruptedLookup | app/ai/model_router.py:153-159 | Check, load and publish with nothing in between are that lookup. |
| RouteCacheTheorems.EveryAnswerRecent | app/ai/model_router.py:105-159 | Whatever is interleaved, every answer is the active routes of some moment between 30 seconds before the lookup began and its answer, or a load that failed in that time. |
| RouteCacheTheorems.EveryCommitSeenInTime | app/ai/model_router.py:105-108 | A lookup that begins more than 30 seconds after a commit sees it, with no invalidation at all. |
| RouteCacheTheorems.LookupsShareALoad | app/ai/model_router.py:153-159 | After a publication a lookup is answered with that map, without asking the database, exactly as long as its load began at most 30 seconds ago, short of an invalidation or another publication. |
| RouteCacheTheorems.InvalidationHoldsIff | app/ai/model_router.py:114-119 | Every lookup that begins after an invalidation answers with the current version or a later one, whatever follows, exactly when no older map that the cache could still serve is in flight. |
| RouteCacheTheorems.UpdateIsSeen | app/services/ai_model_route_service.py:89-99 | Then every lookup that begins after the update, with anything between its steps, answers with the updated route, unless its load failed since the commit. |
| RouteCacheTheorems.UpdateChangesOneRoute | app/ai/model_router.py:138-144 | Writing one row changes the answer for its category, to its model while it is active and has one, and for no other. |
| RouteCacheTheorems.LateLoadHidesUpdate | app/services/ai_model_route_service.py:96-98 | Otherwise any update can stay hidden for 30 seconds: the first lookup after it answers with the old routes. |
| Similarity.CauchySchwarz | app/repositories/knowledge_repository.py:79-81 | dot * dot <= (sum of squares) * (sum of squares), for all vectors of equal length. |
| Similarity.CosineRange | app/repositories/knowledge_repository.py:76-84 | The score lies in [-1, 1], for any two vectors. |
| Similarity.CosineIs | app/repositories/knowledge_repository.py:76-84 | The score's square times both squared lengths is the square of the product, with its sign; vectors of different lengths and zero vectors score nothing. |
| Similarity.CosineOneIff | app/repositories/knowledge_repository.py:76-84 | The score is 1 exactly for the positive multiples of a vector that is not zero. |
| Similarity.CosineSymmetric | app/repositories/knowledge_repository.py:76-84 | The order of the vectors does not matter. |
| Similarity.SearchPython | app/repositories/knowledge_repository.py:58-73 | The hits are the slice of the ranked list, with their scores, and all of this client. |
| Similarity.HitsAre | app/repositories/knowledge_repository.py:58-73 | Every hit is a chunk of this client with an embedding, scored by its cosine times its weight (zero counting as one); best first, nothing better of this client left out, and as many as `top_k` asks for, or for a negative one all but that many. |
| Similarity.SearchIsTopK | app/repositories/knowledge_repository.py:72-73 | The ranking permutes the scored chunks, and equal scores stay in table order. |
| Similarity.NothingBetterOmitted | app/repositories/knowledge_repository.py:58-73 | No searchable chunk of the client that is not returned scores higher than one that is. |
| Sorting.StableSortCorrect | app/repositories/knowledge_repository.py:72 | The sort orders, permutes and keeps ties in place. |
| Sorting.StableSortUnique | app/core/rate_limit.py:103-105 | Nothing else does: these three determine the result. |
| Pricing.TotalNearParts | app/ai/pricing.py:138-146 | The stored total is within 2 micro-dollars of the sum of the stored parts, for all rates and counts. |
| Pricing.CostsAreNearest | app/ai/pricing.py:71-146 | Each stored cost is the whole number nearest to the tokens of its kind at the rate of that kind, an override's rate before the catalog's; priced exactly when there is a rate, and zero otherwise. |
| Pricing.BoundAttained | app/ai/pricing.py:138-146 | Both ends of that bound are reached. |
| Pricing.TotalMonotone | app/ai/pricing.py:138-146 | With non-negative rates more tokens never cost less. |
| Pricing.CatalogPricesCharged | app/ai/pricing.py:84-96 | A missing output or cache price is charged at the input price; a published one is charged as it is exactly when it is not zero or input is free, and at the input price otherwise. |
| Pricing.ZeroPricesAreMissing | app/ai/pricing.py:91-96 | Publishing zero for any of the three costs what publishing nothing does, in every part of the cost. |
| Pricing.FreeOutputIsCharged | app/ai/pricing.py:93 | The stored output cost of free output is that of a model whose output costs as much as its input. |
| Rounding.RoundUnique | app/ai/pricing.py:144-146 | Nearest, and even at a tie, determine the rounded amount. |
| Slug.SlugifyJoinsWords | app/utils/slug.py:11-13 | A slug is the words of the lowered text joined by dashes, or the fallback when there is none. |
| Slug.OutputIsSlug | app/utils/slug.py:11-13 | Only a-z, 0-9 and single inner dashes, or the fallback for a text without a slug character. |
| Slug.SlugifyFixesIff | app/utils/slug.py:11-13 | Exactly the slugs are left unchanged whatever the fallback. |
| Slug.IdempotentIff | app/utils/slug.py:11-13 | Slugifying twice is slugifying once, for all texts, exactly when the fallback slugifies to itself; the default one does. |
| Slug.DecimalInjective | app/utils/slug.py:24 | Different counters give different suffixes. |
| Slug.DecimalReadsBack | app/utils/slug.py:24 | A suffix reads back as its counter, without leading zeros. |
| Slug.UniqueSlug | app/utils/slug.py:16-26 | For any finite taken set the loop ends within one probe more than its size, with the first free name in the order base, base-2, base-3. |
| Slug.CandidateIsSlug | app/utils/slug.py:24 | A numbered slug is a slug, and slugifying it again keeps it. |

## Left out

- Plan generation (`app/ai/plan_generation.py`): its date clamping is a single comparison per date and would only add easy members.
- `_search_pg`, `upsert_metrics_daily` and `_upsert_rec_keyed`: queries, and upserts with the pattern already modelled.
- SQL sessions, commits and dialects: tables are maps keyed by their unique constraint. A batch that touches one row twice fails as on Postgres; SQLite would take the last value.
- Language model, HTTP, Redis and database I/O; header parsing; bcrypt, tokens, session expiry and logout. The network's failures appear as outcomes.
- Alert titles, detail texts and the rounding of `actual` to two decimals for display.
- The order of the aggregation queries' groups; the model's daily groups also carry conversions, which the query does not select.
- The parsing and redaction of the audit diff (`_changes_from_body`), beyond which bodies reach it.
- Changes of the model id or of the offered tools between the rounds of one turn.
- Several worker processes sharing one dashboard row, and thread races inside one route lookup: publication is one step.
- The dashboard service in the form of a class: its builds are steps of a state machine, so the in-place merge into `rec.decision` appears as a function.
- Redis evicting or expiring keys other than by their expiry time.
- CommandAgentTheorems.ReadOnlyStagesNothing: assumes that only handlers of kind "write" stage operations, because the tool registry is not part of this model.
- BodyGuard.Call: leaves out the audit record and the response peek, which change neither what the app reads nor what is sent.
