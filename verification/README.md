# TokenHub: the stateful cores, modelled and proved

TokenHub is an LLM gateway. This project models the parts of it whose promises hold over whole runs, and proves
those promises with Dafny 4.11:

- the **credit ledger**: balances, holds and the transaction log under optimistic locking, in every interleaving of
  any number of transactions (`Ledger`, `Conservation`, `CreditsRepository`);
- **one chat request** from hold to billing, for every upstream reply, every random draw, every database failure and
  every other request that commits meanwhile (`Chat`, `ChatAccounting`, with `Routing`, `Failover`, `Fallback`,
  `Rates`, `Providers`);
- the **books against each other**: log, usage summaries and quota counters over every interleaving of any number of
  requests (`UsageLog`, `Reconciliation`, `ChatRuns`);
- the **caches**: the lazily expiring memory cache against an ideal timed map, the rate limiter on top of it, and the
  token cache in front of the token table (`TimedCache`, `RateLimiting`, `TokenAuth`);
- the **other machines**: refresh-token rotation, the audit worker, the base64url encoder, the tunnel controller
  (`AdminSessions`, `AuditSink`, `Base64Url`, `Tunnel`).

`dafny verify dfyconfig.toml` checks everything.

## How the model is laid out

Code that changes state is modelled as a class whose methods follow the statements of the source, and each method's
`ensures` equates the new state with a function of the old one. The properties are lemmas about those functions and
about runs of them. SQLite tables are maps and sequences of rows.

**Transactions.** SQLite runs in WAL mode behind a pool of eight connections
(`crates/storage/src/connection.rs:14-29`), so a transaction reads one snapshot and commits later against whatever
the tables have become. `Ledger.RunTx(op, snap, cur)` is one transaction: every SELECT reads `snap`, every UPDATE and
INSERT acts on `cur`, and the `version` column is the only guard. `Ledger.Run` interleaves begin, commit and abort
steps of any transactions in any order. Nothing in the proofs relies on SQLite refusing a stale writer; the version
check alone is shown to be enough.

**Integers.** Rust-side `i64` sums wrap (`Common.WrapI64`), and then the ledger loses its meaning
(`Conservation.ReleaseCanWrap`). `Conservation.Fits` is the exact guard: before a hold is released or settled, what
the account keeps held, and on a release its balance with the amount returned, must fit an `i64`. A run conserves at
every moment if and only if each committed operation meets it (`ConservedAlwaysIff`). `Countable`, that no adjustment
lifts an account's credits beyond an `i64`, is a condition on adjustments alone which keeps every run within the guard
(`CountableConserves`). The results about one chat request assume the guard, and so hold in particular under
`Countable` (`CountableIsLawful`).

**What is an input.** Upstream replies, random draws, clocks, generated ids and the operations of other tasks are
parameters, universally quantified in every result. So are database failures wherever the code goes on after one: in
the chat request, in session refresh and logout, in the alert's mark and in the audit worker; a ledger transaction may
also abort at any point. A failing call that ends its request at once is otherwise a step that did not happen. Calls
of the rate limiter, of token authentication and of session refresh are single steps.

## Where code and documentation disagree

The model follows the code.

- `crates/cache/src/rate_cache.rs:1-4` describes a sliding window. The code counts in fixed windows, so an interval
  of one window length can see up to `2 * max_count - 1` allowed calls (`IntervalBound`, `IntervalBoundIsReached`).
  The sliding promise holds exactly for limits of at most one, and for windows too short to hold two instants (`PromiseIff`).
- `crates/cache/src/token_cache.rs:4` says that revoking a token deletes its cache entry. Nothing calls that
  deletion: a revoked token is let in until its entry expires (`RevokedTokenStillAccepted`), though never for ten
  minutes or more (`RevocationTakesHold`).
- `crates/router-llm/src/fallback.rs:1-10` lists 429 as falling back only when the body speaks of a quota, and a
  comment on timeouts says they do not disable the provider. In the code every 429 falls back
  (`BodyDecidesOnlyForbidden`), and every fallback, timeouts included, disables.
- The alert text at `crates/api/src/handlers/chat.rs:276` promises no repeated alert. Requests that overlap can both
  alert (`OverlappingRequestsBothAlert`); `AlertIff` says exactly when an alert goes out, and `RepeatedAlertsOverlap`
  that requests which do not overlap cannot repeat one that was marked.

## What the proofs turned up

- Settling is refused when the price exceeds the hold by more than the balance, and it is lost when anyone moves the
  account between its snapshot and its commit. Neither is retried: the hold then stays held for good.
  `HoldIsResolvedIff` gives the exact condition.
- A hold that is lost because another request of the same account committed first is reported as insufficient credits,
  however much the account has (`ResponseIs`); nothing on other accounts can cause that (`CommitIff`).
- A settled request whose log entry cannot be inserted is charged but appears in no summary. `RequestBilling` shows
  that this is the only way for one request to part the books.
- An administrator's adjustment whose reason is "usage" is indistinguishable, by that label, from billed usage.
  `SettledBooksAgreeIff` shows that, once an account's requests are settled and aggregated, log and summaries agree
  exactly when such adjustments come to nothing.
- A failed `wait` on the frpc child lets go of it unkilled, so a second one can start beside it
  (`FailedWaitLeavesTwo`). A `close` whose caller goes away frees the lock while the old child is still being killed, so
  a second one can start as well (`DroppedCloseLeavesTwo`). `AliveAre` says exactly which processes are alive, and
  `AtMostOneChildIff` when there is at most one.
- Refreshing discards the errors of its two revocations. With one lost, a refresh token works twice
  (`LostRevocationWorksTwice`). A token works exactly until one of its uses gets the revocation written
  (`RefreshableIff`), `LiveTokensAreCounted` and `LiveAccessIsCounted` say how many live refresh and access tokens a
  chain then has, and `OneLiveAccessTokenIff` when it keeps to one linked pair.
- Logging out revokes the access token only; the refresh token still works (`LogoutLeavesRefreshToken`).
- The quota test is right for every limit and threshold exactly while a hundred times the usage fits an `i64`, or
  is negative and wraps to nothing positive (`TestIsAlwaysRightIff`).

## Model

| member | source | states |
|---|---|---|
| Ledger.CommitIsAtomic | crates/storage/src/repo/credits.rs:53-311 | a transaction that read an old snapshot and passed its version check did exactly what it would have done alone on the present database, with the same answer; any other changed nothing, and a refusal is the one it would have met alone at its snapshot |
| Ledger.SnapshotHoldIsCurrent | crates/storage/src/repo/credits.rs:174-238 | equal versions mean that the hold row read in the snapshot, and the balance row, are still the current ones |
| Ledger.AtomicExtends | crates/storage/src/repo/credits.rs:79-311 | every operation only raises versions, and leaves an account whose version it does not raise untouched with all its holds; accounts and amounts of holds and resolved statuses never change |
| Ledger.RunKeepsSnapshots | crates/storage/src/connection.rs:14-29 | in every interleaving each open snapshot is related to the present database by that extension |
| Ledger.Serializable | crates/storage/src/repo/credits.rs:53-311 | every interleaving leaves exactly the database that its committed operations leave when run alone one by one in commit order, and each is accepted there |
| Ledger.ExactlyOnce | crates/storage/src/repo/credits.rs:174-311 | in every interleaving a hold is placed at most once, settled or released at most once and never both, and its row says which, although the status UPDATEs do not test the status |
| Ledger.VersionCountsWrites | crates/storage/src/repo/credits.rs:79-307 | an account's version is 0 at first and grows by one with each accepted operation on it, and with nothing else |
| Ledger.GetsThroughIff | crates/storage/src/repo/credits.rs:65-153 | the same for any operations between snapshot and commit: what happens to other accounts decides nothing |
| Ledger.CommitIff | crates/storage/src/repo/credits.rs:53-311 | in every interleaving a transaction that comes to commit is refused if and only if what it read does not afford it, and lost if and only if it does and an operation on its own account was committed since it began; it commits in every other case, unless it would place a hold under a taken id |
| Conservation.AtomicConservesIff | crates/storage/src/repo/credits.rs:53-311 | one operation keeps balance non-negative, held the sum of active holds and balance + held the sum of the log if and only if it meets the guard, and then moves totals by its charge alone |
| Conservation.OnlyReleasesBreak | crates/storage/src/repo/credits.rs:286-307 | where nothing held is beyond an i64, only a release breaks the books, and exactly when the returned amount does not fit the balance |
| Conservation.ActiveHoldIsCovered | crates/storage/src/repo/credits.rs:344-364 | every hold the active-holds query returns is covered by its account's held column |
| Conservation.ConservedAlwaysIff | crates/storage/src/repo/credits.rs:53-311 | in every interleaving of legal operations, at every moment every account's balance is non-negative, its held column is the sum of its active holds and balance + held is the sum of its log deltas, if and only if each committed operation met the guard |
| Conservation.ConservedAlways | crates/storage/src/repo/credits.rs:53-311 | a run that meets the guard ends conserved, with no balance and no active hold beyond an i64 |
| Conservation.CountableConserves | crates/storage/src/repo/credits.rs:69-74 | a run in which no adjustment lifts an account's credits beyond an i64 meets the guard throughout and conserves |
| Conservation.CountableIff | crates/storage/src/repo/credits.rs:69-74 | that condition on adjustments holds exactly if no account ever has more credits, held or not, than an i64 counts |
| Conservation.AdjustAcceptedIff | crates/storage/src/repo/credits.rs:53-111 | an adjustment alone succeeds exactly if the exact new balance is a non-negative i64, and then answer, row and one new log row all say that balance; otherwise nothing changes |
| Conservation.PlaceAcceptedIff | crates/storage/src/repo/credits.rs:115-170 | a hold alone is placed exactly if the balance covers it and its id is new, and the answer is its id with the row's new version; otherwise nothing changes |
| Conservation.SettleAcceptedIff | crates/storage/src/repo/credits.rs:174-257 | settling an active hold alone, where no more is held than fits an i64, is refused exactly if the exact new balance is negative or does not fit, and otherwise answer, row and log row say that balance; the test for negative held never fires |
| Conservation.ReleaseConservesIff | crates/storage/src/repo/credits.rs:260-311 | releasing an active hold alone always succeeds; where no more is held than fits an i64 it conserves, keeps the balance non-negative and answers balance plus the returned amount, exactly if that fits |
| Conservation.ReleaseCanWrap | crates/storage/src/repo/credits.rs:286-300 | a concrete run of accepted operations, with an account lifted beyond i64, whose last release leaves a negative balance |
| CreditsRepository.CreditsRepo.Init | crates/storage/src/repo/credits.rs:22-32 | INSERT OR IGNORE of a zero row |
| CreditsRepository.CreditsRepo.Adjust | crates/storage/src/repo/credits.rs:53-111 | the transaction, statement by statement, is the adjust of the interleaving model, with its three answers |
| CreditsRepository.CreditsRepo.PlaceHold | crates/storage/src/repo/credits.rs:115-170 | likewise for placing a hold; a taken id rolls back; when it is refused, lost or placed is `Ledger.GetsThroughIff` |
| CreditsRepository.CreditsRepo.SettleHold | crates/storage/src/repo/credits.rs:174-257 | likewise for settling |
| CreditsRepository.CreditsRepo.ReleaseHold | crates/storage/src/repo/credits.rs:260-311 | likewise for releasing |
| Chat.Gateway.ChatCompletions | crates/api/src/handlers/chat.rs:49-304 | the handler's new ledger, providers, usage tables and alerts, and its response, are those of the request function; `ResponseIs`, `AnsweredRequest` and `RequestDisables` say what that answers, charges, writes down and turns off |
| Chat.Gateway.FinishRequest | crates/api/src/handlers/chat.rs:187-304 | a success settles and is written down, by the counts `AnsweredRequest` names; a caller's error or exhaustion releases, with the matching error |
| Chat.Gateway.FilterActive | crates/api/src/handlers/chat.rs:77-89 | the candidates are the mappings, in order, whose provider is active |
| Chat.Gateway.Settle | crates/api/src/handlers/chat.rs:228-233 | settling reads its snapshot when it begins and commits after whatever others commit meanwhile |
| Chat.Gateway.WriteDown | crates/api/src/handlers/chat.rs:239-268 | the log entry goes in with its summaries or not at all, and only then is the quota counted |
| Chat.Gateway.CountUsage | crates/api/src/handlers/chat.rs:262-300 | the quota counter grows by the entry's tokens, and the alert goes out exactly when it is unsent and over threshold |
| ChatAccounting.CountableIsLawful | crates/api/src/handlers/chat.rs:111-233 | what the request results assume of the ledger holds whenever no adjustment lifts an account's credits beyond an i64 |
| ChatAccounting.HoldStandsToTheEnd | crates/api/src/handlers/chat.rs:111-233 | whatever others commit while the request runs, its hold is active and in full when the settlement begins and when it commits, and the ledger is sound at both moments |
| ChatAccounting.RequestAccounting | crates/api/src/handlers/chat.rs:111-233 | placing the hold moves no account's balance + held; the end of the request takes the price of the answer if the hold was settled, and nothing otherwise, from that account alone; the hold's status tells which |
| ChatAccounting.HoldIsResolvedIff | crates/storage/src/repo/credits.rs:174-311 | the hold is resolved exactly if no database error occurs, no other operation on the account is accepted during the transaction, and what hold and balance leave after the price is not negative and fits an i64; nothing held may be beyond an i64 |
| ChatAccounting.UndisturbedRequest | crates/api/src/handlers/chat.rs:111-233 | left alone, a released request leaves the account as it found it, a settled one takes exactly the price, and one too expensive leaves the estimate held |
| ChatAccounting.UnplacedRequest | crates/api/src/handlers/chat.rs:54-121 | a request whose hold is not placed fails and changes nothing; it reports insufficient credits exactly if it passed the checks and the hold was refused or lost |
| ChatAccounting.CandidatesAreActive | crates/api/src/handlers/chat.rs:77-89 | the candidates are exactly the mappings with an active provider, each as often as it is mapped |
| ChatAccounting.CandidatesKeepOrder | crates/api/src/handlers/chat.rs:77-89 | and they stand in the order of the mappings |
| ChatAccounting.ChargedAlmostExactly | crates/api/src/handlers/chat.rs:221-226 | an answer is never charged more than its exact price, nor two credits less |
| ChatAccounting.HoldCoversPrompt | crates/api/src/handlers/chat.rs:98-109 | the hold covers any answer without a completion whose prompt is no longer than estimated |
| ChatAccounting.EstimateIs | crates/api/src/handlers/chat.rs:98-109 | what is held in advance is the price of the estimated prompt alone, or one credit if it comes to less |
| ChatAccounting.EstimateIsClose | crates/api/src/handlers/chat.rs:98-109 | where the product fits, that is the prompt's exact price in whole credits, at least one |
| ChatAccounting.CountQuotaIsAddThenMark | crates/api/src/handlers/chat.rs:262-300 | counting a request's tokens changes that provider's row alone, as the add and the mark of the alert's event machine do with nothing in between, and alerts exactly when that machine does |
| ChatAccounting.HoldRefusedIff | crates/api/src/handlers/chat.rs:111-121 | the hold is refused exactly if the account is missing or its balance is below the estimate, lost exactly if it is not and another operation on that account is accepted before it commits, and placed in every other case in which its id is new |
| ChatAccounting.ResponseIs | crates/api/src/handlers/chat.rs:49-304 | which answer or error every request gets, whatever it finds: insufficient credits exactly if the account is missing, the balance is below the estimate or another operation on the account is accepted before the hold commits; an upstream error exactly if the hold is placed and no candidate answers; the exhausted walk never ends without an error |
| ChatAccounting.AnsweredRequest | crates/api/src/handlers/chat.rs:203-268 | an answered request takes from its account the price of the tokens its reply reports, or of the estimates if it reports none; the period's summary row grows by each count in its own column, the price and one call, the provider's row and quota by all tokens; nothing else changes |
| ChatAccounting.AnsweredPrice | crates/billing/src/usage_source.rs:30-55 | where the products fit, what it takes is the reply's exact price less at most 1998 thousandths of a credit |
| ChatAccounting.RequestDisables | crates/api/src/handlers/chat.rs:167-195 | a request turns off exactly the providers of the candidates that fell back before the walk ended, so far as the writes got through |
| ChatAccounting.RequestBilling | crates/api/src/handlers/chat.rs:203-268 | an answered request takes from the log what it adds to the account's summaries and counts in the quota what it adds to the provider's; a settled one goes unanswered exactly if its entry cannot be inserted |
| ChatAccounting.RecordBills | crates/storage/src/repo/usage_log.rs:39-100 | a recorded request adds its price to its account's total over all periods and its tokens to its provider's, and to no other |
| Failover.TryCandidates | crates/api/src/handlers/chat.rs:138-195 | the loop ends where the walk ends, with exactly the providers left behind disabled; `FailoverTrace` says where that is in terms of the replies |
| Failover.FailoverTrace | crates/api/src/handlers/chat.rs:138-201 | candidates are tried in the selected order with none skipped; the walk ends at the first whose reply is a success or a caller's error, and answers if and only if it is a success; exactly the providers left behind, so far as the writes got through, are disabled |
| Failover.AllKnown | crates/api/src/handlers/chat.rs:140-144 | the branch for a candidate whose provider is not found never runs |
| Fallback.BodyDecidesOnlyForbidden | crates/router-llm/src/fallback.rs:30-89 | the body decides only for 403 and its letter case never does; every 429 disables and falls back |
| Fallback.ClassifyIff | crates/router-llm/src/fallback.rs:30-89 | an error disables and falls back if and only if it is status 402, 429 or at least 500, a 403 whose body has "quota", "billing" or "limit" in it in letters of either case, a timeout or a failed connection |
| Fallback.ContainsIff | crates/router-llm/src/fallback.rs:57-66 | the keyword test finds a word exactly if it stands somewhere in the body |
| Fallback.SpeaksIff | crates/router-llm/src/fallback.rs:57-66 | lower-casing the body first finds a word exactly if it stands there in letters of either case |
| Routing.StableSortIsStable | crates/router-llm/src/selector.rs:49-58 | the sort is a permutation, in order, and keeps ties as they were given |
| Routing.StableSortIsUnique | crates/router-llm/src/selector.rs:49-58 | there is only one stable sort, so nothing hangs on the library's algorithm |
| Routing.Chosen | crates/router-llm/src/selector.rs:84-93 | the chosen item's stretch of the wheel contains the draw |
| Routing.ChosenIff | crates/router-llm/src/selector.rs:84-93 | a draw selects an item exactly when it falls on that item's stretch |
| Routing.RouletteIsExact | crates/router-llm/src/selector.rs:80-96 | exactly max(1, weight) of the possible draws select each remaining item |
| Routing.ShuffleIsPermutation | crates/router-llm/src/selector.rs:80-96 | the shuffle is a permutation of its group for all draws in range |
| Routing.EveryPermutationIsDrawn | crates/router-llm/src/selector.rs:80-96 | every permutation of the group comes out for some draws |
| Routing.Spin | crates/router-llm/src/selector.rs:84-93 | the scan always stops at an item, the one whose stretch contains the draw; index 0 is never a fall-through |
| Routing.WeightedShuffle | crates/router-llm/src/selector.rs:80-96 | the loop of picks and removals is the shuffle |
| Routing.GroupEnd | crates/router-llm/src/selector.rs:64-71 | the inner loop collects the whole level group |
| Routing.RandomOrder | crates/router-llm/src/selector.rs:56-77 | the grouping loop shuffles each level of the sorted list within itself |
| Routing.RandomOrderIsByLevel | crates/router-llm/src/selector.rs:56-77 | random mode yields a permutation with levels ascending, so each level is contiguous |
| Routing.RandomOrderReachesExactly | crates/router-llm/src/selector.rs:56-77 | random mode can produce an order if and only if it is a permutation with levels ascending |
| Routing.SequentialOrderIsStable | crates/router-llm/src/selector.rs:49-53 | sequential mode orders by level, within a level by falling weight, and those equal in both as given |
| Routing.Select | crates/router-llm/src/selector.rs:32-46 | the first candidate's strategy decides; a sequential order is the stable sort by level and falling weight; either way the result is a permutation with levels ascending |
| Routing.SelectsIff | crates/router-llm/src/selector.rs:32-77 | if the first candidate is sequential, an order is selected if and only if it is that stable sort, whatever is drawn; if it is random, if and only if it is a permutation with levels ascending |
| Routing.EveryLevelIsShuffled | crates/router-llm/src/selector.rs:56-77 | in random mode each level stands together and is the shuffle of its candidates by the draws for its places |
| Routing.EveryPickIsRoulette | crates/router-llm/src/selector.rs:56-96 | in random mode every place of every level goes to one of the level's candidates not placed before, as its draw falls, and exactly max(1, weight) of the draws for it bring out each of them |
| Rates.CreditsFit | crates/billing/src/rates.rs:22-31 | no input can overflow the final sum |
| Rates.CreditsMonotone | crates/billing/src/rates.rs:22-31 | more tokens never cost less, saturated or not |
| Rates.PriceIff | crates/billing/src/rates.rs:22-31 | for every count and rate, what is computed is the sum of two shares, each the product clamped to an i64 and its thousandths rounded towards zero by itself |
| Rates.UnderchargesByLessThanTwo | crates/billing/src/rates.rs:22-31 | the charge never exceeds the exact cost and misses it by less than two credits |
| Rates.SplittingCostsAtMostTwo | crates/billing/src/rates.rs:22-31 | billing a usage in two parts never costs more, and at most two credits less |
| Providers.OverThresholdIff | crates/api/src/handlers/chat.rs:270-272 | without a positive limit the test never holds; otherwise, for every usage and threshold, what it compares: the wrapped product with threshold percent of the limit |
| Providers.TestIsAlwaysRightIff | crates/api/src/handlers/chat.rs:270-272 | the test says "usage is at least threshold percent of the limit" for every limit and positive threshold if and only if the product fits an i64, or is negative and wraps to nothing positive |
| Providers.OverThresholdCanWrap | crates/api/src/handlers/chat.rs:270-272 | beyond that a provider over its limit raises no alert |
| Providers.AlertIff | crates/api/src/handlers/chat.rs:262-300 | in any interleaving, whether or not marks are written, an alert goes out if and only if the request's last statement before was an addition that left usage over threshold, with no mark set from the start or by an alert since the last sync |
| Providers.AlertSentIff | crates/storage/src/repo/provider.rs:208-260 | the mark is set exactly if it was at first and no sync came, or an alert since the last sync wrote it |
| Providers.UsageSinceSync | crates/storage/src/repo/provider.rs:208-260 | after a sync the usage is the official figure and what was added since |
| Providers.RepeatedAlertIff | crates/api/src/handlers/chat.rs:262-300 | after a written mark and with no sync since, a later mark alerts if and only if its request had found the alert due before that mark, is another one, and neither added nor marked in between |
| Providers.RepeatedAlertsOverlap | crates/api/src/handlers/chat.rs:262-300 | so between syncs a second alert needs a failed mark, or a request that had added its usage before the first one marked |
| Providers.OverlappingRequestsBothAlert | crates/api/src/handlers/chat.rs:262-300 | two overlapping requests that both alert |
| Providers.ProviderRepo.SetStatus | crates/storage/src/repo/provider.rs:139-168 | changes the status of that row alone, and reports whether there is one |
| Providers.ProviderRepo.AddUsage | crates/storage/src/repo/provider.rs:208-229 | adds to that row's counter and returns the row as updated; a missing row is an error |
| Providers.ProviderRepo.MarkAlertSent | crates/storage/src/repo/provider.rs:231-240 | sets that row's mark and nothing else |
| Providers.ProviderRepo.SyncQuota | crates/storage/src/repo/provider.rs:243-260 | replaces the counter and clears the mark |
| UsageLog.SummariesAgree | crates/storage/src/repo/usage_log.rs:39-164 | after any writes each account summary is the sums and the number of exactly the entries aggregated for it, and each provider total the sum of total tokens, or prompt plus completion where absent |
| UsageLog.AggregatedOnce | crates/storage/src/repo/usage_log.rs:39-132 | no entry is logged twice, and none is aggregated twice or without being logged |
| UsageLog.BatchIsAllOrNone | crates/storage/src/repo/usage_log.rs:103-132 | a batch goes into the log whole and in order exactly if all its ids are new, to the log and among themselves, and never into the summaries |
| UsageLog.SingleIsAllOrNone | crates/storage/src/repo/usage_log.rs:39-100 | a single entry goes in exactly if its id is new, and otherwise changes neither log nor summaries |
| UsageLog.InsertMovesCredits | crates/storage/src/repo/usage_log.rs:62-81 | an aggregated entry adds its credits to its account's total over all periods and to no other |
| UsageLog.InsertMovesTokens | crates/storage/src/repo/usage_log.rs:82-97 | and its tokens to its provider's |
| UsageLog.UsageLogRepo.InsertAndAggregate | crates/storage/src/repo/usage_log.rs:39-100 | the fact and both sums in one transaction, or nothing if the id is taken |
| UsageLog.UsageLogRepo.BatchInsert | crates/storage/src/repo/usage_log.rs:103-132 | all facts or none, and no sums |
| Reconciliation.Reconciles | crates/api/src/handlers/chat.rs:221-268 | in every interleaving of any number of requests, per account, what "usage" rows take from the log is what the summaries of all periods bill plus what is settled and not yet aggregated, less adjustments under that label; per provider, summary tokens are those counted plus those not yet counted |
| Reconciliation.ReconciledIff | crates/api/src/handlers/chat.rs:221-268 | at any moment an account's summaries bill what its "usage" rows take if and only if what it still owes is what its own adjustments under that label come to, and a provider's counter equals its summaries if and only if its uncounted tokens come to nothing |
| Reconciliation.SettledBooksAgreeIff | crates/api/src/handlers/chat.rs:221-268 | with nothing open for that account and that provider, the former holds exactly if those adjustments come to nothing, and the latter holds |
| Reconciliation.EveryCreditAccounted | crates/storage/src/repo/credits.rs:53-311 | what an account has, held or not, is always what it was granted less what is billed and what is owed |
| Reconciliation.LabelledAdjustmentMisleads | crates/api/src/handlers/admin/credits.rs:57-77 | one adjustment with reason "usage", by any operator, that parts log and summaries |
| Reconciliation.StepAgrees | crates/api/src/handlers/chat.rs:221-268 | each settle, aggregate or quota step, and each other ledger step, keeps the books in agreement |
| ChatRuns.ServeIsARun | crates/api/src/handlers/chat.rs:111-300 | serving one request is a run of the reconciliation machine: its steps lead to the ledger and usage tables the handler leaves and count what it adds to the quota; something stays owed exactly if the hold was settled and not written down, and its tokens stay uncounted exactly if they were written down and not counted |
| TimedCache.CacheRefinesIdeal | crates/cache/src/memory.rs:32-107 | over every run on a monotone clock the cache answers as a map whose entries vanish exactly at expiry |
| TimedCache.FoundIff | crates/cache/src/memory.rs:48-70 | in any run an entry set at t to live for d nanoseconds is found by every read before t + d and by none from then on, and one set without a limit always, until its key is written again |
| TimedCache.RemovedIsGone | crates/cache/src/memory.rs:72-75 | a removed entry is found by no read until its key is written again |
| TimedCache.ParseOfRender | crates/cache/src/memory.rs:96-104 | a stored counter reads back as the number stored, and has no plus sign and no leading zero |
| TimedCache.ParseIff | crates/cache/src/memory.rs:96-104 | a stored text is read as a number exactly if it is digits after an optional sign, within an i64 |
| TimedCache.IncrOnValue | crates/cache/src/memory.rs:93-105 | an increment of a live entry adds to the number its text reads as, or to 0 if it is none, and keeps the deadline |
| TimedCache.CounterHoldsSum | crates/cache/src/memory.rs:77-107 | a counter nothing else touches holds the sum of its deltas since its window began, until that window's end |
| TimedCache.IncrAnswersWindowSum | crates/cache/src/memory.rs:77-107 | each increment answers the sum of deltas since the current window began |
| TimedCache.MemoryCache.GetString | crates/cache/src/memory.rs:48-53 | drops the entry if expired, then reads |
| TimedCache.MemoryCache.SetString | crates/cache/src/memory.rs:55-70 | replaces the entry and its deadline |
| TimedCache.MemoryCache.Remove | crates/cache/src/memory.rs:72-75 | removes the entry |
| TimedCache.MemoryCache.IncrWithExpire | crates/cache/src/memory.rs:77-107 | the removal, entry and new-window branches together restart an expired counter and add to a live one |
| RateLimiting.RateLimiter.Check | crates/cache/src/rate_cache.rs:20-32 | a check counts one under the prefixed key and allows up to the limit |
| RateLimiting.CheckIsAllowed | crates/cache/src/rate_cache.rs:20-32 | in any run of the cache where only checks touch the key, the next check is answered as the window rule says |
| RateLimiting.AllowedIff | crates/cache/src/rate_cache.rs:20-32 | a call is allowed exactly if fewer than the limit precede it in its window |
| RateLimiting.WindowAllowsExactly | crates/cache/src/rate_cache.rs:20-32 | each window of k calls allows exactly min(k, limit), the first ones |
| RateLimiting.IntervalCount | crates/cache/src/rate_cache.rs:20-32 | the exact number of calls allowed in any interval of one window length, from the openings of the one or two windows in it |
| RateLimiting.IntervalBound | crates/cache/src/rate_cache.rs:20-32 | any half-open interval of one window length sees at most 2 * limit - 1 allowed calls |
| RateLimiting.IntervalBoundIsReached | crates/cache/src/rate_cache.rs:20-32 | calls that reach that bound, for every limit and window |
| RateLimiting.PromiseIff | crates/cache/src/rate_cache.rs:1-32 | the documented sliding window, at most the limit in any interval of one window length, holds if and only if the limit is at most one or the window too short to hold two instants |
| TokenAuth.AcceptedIff | crates/api/src/middleware/auth_chat.rs:47-104 | a token is accepted exactly if the table allows it now or a cache fill less than 600 s old remains, and always for the row's account; a refusal says what is wrong with the row |
| TokenAuth.StalenessIsBounded | crates/api/src/middleware/auth_chat.rs:47-104 | behind every acceptance lies a moment less than 600 s old when the row was active and unexpired, for that account |
| TokenAuth.AfterRevocationIff | crates/api/src/handlers/admin/tokens.rs:149-164 | after a revocation exactly an unexpired fill still lets the token in |
| TokenAuth.RevocationTakesHold | crates/cache/src/token_cache.rs:23-54 | no acceptance 600 s or more after a revocation |
| TokenAuth.RevokedTokenStillAccepted | crates/api/src/handlers/admin/tokens.rs:149-164 | a run in which a revoked token is accepted |
| TokenAuth.RowsOnlyAge | crates/storage/src/repo/token.rs:18-112 | token rows are never deleted, keep account and expiry, and are never active again once revoked |
| TokenAuth.RowIff | crates/storage/src/repo/token.rs:18-112 | a token has a row exactly if it was created, and the row is revoked exactly if some step revoked it |
| TokenAuth.CreatedRowIs | crates/storage/src/repo/token.rs:18-52 | and it keeps the id, account and expiry it was created with |
| TokenAuth.Authenticator.AuthenticateApiToken | crates/api/src/middleware/auth_chat.rs:47-104 | cache first, by the monotonic clock, then the table with its three refusals, by the wall clock, then the fill |
| TokenAuth.Authenticator.CreateToken | crates/storage/src/repo/token.rs:18-52 | inserts an active row unless hash or id is taken |
| TokenAuth.Authenticator.RevokeToken | crates/storage/src/repo/token.rs:92-100 | revokes the row with that id and leaves the cache alone |
| TokenAuth.Authenticator.RevokeTokenByHash | crates/storage/src/repo/token.rs:103-112 | revokes the row with that hash and leaves the cache alone |
| TokenAuth.Authenticator.DropCachedToken | crates/cache/src/token_cache.rs:51-54 | removes the token's cache entry and nothing else |
| AdminSessions.RevokedIff | crates/api/src/handlers/admin/auth.rs:107-109 | a refresh token is revoked if and only if some use of it got its revocation written |
| AdminSessions.RefreshableIff | crates/api/src/handlers/admin/auth.rs:98-109 | a refresh token works if and only if it was handed out no more than a week ago and no use of it got its revocation written |
| AdminSessions.RefreshAnsweredIff | crates/api/src/handlers/admin/auth.rs:93-136 | a refresh is answered with tokens exactly if the presented one works and both inserts get through, refused exactly if it does not work, and fails otherwise |
| AdminSessions.TokensBelongToLogin | crates/api/src/handlers/admin/auth.rs:38-136 | every refresh token descends from a login, and it and the access token linked from it belong to the admin who logged in, however often they were rotated |
| AdminSessions.AccessKeysNext | crates/api/src/handlers/admin/auth.rs:59-84 | a login or a use adds just its new access token, and keeps it even if the insert of the refresh token then fails |
| AdminSessions.UsesAreCounted | crates/api/src/handlers/admin/auth.rs:93-136 | a refresh token has worked once for each use whose revocation was lost, and once more if it is revoked |
| AdminSessions.WorksAtMostOnceIff | crates/api/src/handlers/admin/auth.rs:93-136 | it has worked at most once exactly if at most one use came before any revocation of it was written |
| AdminSessions.LostRevocationWorksTwice | crates/api/src/handlers/admin/auth.rs:107-109 | a run in which lost revocations let a token work twice and leave three live ones |
| AdminSessions.LiveTokensAreCounted | crates/api/src/handlers/admin/auth.rs:38-136 | a login's chain has one unrevoked refresh token, one more for each use that issued tokens with the revocation lost, one less for each that revoked and issued none |
| AdminSessions.OneLiveRefreshTokenIff | crates/api/src/handlers/admin/auth.rs:38-136 | so it has at most one exactly while the former do not outnumber the latter |
| AdminSessions.OneLiveRefreshToken | crates/api/src/handlers/admin/auth.rs:38-146 | a chain that lost no refresh token's revocation has at most one unrevoked refresh token |
| AdminSessions.RefreshTokensWorkOnce | crates/api/src/handlers/admin/auth.rs:93-136 | a refresh token none of whose uses lost its revocation succeeds at most once and is revoked exactly when it has been used |
| AdminSessions.UsedTokenIsRefused | crates/api/src/handlers/admin/auth.rs:93-105 | a refresh token whose revocation was written is refused for ever and changes nothing |
| AdminSessions.LinksAlwaysHold | crates/storage/src/repo/admin_user.rs:123-232 | whatever fails, every refresh token is linked to an access token, and no two to the same |
| AdminSessions.HandedOutIsLinked | crates/api/src/handlers/admin/auth.rs:59-84 | every access token handed out stays linked from the refresh token handed out with it; it lives 3600 s from then, the refresh token a week |
| AdminSessions.AccessRevokedIff | crates/api/src/handlers/admin/auth.rs:107-145 | an access token is revoked if and only if a logout or a use of its refresh token got that written |
| AdminSessions.LiveAccessIsCounted | crates/api/src/handlers/admin/auth.rs:38-146 | a chain's unrevoked linked access tokens number those issued to it less those that a logout or a use revoked |
| AdminSessions.LiveAccessHasLiveRefreshIff | crates/api/src/handlers/admin/auth.rs:107-145 | an unrevoked access token is linked from an unrevoked refresh token if and only if no written revocation of the latter went without one of the former |
| AdminSessions.OneLiveAccessTokenIff | crates/api/src/handlers/admin/auth.rs:38-146 | a chain has at most one unrevoked access token, linked from an unrevoked refresh token, if and only if all but one of those issued to it were ended and no refresh token of it was revoked without its access token |
| AdminSessions.WrittenChainHasOnePair | crates/api/src/handlers/admin/auth.rs:38-146 | a chain whose revocations are all written keeps to that condition |
| AdminSessions.LiveAccessHasLiveRefresh | crates/api/src/handlers/admin/auth.rs:38-146 | in such a chain an unrevoked access token is linked from an unrevoked refresh token |
| AdminSessions.OneLiveAccessToken | crates/api/src/handlers/admin/auth.rs:38-146 | in such a chain there is at most one unrevoked access token, the one linked from the chain's one unrevoked refresh token |
| AdminSessions.LostAccessRevocationLeavesTwo | crates/api/src/handlers/admin/auth.rs:107-109 | a run in which a lost revocation leaves two live access tokens |
| AdminSessions.LogoutLeavesRefreshToken | crates/api/src/handlers/admin/auth.rs:139-146 | logging out ends the access token exactly if the write gets through, answers the same either way, and leaves every refresh token as usable as before |
| AdminSessions.Sessions.HandleLogin | crates/api/src/handlers/admin/auth.rs:38-85 | issues an access token and a refresh token linked to it |
| AdminSessions.Sessions.HandleRefresh | crates/api/src/handlers/admin/auth.rs:93-136 | checks, tries to revoke both old tokens without looking at the outcome, issues both new ones to the old one's admin |
| AdminSessions.Sessions.HandleLogout | crates/api/src/handlers/admin/auth.rs:139-146 | tries to revoke the access token alone, without looking at the outcome |
| AdminSessions.Sessions.CreateAccessToken | crates/storage/src/repo/admin_user.rs:123-141 | inserts an unrevoked row unless the hash is taken |
| AdminSessions.Sessions.CreateRefreshToken | crates/storage/src/repo/admin_user.rs:182-202 | likewise, with its access token |
| AdminSessions.Sessions.RevokeAccessToken | crates/storage/src/repo/admin_user.rs:162-168 | sets the flag on that row alone |
| AdminSessions.Sessions.RevokeRefreshToken | crates/storage/src/repo/admin_user.rs:226-232 | sets the flag on that row alone |
| AuditSink.NothingLostOrDuplicated | crates/audit/src/sink.rs:56-144 | at every moment, per kind, the batches flushed followed by the buffer are what was received, in order; the buffer stays below max(1, batch size) and batches are neither empty nor over it |
| AuditSink.DrainedOnClose | crates/audit/src/sink.rs:95-107 | when the channel has closed both buffers are empty and everything received has been flushed in order |
| AuditSink.BatchesAreFull | crates/audit/src/sink.rs:56-94 | only the ticker and the closing of the channel send a batch out before it is full |
| AuditSink.FatesPartition | crates/audit/src/sink.rs:56-181 | every record a run received has, once the channel has closed, been inserted, written to the fallback or lost, and only one of these |
| AuditSink.NothingLostIff | crates/audit/src/sink.rs:56-181 | no record of a run is lost if and only if none of the run's inserts failed together with its fallback |
| AuditSink.RunWorker | crates/audit/src/sink.rs:56-107 | the worker's loop writes, per kind, exactly what it received in order |
| AuditSink.FlushBatch | crates/audit/src/sink.rs:109-144 | an empty buffer is left; any other becomes one batch and the buffer is cleared whatever its fate |
| Base64Url.Base64url | crates/auth/src/session.rs:24-41 | for every byte string the shift-buffer loop writes the encoding of section 5 of RFC 4648 without padding |
| Base64Url.DecodesToIff | crates/auth/src/session.rs:24-41 | the strict decoder gives back a byte string exactly from its encoding, so the encoding is injective |
| Base64Url.EncodedLength | crates/auth/src/session.rs:24-41 | n bytes become ceil(8n / 6) characters |
| Base64Url.ByteStep | crates/auth/src/session.rs:28-36 | one byte shifted in and drained leaves all but the pending bits written |
| Base64Url.ShiftedBuffer | crates/auth/src/session.rs:28-30 | the wrap at 32 bits never reaches the bits still wanted |
| Tunnel.AliveExactly | crates/agent/src/frpc.rs:135-170 | in every interleaving the frpc processes alive are the living orphans of failed wait and kill calls and, besides, those children waited for that live; no process is two of these |
| Tunnel.FieldsAlwaysAgree | crates/agent/src/tun_controller.rs:47-92 | the sender and the handle of an unstopped, unsignalled task go together, and every other task has been told to stop |
| Tunnel.ChildIsRestarted | crates/agent/src/frpc.rs:135-170 | a child that exits, is lost or cannot be started is started again after the backoff |
| Tunnel.StopsWhenTold | crates/agent/src/frpc.rs:150-169 | a task told to stop does so at once in the backoff and otherwise by killing its child |
| Tunnel.StopsOnlyWhenTold | crates/agent/src/frpc.rs:135-170 | and in every interleaving only such a task stops |
| Tunnel.AliveAre | crates/agent/src/tun_controller.rs:47-92 | the processes alive are the orphans, the child of the task the controller holds and those of tasks whose close was dropped; once close has returned or been dropped the controller's own is not among them |
| Tunnel.AtMostOneChildIff | crates/agent/src/tun_controller.rs:47-92 | there is at most one process if and only if orphans and living children come to no more, and so whenever there is no orphan and no dropped close left a living child |
| Tunnel.NoOrphans | crates/agent/src/tun_controller.rs:47-92 | if no wait or kill fails and no close is dropped there is at most one process, and none once close has returned |
| Tunnel.FailedWaitLeavesTwo | crates/agent/src/frpc.rs:135-170 | a run with two processes after a failed wait |
| Tunnel.DroppedCloseLeavesTwo | crates/agent/src/tun_controller.rs:80-92 | a run with two processes after a close was dropped while it waited |
| Tunnel.TunController.Open | crates/agent/src/tun_controller.rs:47-76 | starts a task under a new service id, or answers the present one if already open |
| Tunnel.TunController.Close | crates/agent/src/tun_controller.rs:80-92 | signals, waits for the task to stop and clears all three fields; if dropped while it waits, frees the lock and leaves the service id |
| Tunnel.TunController.SuperviseFrpc | crates/agent/src/frpc.rs:135-170 | the restart loop over whatever happens to one task's child |
| Tunnel.TunController.HandleEvent | crates/agent/src/frpc.rs:141-169 | one turn of it |

## Left out

- HTTP routing, JSON, extractors, the CLI, configuration and `main`: no state property.
- Redis, and the races inside one increment, one authentication or one session refresh: each call is one step here.
- Failures of the cache store: the in-memory one, which is modelled, has none.
- HMAC, argon2, JWT, TOTP and tiktoken: hashes are opaque values, estimates are inputs.
- `BalanceCache`: written after a settlement and never read.
- Text handling: error texts, `truncate` and the slicing of upstream bodies, which can panic inside a multi-byte
  character; a request that panics there or is cancelled keeps its hold.
- Timestamps and other columns that are written and never decide anything, such as the reason a provider was disabled.
- SQL-side sums beyond an `i64`, which SQLite turns into floating point: quota counters, summaries and `held` are
  unbounded integers here.
- SQLite's own refusals (busy, stale snapshot): the model allows every interleaving in which they would not occur,
  and more. A commit that reports an error is taken to have changed nothing.
- Chat.Gateway.ChatCompletions: provider rows, mappings and usage tables change only through this request while it
  runs; only the ledger is shared with other tasks here. `Reconciliation` interleaves the tables too, and
  `ServeIsARun` makes the request a run of it.
- The JSON of cached token entries: it always parses, since only this code writes it.
- Overflow of instants and durations: the clock is an input without bound.
- Unicode lower-casing of upstream bodies: the model's is that of ASCII, which decides the same for the words looked up.
- Tunnel.TunController.Close: process ids are unique among live processes; the status URL and the generated
  configuration are not modelled.
- CreditsRepository.CreditsRepo.Init: the accounts table; for an account missing there the insert fails, as an abort.
- AuditSink.FlushBatch: a fallback file that takes only some of its lines; it takes all or cannot be opened.
- AdminSessions.Sessions.HandleLogin: the password and TOTP checks, which come before it, are not modelled.
- Account, model, policy, service and scope tables: finite or trivial.
- Streaming chat, the circuit breaker, monthly caps and policy enforcement: documented, not implemented.
