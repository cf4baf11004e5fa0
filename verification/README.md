# PaladinsCat: the relay and its neighbours, verified

PaladinsCat collects match data from an unreliable game vendor. This project models the
TypeScript reference implementation and proves what its hardest parts guarantee.

| module | what it models |
|---|---|
| `Seqs` | optional values and order-preserving filters, shared by the rest |
| `RankedScore` | the consensus that turns score observations into one proved ranked score |
| `RelayPlayers` | merging direct and recovered participants |
| `HistoryCaches`, `Recovery` | the recovery of a broken match: preflight, roster, local stores, history calls, two caches |
| `RecoveryCost`, `HistoryBudget` | what a recovery costs, and what a series of recoveries pays per player |
| `CanonicalOrder`, `Resolution`, `Outcomes`, `RankedOutcomes` | from a recovery result to the one classified outcome, and when that outcome is sound |
| `RecoveredRosters`, `ScoreWitnesses` | who is in a completed roster, and whose rows can prove its score |
| `AnchorRows`, `Completion` | which row the evidence holds for each missing anchor, and exactly when those rows complete the match |
| `Batch`, `DirectOutcomes` | request validation, the batch entry point, local resumption; outcomes without a reconstruction |
| `RequestLoop`, `RequestRuns`, `Backoff`, `VendorMessages` | the vendor request loop against an adversarial environment |
| `Staging` | deduplicated, chunked insertion into the ingest buffer |
| `Migrations`, `MigrationRuns` | the migration runner, alone and interleaved with others that crash |
| `Loadouts`, `LoadoutRefresh` | loadout refresh: one call, and concurrent callers under the advisory lock |
| `Moderation` | votes, alt-account relations and the counters and flags that mirror them |
| `TimeZones`, `Paging` | local time to instants and day windows; keyset pagination |
| `PlayerLink` | the timed verification of player ownership |

Where the program updates state, the model is a class whose methods are proved equal to a
specification function; the theorems are about that function, over every input, every schedule or
every series of requests. Concurrent protocols are state machines: a schedule is an arbitrary list
of atomic steps, and a step that is not enabled changes nothing.

## Assumptions

- Player ids are naturals and 0 stands for a private account.
- A row with a `ret_msg` is a sentinel. The soundness theorem for ranked outcomes assumes that
  normalised history and buffer rows are not sentinels (`CleanEvidence`); the other theorems do
  not, and `Outcomes.PreflightOutcome` says what a sentinel costs. `RecoveredRosters` also assumes that in a player's
  history the rows of the target match name that player or nobody (`OwnHistories`).
- Vendor answers, table contents, clock readings and random numbers are arbitrary inputs. So are SQL failures, statement
  by statement, in the recovery (local reads, cache reads, backfill and durable writes), in the staging inserts, in the
  migration runner and in the loadout refresh; elsewhere a statement that fails leaves no trace and is not modelled. The normalisers, `Number(text)`, SHA-256 and the collation key behind `localeCompare` are
  parameters.
- Each modelled SQL statement or transaction is atomic. One database clock is used for stored times
  and for the program's `Date.now()`.
- Loop inputs that the program obtains by sorting file names or by `ORDER BY` are given in that order.

## What turned out differently

- **Back-off.** The total of `k` sleeps is not always at most the sum of `min(550 i, 10000)` for
  `i = 1..k`: session and quota rotations consume attempts without sleeping. The bound holds exactly
  when no such attempt precedes one of the first eighteen sleeps (`Backoff.BoundByPositionExactly`,
  `Backoff.RequestBoundByPositionExactly`); the bound by retry attempts always holds.
- **Ten direct participants.** A ranked recovery can complete without any roster or score when the
  usable direct rows already name ten participants and the roster call fails. Soundness holds
  exactly below ten (`RankedOutcomes.SoundExactly`).
- **No direct response.** Then nothing asks for ten players (`RankedOutcomes.NoDirectShellMayCompleteShort`): as long as
  histories name their own players, a completed match has exactly as many players as the roster answer names distinct
  ids, so ten exactly when that answer does (`RecoveredRosters.NoDirectCompletionExactly`).
- **Stored rows carry no score.** A `match_players` row read back has no score fields, and shadows the history row of its
  id. Unless the direct rows prove a score, a recovery completes only on two or more agreeing score-bearing rows from
  history, buffer or vendor (`ScoreWitnesses.CompletionNeedsTwoWitnesses`), so past the local preflight it cannot
  complete once stored rows answer for all missing anchors but one (`ScoreWitnesses.StoredRowsStarveTheScore`), and a
  resumption never does with nine stored rows (`ScoreWitnesses.NineStoredRowsNeverResume`).
- **Blank scores.** A blank losing score is read as zero (`RankedScore.BlankLoserScoreCountsAsZero`). A proved score rests
  on numbers throughout exactly when no score-bearing row leaves a team's score blank; otherwise the loser's score is zero
  (`RankedScore.BlankScoresExactly`).
- **One rejected recovery rejects the batch**, answered matches included (`Batch.BatchThrowsExactly`).
- **Repeated roster ids** are paid for once per repetition (`HistoryBudget.RepeatedRosterIdPaysTwice`).
- **Entity id 0** is deduplicated as `"0"` and stored as `""` (`Staging.RestagedExactly`).
- **Ten minutes between manual refreshes** hold in the milliseconds the program compares; in stored
  microseconds an interval can be up to one millisecond short (`LoadoutRefresh.FullTenMinutesExactly`).
- **Day windows** tile the timeline exactly when no start of day comes after the next (`TimeZones.TilesExactly`).
- **Skipped midnights.** A start of day is wrong when midnight falls into a skipped or repeated hour on the wrong
  side of UTC, and a zone that skips a whole day gives the day before it an empty window (`TimeZones.SplitsExactly`,
  `TimeZones.SkippedDayEmptiesItsNeighbour`).
- **Cursors** keep milliseconds, the table's column microseconds; rows between are lost exactly when
  `Paging.HandsOverExactly` fails at a page boundary. `Paging.MicrosecondsLoseARow` is a state the column allows, not one
  some writer is shown to produce: the writers bind vendor date strings or whole-millisecond ISO strings.
- **A late rejection** locks whatever code the user holds by then
  (`PlayerLink.LateRejectionLocksAFreshCode`).

## Model

| member | source | states |
|---|---|---|
| RankedScore.ResolveObservedMatchScore | legacy/src-backend/services/ranked-score.ts:143-174 | the loop with its early exits yields the consensus |
| RankedScore.ConsensusExact | legacy/src-backend/services/ranked-score.ts:143-174 | a score is proved exactly when two or more score-bearing observations exist and all report it; it is then coherent |
| RankedScore.ConsensusIgnoresOrder | legacy/src-backend/services/ranked-score.ts:143-174 | the proved score depends on the multiset of observations only |
| RankedScore.ConsensusNeverOverturned | legacy/src-backend/services/ranked-score.ts:143-174 | more observations can withdraw a proved score, never replace it |
| RankedScore.BlankLoserScoreCountsAsZero | legacy/src-backend/services/ranked-score.ts:41-55 | two rows without a losing score prove 4-0 |
| RankedScore.BlankScoresExactly | legacy/src-backend/services/ranked-score.ts:41-55 | a proved score is numeric throughout exactly when no score-bearing row leaves a team score blank; otherwise the loser's score is zero |
| RelayPlayers.MergeRelayPlayers | legacy/src-backend/hirez-relay/core.ts:1251-1281 | the loop over direct and recovered rows computes the merge |
| RelayPlayers.FirstPublicsExact | legacy/src-backend/hirez-relay/core.ts:1260-1268 | the kept public rows are exactly those that open their id, one per id |
| RelayPlayers.MergedExact | legacy/src-backend/hirez-relay/core.ts:1251-1281 | public part, private part, length and absence of sentinels of any merged list |
| RelayPlayers.FirstPublicsAppend | legacy/src-backend/hirez-relay/core.ts:1251-1281 | direct wins: recovered rows add only ids no direct row opened |
| RelayPlayers.MergeRoster | legacy/src-backend/hirez-relay/core.ts:1251-1281 | public ids are the union, each once; private rows are the larger of the two counts |
| RelayPlayers.MergeInventsNothing | legacy/src-backend/hirez-relay/core.ts:1251-1281 | no sentinel survives and every row comes from an input |
| RelayPlayers.MergeIdempotent | legacy/src-backend/hirez-relay/core.ts:1251-1281 | merging the recovered rows again changes nothing |
| RelayPlayers.MergeAssociativeOnPublics | legacy/src-backend/hirez-relay/core.ts:1251-1281 | associativity on the public rows |
| RelayPlayers.MergePrivatesAreMaximum | legacy/src-backend/hirez-relay/core.ts:1251-1281 | private rows of a repeated merge number the maximum |
| CanonicalOrder.CompareIsTotalPreorder | legacy/src-backend/hirez-relay/core.ts:1523-1540 | the comparator is reflexive, antisymmetric in sign and transitive |
| CanonicalOrder.TiedExactly | legacy/src-backend/hirez-relay/core.ts:1523-1540 | what the comparator leaves undistinguished |
| CanonicalOrder.ComparesExactly | legacy/src-backend/hirez-relay/core.ts:1523-1540 | the comparator is the lexicographic order: side, public before private, id, name, champion |
| CanonicalOrder.ArrangedInOrder | legacy/src-backend/hirez-relay/core.ts:1523-1540 | in the published list nobody stands behind a player that belongs after them |
| CanonicalOrder.ArrangeSortsAndPermutes | legacy/src-backend/hirez-relay/core.ts:1523-1540 | the published list is sorted and a permutation |
| CanonicalOrder.ArrangeIsStable | legacy/src-backend/hirez-relay/core.ts:1523-1540 | tied players keep their arrival order |
| CanonicalOrder.CanonicalExactly | legacy/src-backend/hirez-relay/core.ts:1523-1540 | every arrival order gives the same list exactly when no two different players tie |
| HistoryCaches.DurableHitFindsTarget | legacy/src-backend/hirez-relay/core.ts:469-499 | a durable hit guarantees that the target match is found in it |
| HistoryCaches.ClassifyContract | legacy/src-backend/hirez-relay/core.ts:2608-2630 | every id is a memory hit, a durable hit or queued; only memory changes |
| HistoryCaches.ClassifyDistinct | legacy/src-backend/hirez-relay/core.ts:2608-2630 | with distinct ids nobody is queued twice, or while memory knows them |
| HistoryCaches.FetchContract | legacy/src-backend/hirez-relay/core.ts:2632-2655 | memory afterwards knows the old players and those the vendor answered for; honest caches stay honest |
| Recovery.RelayEngine.CleanupFetchedPlayersCache | legacy/src-backend/hirez-relay/core.ts:799-801 | clears the memory map and nothing else |
| Recovery.RelayEngine.WriteCachedPlayerHistory | legacy/src-backend/hirez-relay/core.ts:521-539 | files a history under its player with its own match ids |
| Recovery.RelayEngine.CountedRequest | legacy/src-backend/hirez-relay/core.ts:2327-2331 | one counted request adds one call to the log and one to the counter |
| Recovery.RelayEngine.LookUpPlayer | legacy/src-backend/hirez-relay/core.ts:2609-2628 | memory, then the durable row with its backfill, then the queue; throws exactly when the read or the backfill does |
| Recovery.RelayEngine.LookUpCaches | legacy/src-backend/hirez-relay/core.ts:2608-2630 | the loop computes the classification, or stops at the first statement that throws |
| Recovery.RelayEngine.FetchHistories | legacy/src-backend/hirez-relay/core.ts:2632-2655 | one counted request per queued id, with the caches it leaves |
| Recovery.RelayEngine.HarvestTarget | legacy/src-backend/hirez-relay/core.ts:2663-2731 | the target rows found in the histories, in order |
| Recovery.RelayEngine.ReadFirstById | legacy/src-backend/hirez-relay/core.ts:2347-2380 | first row of every id not yet known |
| Recovery.RelayEngine.LocalPreflightPass | legacy/src-backend/hirez-relay/core.ts:2347-2419 | answers locally exactly when the preflight condition holds |
| Recovery.RelayEngine.PursueAnchors | legacy/src-backend/hirez-relay/core.ts:2450-2810 | the pass from missing anchors to recovered rows, caches and requests, or the rejection by a local read |
| Recovery.RelayEngine.ConcludePass | legacy/src-backend/hirez-relay/core.ts:2487-2869 | from the demo call to the verdict; the reported number is the counter's |
| Recovery.RelayEngine.RecoverBrokenMatch | legacy/src-backend/hirez-relay/core.ts:2321-2869 | the whole recovery: result, caches and requests sent; the reported number of calls is the growth of the request log; when it rejects, and after which requests |
| Outcomes.PreflightExact | legacy/src-backend/hirez-relay/core.ts:2347-2419 | four disjoint sources with exactly ten ids, no vendor call, no cache change, vendor answers unread |
| Outcomes.PreflightRoster | legacy/src-backend/hirez-relay/core.ts:1251-1281 | the merged preflight has ten players exactly when no row is a sentinel |
| Outcomes.PreflightOutcome | legacy/src-backend/hirez-relay/core.ts:1283-1336 | the outcome is `complete_recovered` with exactly the ten ids, or `dropped` when a sentinel took a place |
| Outcomes.PublishedPlayers | legacy/src-backend/hirez-relay/core.ts:1509-1560 | terminalising rearranges the players of a result and loses none |
| RecoveryCost.LocalsAreDisjoint | legacy/src-backend/hirez-relay/core.ts:2499-2531 | the three local stores answer disjoint sets of missing ids, each under its own id |
| RecoveryCost.PicksSplit | legacy/src-backend/hirez-relay/core.ts:2536-2543 | each missing id is answered by exactly one store or by none |
| RecoveryCost.CostIsExact | legacy/src-backend/hirez-relay/core.ts:2421-2654 | six disjoint groups sum to the missing anchors; the requests are the roster, the demo without a direct shell, and one per fetched id |
| RecoveryCost.RequestsExactly | legacy/src-backend/hirez-relay/core.ts:2327-2869 | on every exit the reported calls are the requests sent: how many of each kind, and for whom |
| RankedOutcomes.PendingExactly | legacy/src-backend/hirez-relay/core.ts:2812-2845 | when `recovery_pending` occurs, and that its players come from the usable direct rows |
| RankedOutcomes.LimitedExactly | legacy/src-backend/hirez-relay/core.ts:1283-1337 | `limited` exactly for one to nine usable direct rows that nothing can extend |
| RankedOutcomes.RankedStatuses | legacy/src-backend/hirez-relay/core.ts:1572-1589 | `complete_direct` exactly without recovery; never `roster_only` |
| RankedOutcomes.FullPassSound | legacy/src-backend/hirez-relay/core.ts:2762-2869 | a completed full pass has a proved score, every roster anchor, and ten players when there was a shell |
| RankedOutcomes.PreflightSound | legacy/src-backend/hirez-relay/core.ts:2347-2419 | a completed preflight has a proved score and its ten ids |
| RankedOutcomes.EarlyExitNeverCompletes | legacy/src-backend/hirez-relay/core.ts:2421-2488 | a failed or empty roster ends `limited` or `dropped` below ten direct participants |
| RankedOutcomes.SoundExactly | legacy/src-backend/hirez-relay/core.ts:1283-1337 | all recovered outcomes are sound exactly when the direct rows name fewer than ten participants |
| RankedOutcomes.ElevenRowsEscape | legacy/src-backend/hirez-relay/core.ts:1283-1337 | eleven usable direct rows without a score enter recovery and can complete unsoundly |
| RankedOutcomes.NineRowsAlwaysSound | legacy/src-backend/hirez-relay/core.ts:1283-1337 | at most nine usable direct rows always recover soundly |
| RankedOutcomes.NoDirectShellMayCompleteShort | legacy/src-backend/hirez-relay/core.ts:1283-1337 | without a direct response a roster of two players with agreeing history rows completes |
| RankedOutcomes.TenStoredRowsComplete | legacy/src-backend/hirez-relay/core.ts:2347-2419 | a direct response of two agreeing sentinel rows completes from ten stored rows at no vendor cost |
| RecoveredRosters.RecoveredAreAnchors | legacy/src-backend/hirez-relay/core.ts:2663-2756 | with histories that name their own player, a recovered row is a known private row or a missing anchor |
| RecoveredRosters.CompletedRosterExactly | legacy/src-backend/hirez-relay/core.ts:2826-2869 | a completed reconstruction holds the direct public ids and the roster anchors, and nobody else |
| RecoveredRosters.NoDirectCompletionExactly | legacy/src-backend/hirez-relay/core.ts:1283-1337 | without a direct response it has as many players as the roster names distinct ids |
| ScoreWitnesses.PassScoreExactly | legacy/src-backend/hirez-relay/core.ts:2774-2777 | the score of a pass depends on the direct observations and the history, buffer and vendor rows alone |
| ScoreWitnesses.UnresolvedExactly | legacy/src-backend/hirez-relay/core.ts:2826-2845 | with all anchors accounted for, a pass stays unresolved exactly when neither the direct observations nor those rows hold two agreeing scores |
| ScoreWitnesses.CompletionNeedsTwoWitnesses | legacy/src-backend/hirez-relay/core.ts:2240-2320 | without two agreeing direct observations a recovery completes only on two or more agreeing score-bearing history, buffer or vendor rows |
| ScoreWitnesses.StoredRowsStarveTheScore | legacy/src-backend/hirez-relay/core.ts:2499-2560 | past the local preflight it never completes once stored rows answer for all missing anchors but one |
| AnchorRows.RecoveredExactly | legacy/src-backend/hirez-relay/core.ts:2499-2756 | a row is recovered exactly when the evidence supplies it for a missing anchor (last stored row, else first local row, else the first row of the match in the remembered, stored or paid history) or it is a known private row |
| AnchorRows.RecoveredRows | legacy/src-backend/hirez-relay/core.ts:2499-2756 | with multiplicity: one such row for every roster entry that has one, and the known private rows |
| AnchorRows.RememberedRowIsRecovered | legacy/src-backend/hirez-relay/core.ts:2608-2614 | a remembered history that holds the match is used: its first row, id filled in, every other field kept |
| AnchorRows.TabledRowIsRecovered | legacy/src-backend/hirez-relay/core.ts:2616-2625 | the same of a table row that lists and holds the match |
| AnchorRows.PaidRowIsRecovered | legacy/src-backend/hirez-relay/core.ts:2637-2700 | the same of a history that was paid for and stored |
| Completion.ResolvedExactly | legacy/src-backend/hirez-relay/core.ts:2826-2845 | a pass is resolved exactly when supplied rows name all missing anchors, the private profiles are covered and a score is proved |
| Completion.CompletionExactly | legacy/src-backend/hirez-relay/core.ts:2321-2869 | with a missing anchor, a ranked match completes exactly when that holds and, next to a direct response, there are ten participants |
| Completion.SuppliedAnchorsComplete | legacy/src-backend/hirez-relay/core.ts:2321-2869 | rows of their own for all anchors, two of them with a score and all in agreement, complete the match with that score |
| Completion.CompletedScore | legacy/src-backend/hirez-relay/core.ts:2762-2777 | the score a completed recovery publishes is one that two or more observations prove, team by team and winner |
| Completion.TwoPaidHistoriesComplete | legacy/src-backend/hirez-relay/core.ts:2637-2700 | two paid histories that agree complete a match nothing else is known about |
| Resolution.ResolveRankedMatch | legacy/src-backend/hirez-relay/core.ts:1572-1589 | ranked resolution with the requests it sends, the caches it leaves and when it rejects |
| Resolution.ResolvePresenceMatch | legacy/src-backend/hirez-relay/core.ts:1591-1650 | roster-only resolution: one roster request when entered, rows with a `ret_msg` dropped, no cache touched |
| Resolution.ResolveIdentifiedMatch | legacy/src-backend/hirez-relay/core.ts:1652-1677 | the dispatch between the two, with requests, caches and rejection |
| HistoryBudget.QueuedExactly | legacy/src-backend/hirez-relay/core.ts:2608-2630 | an uncached player is queued once per occurrence, a cached one never |
| HistoryBudget.CallsPerPlayer | legacy/src-backend/hirez-relay/core.ts:2591-2660 | how often one recovery pays for a player |
| HistoryBudget.RepeatedRosterIdPaysTwice | legacy/src-backend/hirez-relay/core.ts:2591-2660 | a repeated roster id is paid for twice |
| HistoryBudget.AtMostOneCallPerPlayer | legacy/src-backend/hirez-relay/core.ts:2591-2680 | over any series between clears, completed and rejected recoveries alike, with distinct roster ids, at most one answered call per player |
| HistoryBudget.DurableHitsStayHonest | legacy/src-backend/hirez-relay/core.ts:469-539 | in every cache state reached through the writer, rejected recoveries included, a durable hit finds its target |
| HistoryBudget.RecoveryRemembers | legacy/src-backend/hirez-relay/core.ts:2608-2655 | a recovery forgets nothing it knew and keeps every history it paid for, in memory and, once written, in the table |
| HistoryBudget.PaidHistoryServesLaterMatches | legacy/src-backend/hirez-relay/core.ts:2583-2655 | until a clear, a history paid for anywhere in a series supplies later matches and is not paid for again |
| HistoryBudget.StoredHistoryServesLaterMatches | legacy/src-backend/hirez-relay/core.ts:2583-2655 | after a clear the table does, while the row has not expired |
| Batch.ValidateCompletedMatchRequests | legacy/src-backend/contracts/hirez-relay-operation-contract.ts:75-111 | accepts exactly the well-formed lists of allowed size with distinct positive ids |
| Batch.GetMatchDetailsBatch | legacy/src-backend/hirez-relay/core.ts:1360-1411 | the handler with its maps computes the batch specification |
| Batch.IndexOutcomes | legacy/src-backend/hirez-relay/core.ts:1406-1411 | the outcome map holds the last outcome of every id |
| Batch.BatchShape | legacy/src-backend/hirez-relay/core.ts:1360-1411 | outcome ids are the direct-answered request ids in request order; a singleton gets exactly one |
| Batch.BatchThrowsExactly | legacy/src-backend/hirez-relay/core.ts:1360-1411 | a batch throws for its size, for a call error that names no single match, or because one match's recovery rejects |
| Batch.ScopeDecidesOutcome | legacy/src-backend/hirez-relay/core.ts:1591-1677 | known non-ranked queues send at most the roster request, change no cache and are never reconstructed; ranked and unknown ones never end `roster_only` |
| Batch.DiscoveryQueueIsAuthoritative | legacy/src-backend/hirez-relay/core.ts:1652-1677 | whatever queue the direct row claims, a known non-ranked request makes no history or demo request, leaves the caches alone and cannot reject |
| Batch.BatchOutcomesSound | legacy/src-backend/hirez-relay/core.ts:1360-1411 | every recovered outcome of every batch is sound, as long as no insufficient direct answer names ten participants |
| DirectOutcomes.CompleteDirectExactly | legacy/src-backend/hirez-relay/core.ts:1572-1669 | `complete_direct` exactly for a sufficient direct answer, in all three resolutions; it publishes its usable rows in order and its own score, at no request |
| DirectOutcomes.BatchHoldsDirectRows | legacy/src-backend/hirez-relay/core.ts:1382-1411 | in every batch that returns, a match whose last answer suffices has an outcome, and it holds the usable rows of that answer |
| DirectOutcomes.SufficesExactly | legacy/src-backend/hirez-relay/core.ts:1235-1249 | an answer suffices with ten usable rows, or with any in the queues that omit their bots |
| DirectOutcomes.PresenceExactly | legacy/src-backend/hirez-relay/core.ts:1591-1650 | usable direct rows are kept as `limited`, else a usable roster stands alone, else the match is dropped |
| DirectOutcomes.DropMarkedExactly | legacy/src-backend/hirez-relay/core.ts:1607-1609 | the roster kept is exactly the rows without a `ret_msg`, in their order |
| Batch.ResumeMatchRecovery | legacy/src-backend/hirez-relay/core.ts:1419-1507 | the handler: one demo request exactly when ten participants prove a score |
| Batch.ResumeExactly | legacy/src-backend/hirez-relay/core.ts:1419-1507 | resumption completes exactly with ten distinct participants whose scored ones prove a score and an authoritative demo shell, and publishes them |
| ScoreWitnesses.ResumptionExactly | legacy/src-backend/hirez-relay/core.ts:1430-1465 | resumption completes exactly when stored ids and unshadowed history rows make ten, two or more of the latter prove a score, and the demo shell is authoritative |
| ScoreWitnesses.NineStoredRowsNeverResume | legacy/src-backend/hirez-relay/core.ts:1430-1465 | with nine stored rows it never completes |
| Completion.ResumedScore | legacy/src-backend/hirez-relay/core.ts:1447-1491 | a completed resumption publishes the score its unshadowed history rows prove |
| RequestLoop.KeyPool.ApiRequest | legacy/src-backend/hirez-relay/core.ts:941-1155 | the retry loop over such attempts computes the request specification, books included |
| RequestLoop.KeyPool.LogCountedAttempt | legacy/src-backend/hirez-relay/core.ts:978-982 | logs a counted attempt unless it was logged before |
| RequestLoop.KeyPool.TryAttempt | legacy/src-backend/hirez-relay/core.ts:984-1095 | session, usage increment, request, examination of the answer and its records, in that order |
| RequestLoop.KeyPool.Attempt | legacy/src-backend/hirez-relay/core.ts:971-1108 | the attempt with its catch block, which logs a counted attempt not yet logged |
| RequestRuns.TurnExactly | legacy/src-backend/hirez-relay/core.ts:971-1108 | on top of any books, one attempt counts usage exactly for the request it sends and writes at most one log row, for that key |
| RequestRuns.RequestSettles | legacy/src-backend/hirez-relay/core.ts:971-1155 | it stops at the first settling attempt or the retry bound; its books are the ledgers of the turns played, and a failed one is judged by the last error caught, else the last message |
| RequestRuns.QuotaConserved | legacy/src-backend/hirez-relay/core.ts:971-1135 | usage equals requests sent, key by key; no key is logged more often than used; the log equals both exactly when no attempt missed both its log writes |
| RequestRuns.AttemptsBounded | legacy/src-backend/hirez-relay/core.ts:971-1155 | at most maxRetries + 1 attempts, none after a settling one |
| RequestRuns.TerminalNeverRetried | legacy/src-backend/hirez-relay/core.ts:971-1135 | a terminal vendor return is the last attempt and no success |
| RequestRuns.OneVerdict | legacy/src-backend/hirez-relay/core.ts:971-1155 | at most one success or failure record, by ending; a failure names the last key used |
| VendorMessages.SessionAndQuotaRotate | legacy/src-backend/hirez-relay/core.ts:825-848 | an invalid session or spent quota, repaired and logged, is followed by the next attempt without a sleep |
| VendorMessages.EmptyAnswersSucceed | legacy/src-backend/hirez-relay/core.ts:827-851 | no history or a private profile, once recorded, is the success of the request |
| VendorMessages.RefusalsEndTheRequest | legacy/src-backend/hirez-relay/core.ts:829-858 | not found, or a message without any known phrase, is the last attempt and no success, and the key is not blamed |
| VendorMessages.PassingFailuresAreRetried | legacy/src-backend/hirez-relay/core.ts:832-854 | maintenance is retried after a sleep while the budget lasts |
| VendorMessages.OneRequestOrFour | legacy/src-backend/hirez-relay/core.ts:971-1155 | a vendor that never finds anything costs one request, one in maintenance four |
| Backoff.SleepsBoundedByTheirAttempts | legacy/src-backend/hirez-relay/core.ts:1126-1133 | sleeps are at most the caps of their attempts, for every jitter |
| Backoff.DelayExactly | legacy/src-backend/hirez-relay/core.ts:1126-1133 | a delay is 450 to 550 ms per attempt, at most ten seconds; the lower bound of 100 ms never applies |
| Backoff.BoundByPositionExactly | legacy/src-backend/hirez-relay/core.ts:1126-1133 | when the k-th sleep obeys the k-th cap for every jitter |
| Backoff.RequestSleepBound | legacy/src-backend/hirez-relay/core.ts:971-1155 | a request sleeps at most the caps of its retry attempts |
| Backoff.RequestBoundByPositionExactly | legacy/src-backend/hirez-relay/core.ts:971-1155 | the positional bound holds exactly when no rotation precedes one of the first eighteen sleeps |
| Backoff.RotationBreaksPositionalBound | legacy/src-backend/hirez-relay/core.ts:971-1155 | a request with one sleep of 1000 ms where the positional bound says 550 |
| Staging.FilterPayloads | legacy/src-backend/hirez-relay/core.ts:2169-2177 | the loop with its seen set keeps exactly the fresh payloads |
| Staging.ChunkArray | legacy/src-backend/hirez-relay/core.ts:2079-2085 | the slicing loop computes the chunks |
| Staging.ChunksExact | legacy/src-backend/hirez-relay/core.ts:2079-2085 | chunks concatenate back; all are full but the last |
| Staging.BuildInsert | legacy/src-backend/hirez-relay/core.ts:2186-2213 | placeholders and parameters are aligned: the statement denotes exactly the rows of the chunk |
| Staging.RawIngestBuffer.InsertChunks | legacy/src-backend/hirez-relay/core.ts:2184-2217 | what is in the table when some chunk fails, or none does |
| Staging.RawIngestBuffer.DumpRawPayloads | legacy/src-backend/hirez-relay/core.ts:2092-2217 | the whole handoff and its effect on the buffer |
| Staging.FreshIsSubsequence | legacy/src-backend/hirez-relay/core.ts:2169-2177 | kept payloads are an order-preserving subsequence |
| Staging.UnkeyedAreKept | legacy/src-backend/hirez-relay/core.ts:2169-2177 | every unkeyed payload is kept, in order |
| Staging.NewKeysExactly | legacy/src-backend/hirez-relay/core.ts:2169-2177 | exactly the new keys are staged |
| Staging.NoKeyTwice | legacy/src-backend/hirez-relay/core.ts:2169-2177 | no key is staged twice |
| Staging.KeyInjective | legacy/src-backend/hirez-relay/core.ts:2101-2120 | keys of deduplicated types are unambiguous |
| Staging.BufferKeyExactly | legacy/src-backend/hirez-relay/core.ts:2105-2120 | which active rows keep a payload out |
| Staging.MatchKeyExactly | legacy/src-backend/hirez-relay/core.ts:2121-2167 | which ingested matches keep a payload out |
| Staging.StagedExactly | legacy/src-backend/hirez-relay/core.ts:2092-2177 | the key of a keyed payload is staged exactly when neither an active row nor an ingested match has it |
| Staging.StagedIsFirst | legacy/src-backend/hirez-relay/core.ts:2169-2177 | of the payloads with one key the first is staged |
| Staging.StagedRowsExactly | legacy/src-backend/hirez-relay/core.ts:2186-2213 | a staged row is its payload, waiting |
| Staging.RestagingInsertsNothing | legacy/src-backend/hirez-relay/core.ts:2092-2217 | restaging staged keyed payloads not numbered zero inserts nothing while the rows are active |
| Staging.RestagedExactly | legacy/src-backend/hirez-relay/core.ts:2092-2217 | a payload staged alone is kept out the second time exactly when its id is not the number zero, or a row already says "0" |
| Migrations.CheckVersions | legacy/src-backend/scripts/apply-migrations.ts:33-38 | throws exactly when two files share a version, and names one |
| Migrations.Session.ApplyFile | legacy/src-backend/scripts/apply-migrations.ts:90-123 | SQL and ledger row are committed together or neither is |
| Migrations.Session.Migrate | legacy/src-backend/scripts/apply-migrations.ts:28-139 | the runner's loop computes its specification and releases the lock on every exit |
| Migrations.CleanRunExactly | legacy/src-backend/scripts/apply-migrations.ts:64-128 | a run completes exactly when recorded files are unchanged and missing ones can run; it then applies those once each, in order |
| Migrations.CompletedRunExactly | legacy/src-backend/scripts/apply-migrations.ts:64-128 | a run completes exactly when no listed file stands in the ledger under another name or checksum and missing ones can run; then every file is recorded under its own name and checksum |
| Migrations.MismatchExactly | legacy/src-backend/scripts/apply-migrations.ts:71-78 | a mismatch is reported exactly for a file whose recorded name or checksum differs, when the run gets to it |
| Migrations.VersionExactly | legacy/src-backend/scripts/apply-migrations.ts:8-36 | the version is everything before the first underscore |
| Migrations.ResumedRunIsCleanRun | legacy/src-backend/scripts/apply-migrations.ts:64-128 | a run resumed after any number of applied files ends in the same database |
| MigrationRuns.AppliedInOrder | legacy/src-backend/scripts/apply-migrations.ts:41-129 | in every interleaving with crashes the database holds a prefix of the missing files |
| MigrationRuns.LedgerIffEffect | legacy/src-backend/scripts/apply-migrations.ts:41-129 | in every run ledger row and committed effect coincide, no effect is there twice, and older rows are untouched |
| MigrationRuns.MutualExclusion | legacy/src-backend/scripts/apply-migrations.ts:41-45 | at most one runner is past the lock |
| MigrationRuns.FinishedRunIsCleanRun | legacy/src-backend/scripts/apply-migrations.ts:41-139 | once a runner finishes, the database is the one an uninterrupted run leaves |
| MigrationRuns.FinishedRunRecordsEveryFile | legacy/src-backend/scripts/apply-migrations.ts:41-139 | once any runner finishes, every file is recorded under its own name and checksum, and none had been recorded differently |
| MigrationRuns.InterruptedRunRecovers | legacy/src-backend/scripts/apply-migrations.ts:41-139 | from every interrupted state a clean run reaches the same database |
| MigrationRuns.AnotherRunnerCanFinish | legacy/src-backend/scripts/apply-migrations.ts:41-139 | whenever the lock is free, one more runner can go through the whole list |
| Loadouts.FreshnessExactly | legacy/src-backend/routes/players.ts:197-221 | when a cache is expired or a manual refresh blocked; rounding up never ends the wait early |
| Loadouts.AdmittedExactly | legacy/src-backend/routes/players.ts:446-455 | an automatic caller waits for the day to end, and everybody for the cooldown |
| Loadouts.RejectedExactly | legacy/src-backend/routes/players.ts:481-485 | a reply is rejected exactly when it is no array, or a nonempty one whose rows are all refused |
| Loadouts.KnownDecksExactly | legacy/src-backend/routes/players.ts:486-506 | the decks of exactly the rows without `ret_msg` that normalise to a known champion, in order |
| Loadouts.ReplacedExactly | legacy/src-backend/routes/players.ts:509-530 | upsert and delete leave the last deck of every key; a kept row keeps its talent |
| Loadouts.ReplacedForgets | legacy/src-backend/routes/players.ts:509-530 | the stored decks depend on the vendor's list alone |
| Loadouts.LoadoutStore.ReplaceDecks | legacy/src-backend/routes/players.ts:509-530 | the loop of upserts and the delete compute the replacement for one player |
| Loadouts.LoadoutStore.CollectDecks | legacy/src-backend/routes/players.ts:486-506 | usable rows of known champions, in order |
| Loadouts.LoadoutStore.Refresh | legacy/src-backend/routes/players.ts:434-550 | one call: refusal, recorded attempt, failure or replacement; only refused rows, or no array, leave decks and fetch time alone, any other reply of an admitted call replaces them; other players untouched |
| LoadoutRefresh.AttemptsTenMinutesApart | legacy/src-backend/routes/players.ts:434-550 | in every interleaving recorded attempts are ten minutes apart in milliseconds, even when the vendor fails |
| LoadoutRefresh.EveryManualCallHasItsAttempt | legacy/src-backend/routes/players.ts:434-550 | every manual vendor call has its own earlier attempt |
| LoadoutRefresh.AutomaticCallsRespectTheCooldown | legacy/src-backend/routes/players.ts:446-452 | automatic calls wait out every recorded manual attempt |
| LoadoutRefresh.DecksAreTheLastCommitted | legacy/src-backend/routes/players.ts:508-542 | at every moment the decks are those of the last committed refresh, or the old ones |
| LoadoutRefresh.StoredDecksExactly | legacy/src-backend/routes/players.ts:508-542 | one row per key of the last committed list, holding its last deck |
| LoadoutRefresh.CommitsComeFromAnswers | legacy/src-backend/routes/players.ts:475-542 | every committed list came from a vendor array that was empty or had a row that was not refused, later commits from later answers |
| LoadoutRefresh.AdmittedRefreshCommits | legacy/src-backend/routes/players.ts:434-550 | an admitted caller who gets such an answer commits exactly what it brings |
| LoadoutRefresh.FullTenMinutesExactly | legacy/src-backend/routes/players.ts:197-221 | when two admitted attempts are a full ten minutes apart in microseconds |
| LoadoutRefresh.AttemptsCanBeAMillisecondShort | legacy/src-backend/routes/players.ts:434-550 | a run whose attempts are 599999.001 ms apart |
| Moderation.Ledger.ReportPlayer | legacy/src-backend/routes/players.ts:2361-2460 | insert-or-ignore, then the counter or flag of the one player |
| Moderation.Ledger.RelatePlayers | legacy/src-backend/routes/players.ts:2234-2301 | replaces the user's relation of the pair and refreshes the two flags |
| Moderation.Ledger.UnrelatePlayers | legacy/src-backend/routes/players.ts:2304-2343 | removes the user's relation of the pair and refreshes the two flags |
| Moderation.Ledger.ClearTag | legacy/src-backend/routes/players.ts:2467-2547 | clears tag, votes and relations together, and counts what it removed |
| Moderation.BumpIsRecount | legacy/src-backend/routes/players.ts:2400-2427 | incrementing one counter is a recount after inserting a new vote |
| Moderation.ClearIsRecount | legacy/src-backend/routes/players.ts:2509-2533 | zeroing one tag is a recount after deleting its votes |
| Moderation.StepIsRecount | legacy/src-backend/routes/players.ts:2253-2547 | on tables that agree, what a handler does to one or two players is what recounting all of them would do |
| Moderation.LedgerAlwaysAgrees | legacy/src-backend/routes/players.ts:2253-2547 | after any run of handler steps counters equal vote counts, flags hold exactly when a vote or relation exists |
| Moderation.OneDirectionPerUserAndPair | legacy/src-backend/routes/players.ts:2253-2287 | a user holds at most one direction per unordered pair |
| Moderation.AcceptsExactly | legacy/src-backend/routes/players.ts:2234-2505 | who may report, confirm, relate, unrelate and clear what |
| Moderation.StandsExactly | legacy/src-backend/routes/players.ts:2234-2547 | a vote, a relation in its direction, or a confirmed cheater stands exactly when a rightful request brought it about and none took it away since |
| Moderation.TriggersRepairNothing | migrations/tracked/124_reconcile_moderation_tag_projections.sql:5-57 | after any run the database's own recount changes nothing |
| Moderation.SyncRepairs | migrations/tracked/124_reconcile_moderation_tag_projections.sql:59-85 | on arbitrary tables the recount leaves counters and flags that agree |
| TimeZones.ZonedToUtc | legacy/src-backend/routes/matches.ts:23-39 | the two reassignments compute the two-step inversion |
| TimeZones.InvertExactly | legacy/src-backend/routes/matches.ts:23-39 | with one change of offset nearby the answer is exact whenever an exact one exists, which fails only in the skipped gap |
| TimeZones.GapError | legacy/src-backend/routes/matches.ts:23-39 | in the gap the answer is off by the size of the change, and to which side |
| TimeZones.RepeatedTime | legacy/src-backend/routes/matches.ts:23-39 | which instant answers a repeated local time |
| TimeZones.WindowLength | legacy/src-backend/routes/matches.ts:1344-1350 | the length of a day window, and exactly when it is not empty |
| TimeZones.TilesExactly | legacy/src-backend/routes/matches.ts:1344-1350 | day windows tile the timeline exactly when no start of day comes after the next |
| TimeZones.DaysTileTheTimeline | legacy/src-backend/routes/matches.ts:1344-1350 | they do, without an empty window, when no two offsets are a day apart |
| TimeZones.SplitsExactly | legacy/src-backend/routes/matches.ts:1344-1350 | when a computed start of day is the true one |
| TimeZones.WindowIsLocalDay | legacy/src-backend/routes/matches.ts:1344-1350 | between two such starts the window is exactly the local day |
| TimeZones.SkippedDayEmptiesItsNeighbour | legacy/src-backend/routes/matches.ts:1344-1350 | a zone that skips a day gets an empty window for the day before |
| TimeZones.SkippedMidnightStartsTheEveningBefore | legacy/src-backend/routes/matches.ts:1344-1350 | west of UTC a skipped midnight starts the day at eleven the evening before |
| Paging.LimitsExactly | legacy/src-backend/routes/matches.ts:883-905 | both routes read 1 to 100, 20 by default, and differ exactly on negative numbers |
| Paging.CursorRoundTrip | legacy/src-backend/routes/matches.ts:43-60 | when a cursor survives encoding and parsing, and what it then lets through |
| Paging.PageAt | legacy/src-backend/routes/matches.ts:882-923 | a page is a slice of the table and has a cursor exactly when more follows |
| Paging.WalkInOrder | legacy/src-backend/routes/matches.ts:882-923 | a walk returns rows of the table, newest first and none twice |
| Paging.WalkExactly | legacy/src-backend/routes/matches.ts:882-923 | a walk enumerates the table exactly when every page boundary hands over |
| Paging.WalkStops | legacy/src-backend/routes/matches.ts:882-923 | every walk stops within as many requests as there are rows and one more, lossy tables included |
| Paging.HandsOverExactly | legacy/src-backend/routes/matches.ts:43-60 | which page boundaries hand over |
| Paging.AlignedTablesAreEnumerated | legacy/src-backend/routes/matches.ts:882-923 | at millisecond precision every row is visited exactly once, in order |
| Paging.MicrosecondsLoseARow | legacy/src-backend/routes/matches.ts:43-60 | two matches half a millisecond apart, of which the walk shows one |
| PlayerLink.Accounts.Issue | legacy/src-backend/routes/auth.ts:566-612 | issues the first free of five drawn codes, unless locked, unknown or owned |
| PlayerLink.Accounts.Claim | legacy/src-backend/routes/auth.ts:631-666 | claims an attempt exactly when the row allows it; what a refusal cleans up |
| PlayerLink.Accounts.Reject | legacy/src-backend/routes/auth.ts:164-173 | locks for ten minutes when the claimed attempt was the fifth, and prolongs the code |
| PlayerLink.Accounts.Link | legacy/src-backend/routes/auth.ts:708-713 | links unless another user owns the player |
| PlayerLink.FirstFreeExactly | legacy/src-backend/routes/auth.ts:588-612 | issuing fails for want of a code exactly when every drawn one is taken |
| PlayerLink.AtMostFiveSpacedClaims | legacy/src-backend/routes/auth.ts:631-702 | in every run a code admits at most five claims, thirty seconds apart |
| PlayerLink.ClaimsBeforeExpiry | legacy/src-backend/routes/auth.ts:631-666 | in no run is a code claimed ten minutes or more after its issue |
| PlayerLink.LockEndsWithItsCode | legacy/src-backend/routes/auth.ts:164-173 | `locked_until` equals `expires_at`, and a locked code admits no claim at any time |
| PlayerLink.LiveLockHolds | legacy/src-backend/routes/auth.ts:566-702 | under a live lock no step claims or issues; how the row can still go |
| PlayerLink.CleanupKeepsLiveLocks | legacy/src-backend/routes/auth.ts:544-551 | expiry cleanup never removes a live lock |
| PlayerLink.LockedCodeIsSpent | legacy/src-backend/routes/auth.ts:631-702 | once locked, a code is never claimed again however the run goes on |
| PlayerLink.OnePlayerOneUser | legacy/src-backend/routes/auth.ts:708-713 | no two users are linked to one player, in any run |
| PlayerLink.LockMeetsTheCurrentCode | legacy/src-backend/routes/auth.ts:680-702 | the lock goes to the user's current code, which has attempts left exactly when it is not the one tried and has fewer than five itself |
| PlayerLink.LateRejectionLocksAFreshCode | legacy/src-backend/routes/auth.ts:680-702 | a run in which a new, untried code is locked |

## Left out

- HTTP servers, routes, headers, tracing, metrics, notifications and search synchronisation: plumbing.
- SQL aggregates, leaderboards and read-only listings: their meaning lives in PostgreSQL.
- Inside the key pool, the session manager and the buffer processor: they appear as the environment's answers.
- Bans, maps, dates, queue names and other shell fields of a match, beyond queue, entry time and score: copied, not decided on.
- JSON and NUL sanitising, icon addresses, display names, score-bearing fields of demo fallbacks: string plumbing.
- Concurrent recoveries sharing the memory map: the check and the later fetch are not atomic, so `HistoryBudget` is about sequential series.
- A memory entry that holds null: the model's memory map holds histories only.
- Non-transactional migration files: `migrations/README.md` asks for a recovery plan of their own.
- Migrations.OneFile: SQL failure is a function of the file and the schema; transient failures appear in `MigrationRuns` as throws.
- Writers of `player_loadouts` and of the vote tables outside the modelled handlers, account merges and user deletion.
- Recovery.RelayEngine.FetchHistories: histories are requested one after another; the source sends up to five at a time, in no fixed order.
- Batch.GetMatchDetailsBatch: the recoveries of one batch each start from arbitrary caches instead of sharing one map.
- Collisions of the 32-bit lock hash: two players sharing a lock only wait longer.
- The reason text of a vote, and requests without a session.
- Calendar arithmetic on date strings: days are consecutive integers, and hour windows are the start plus one hour.
- Paging.Walk: cursors are decoded payloads; JSON, base64 and ids beyond 2^53 are not modelled, and the filter options of other listings are not either.
- The explicit cancel endpoint of a verification: it deletes the row with whatever lock it carries, so `PlayerLink` is about runs without it.
- Races between the statements of one handler that is not a transaction, such as issuing a code.
- Build and post likes, dummy-data tables, configuration and environment parsing: they would only add easy members.
