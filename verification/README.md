# Persistent Codex: verified models

A Dafny model of the parts of the platform whose correctness spans many calls: the prepaid credit
ledger and the admission leases in front of it, the corpus job machine with its search cache and
cursors, the streamed-text tail and the timeline built on it, and the small state machines of the
runtime (restart budget, tree diff, workload credentials, dependency exclusion).

Each database transaction is one atomic step. Tables are sequences or maps of rows. Every operation
that updates state is a method of a class (or a method with the original's loops) whose postcondition
ties the new state to a function of the old one; the theorems are about those functions and about
every run of them. `dafny verify dfyconfig.toml` checks the project.

| module | what it holds |
|---|---|
| `Ledger`, `LedgerInvariants`, `LedgerReservations`, `LedgerRuns`, `LedgerSplit`, `Convergence`, `LotExpiry`, `CreditRepository` | credit lots, the append-only ledger, reservations, settlements, balances and the projection |
| `Subscriptions`, `Admission`, `AdmissionCalls` | the subscription row; policy evaluation, leases and the credit check behind them; calls that overlap |
| `Corpus`, `CorpusJobs`, `CorpusIndex`, `CorpusStore` | sources, revisions, extraction jobs, chunks, the cache epoch |
| `SearchPages`, `SearchCache`, `SearchFreshness`, `SearchStaleness` | cursors and pages, the cache, searches interleaved with transactions, stale pages |
| `Chunker` | the overlapping line chunker |
| `Unicode`, `BoundedTail`, `Timeline` | UTF-16 and UTF-8 (section 3 of RFC 3629), the byte-bounded tail, the reconciler |
| `TreeDiff`, `Watcher` | snapshot diff with rename detection, the bounded queue and its deduplicating flush |
| `Restarts`, `Credentials`, `Exclusion` | restart budget, nonce table, exclusion closure |

## Where the code gives less than one might expect

Each point names the lemmas that state it: the exact condition, and a failing case where one input says more.

- The paid and promotional columns of a balance need not add up to the total: a promotional grant
  that carries the payment reference of a paid lot can be recorded on that paid lot
  (`LedgerSplit.SplitCanFail`). A call keeps them adding up, whichever row its unordered query
  returns, exactly when no lot of the other kind carries its payment reference
  (`LedgerSplit.SplitKeptExactly`); the webhook drain sends grants without one, so its runs are safe
  (`LedgerSplit.SplitOverPlainRuns`).
- The expiry of a lot depends on the order of deliveries, exactly when two different expiries are
  delivered for its payment reference (`LotExpiry.ExpiryConvergesExactly`, `LotExpiry.LastDeliveredExpiryStays`).
- A reversal that names a lot and no payment reference cannot come before its lot
  (`Convergence.LotAddressedExactly`).
- A positive admission need not have a live lease. An admission is up to four transactions, and a
  second call with the same request key, or a later retry, meets the same decision: if it was
  cancelled for lack of credit, the other call still answers positively once credit has arrived
  (`AdmissionCalls.OverlapLosesLease`, `Admission.RetryAfterCreditDenial`). The lease is live exactly
  when the request was new or its lease live, and nothing released it before the call's reservation
  (`AdmissionCalls.LiveBehindPositiveAnswer`); otherwise credit stays on hold without a lease
  (`AdmissionCalls.StrandedHoldExactly`).
- An admission whose reservation fails for another reason than lack of credit throws and leaves its
  new lease open (`Admission.MissingCatalogOrphansLease`); `AdmissionCalls.LeftBehindExactly` says
  when.
- A cancellation gives its reservation back unless its own settlement or release keys are already
  taken (`AdmissionCalls.CancelledHoldsNothing`).
- Two subscription updates that share sequence and effective time end at whichever came first
  (`Subscriptions.TiesKeepTheFirst`). The order matters exactly when different updates share the
  greatest pair and that pair beats the row (`Subscriptions.OrderMattersExactly`).
- `claimNext`, `failJob` and `reindexSource` take a source out of reach without raising the epoch, a
  claim or failure even when its job belongs to an older revision
  (`SearchStaleness.ClaimAndFailHide`), so an unexpired cached page is still served
  (`SearchStaleness.UnbumpedServesStalePages`). These three are the only transactions that do so
  (`SearchStaleness.StaleExactly`), and they make nothing newly retrievable
  (`SearchFreshness.UnbumpedOnlyShrinks`).
- Cursor paging stops for good at the first entry that alone exceeds the token budget
  (`SearchPages.WalkIsTheRanking`).
- A flush drops an event whose job key is still remembered, so a file created, deleted and created
  again with the same content is not reported the second time (`Watcher.RepeatedCreationIsDropped`,
  `Watcher.FlushReproducesExactly`).
- Content that was ever registered never becomes a new source again, not even after its source was
  deleted (`CorpusJobs.ContentRegistersOnce`).

## Model

| member | source | states |
|---|---|---|
| `LedgerRuns.ReportsAgree` | packages/billing-platform/src/index.ts:665-1296 | after every run of purchases, grants, reversals, reservations and settlements from empty books: reported reserved = raw ledger sum = total unresolved of the reservation rows (so no clamp acts), consumed = total settled = paid revenue + promotional consumption, available + reserved + consumed = credits in − reversals, paid liability = paid available + paid reserved, cash collected + refunds + chargebacks = cash of all purchases |
| `LedgerRuns.HoldingsNonNegative` | packages/billing-platform/src/index.ts:678-708 | for every set of lots and every reservation, the raw reserved, consumed and released sums equal what the allocation rows hold and are not negative |
| `LedgerRuns.RunKeeps` | packages/billing-platform/src/index.ts:459-1077 | every run keeps: unique lot ids, ledger keys and reservation keys, entries only on known lots, sound reservations, and agreement of ledger sums with allocation rows for every view, lot set and reservation |
| `LedgerRuns.StepKeeps` | packages/billing-platform/src/index.ts:459-1077 | one command, accepted or rejected, keeps that invariant |
| `LedgerRuns.CreateLotKeeps` | packages/billing-platform/src/index.ts:459-561 | a purchase or grant keeps the invariant, including the upsert on a payment reference |
| `LedgerRuns.LifecycleKeeps` | packages/billing-platform/src/index.ts:563-663 | a refund, chargeback, expiration or adjustment keeps it, including the placeholder lot |
| `LedgerRuns.ReserveKeeps` | packages/billing-platform/src/index.ts:715-871 | a reservation keeps it: what the hold entries take is what the allocation rows record |
| `LedgerRuns.SettleKeeps` | packages/billing-platform/src/index.ts:882-1077 | a settlement keeps it, with usage and release keys distinct from each other and from the ledger |
| `LedgerRuns.SettlementExact` | packages/billing-platform/src/index.ts:913-1048 | an accepted settlement adds exactly the measured amount of usage and the released amount of release entries to its reservation, a terminal one leaves nothing unresolved, available grows by the release, no other reservation moves |
| `LedgerSplit.SplitExactly` | packages/billing-platform/src/index.ts:676-712 | available = paid available + promotional available if and only if no entry is misfiled between a paid and a promotional lot |
| `LedgerSplit.SplitCanFail` | packages/billing-platform/src/index.ts:509-545 | two concrete commands after which the columns do not add up |
| `LedgerSplit.SplitOverPlainRuns` | packages/billing-platform/src/index.ts:2259-2275 | over every run whose grants carry no payment reference, as the webhook drain sends them, the columns add up |
| `LedgerSplit.SplitKeptExactly` | packages/billing-platform/src/index.ts:509-545 | from sound books whose columns add up, an accepted purchase or grant under a new key keeps them adding up for every row the unordered query may return if and only if no lot of the other kind carries its payment reference |
| `LedgerSplit.PickedKindDecides` | packages/billing-platform/src/index.ts:509-545 | for one returned row: they keep adding up if and only if that row is of the input's kind |
| `LedgerSplit.RunKeepsKinded` | packages/billing-platform/src/index.ts:463-470 | lot ids carry their kind in every reachable state |
| `LedgerInvariants.SpreadExact` | packages/billing-platform/src/index.ts:959-1035 | both loop remainders reach zero and no allocation gives more than it holds |
| `LedgerInvariants.SpreadOrder` | packages/billing-platform/src/index.ts:961-975 | an allocation is charged only when every earlier one is used up |
| `LedgerInvariants.ChargedWaterfall` | packages/billing-platform/src/index.ts:961-1035 | across settlements, a later lot is charged only when every earlier one is fully charged |
| `LedgerInvariants.SettleEntriesTally` | packages/billing-platform/src/index.ts:976-1035 | the ledger entries of a settlement move exactly what the allocation rows move, for every lot set and reservation |
| `LedgerInvariants.SettledReservationOk` | packages/billing-platform/src/index.ts:1036-1064 | the updated row is sound again: totals, state and waterfall; a terminal settlement resolves it |
| `LedgerReservations.ReservationExact` | packages/billing-platform/src/index.ts:759-871 | a granted reservation allocates exactly its maximum, takes no lot below zero, touches no other lot, leaves the aggregate non-negative, and no other split of that maximum over the same eligible lots uses less paid credit |
| `LedgerReservations.InsufficientExactly` | packages/billing-platform/src/index.ts:759-811 | refused for lack of credit if and only if the aggregate or the live lots of the catalog currency cannot cover the maximum |
| `LedgerReservations.LeastPaidCredit` | packages/billing-platform/src/index.ts:795-810 | greedy draining in query order is optimal in paid credit among all feasible splits |
| `LedgerReservations.TakeExact` | packages/billing-platform/src/index.ts:801-811 | the loop raises the lesser of what is asked and what the lots of the currency hold, within each lot |
| `LedgerReservations.TakeDrains` | packages/billing-platform/src/index.ts:803-810 | a lot contributes only when every earlier lot of the currency is drained |
| `LedgerReservations.TakePromoFirst` | packages/billing-platform/src/index.ts:795-810 | the promotional part is the most the promotional lots can give |
| `LedgerReservations.CandidatesExact` | packages/billing-platform/src/index.ts:777-799 | the query returns exactly the unexpired lots with a positive balance, each once, in its order |
| `LedgerReservations.OrderBySorted` | packages/billing-platform/src/index.ts:795-796 | ordered promotional first, then expiry with none last, occurrence, id; a permutation of the selected rows |
| `LedgerReservations.HoldEntriesTally` | packages/billing-platform/src/index.ts:836-871 | hold entries move exactly the allocated amounts from available to reserved |
| `Ledger.FirstMatchIsEarliest` | packages/billing-platform/src/index.ts:591-599 | when a lot matches, the ordered single-row query returns a lot before which no matching lot occurs |
| `Ledger.FirstMatch` | packages/billing-platform/src/index.ts:591-599 | the returned lot matches, and nothing is returned only when nothing matches |
| `Convergence.DeliveriesConverge` | packages/billing-platform/src/index.ts:459-663 | any two deliveries of the same purchase, refund and chargeback notices, in any order, with any repetition and whatever rows the unordered query returns, end with the same entries, the same sums for every view and lot set, the same balance and projection |
| `Convergence.RunDelivers` | packages/billing-platform/src/index.ts:459-663 | a run of notices, whatever lots it meets or opens, appends each notice's own entry once and opens exactly the paid lots named |
| `Convergence.PurchaseDelivers` | packages/billing-platform/src/index.ts:483-540 | a purchase lands on the paid lot of its payment reference whether or not a placeholder came first |
| `Convergence.ReversalDelivers` | packages/billing-platform/src/index.ts:591-660 | a reversal lands on the same lot whether or not its purchase came first |
| `Convergence.DeliverExactly` | packages/billing-platform/src/index.ts:518-545 | closed form of the ledger: the old entries plus one entry for each noticed key that was not recorded |
| `Convergence.TallyPermuted` | packages/billing-platform/src/index.ts:670-694 | no reported sum sees the order of entries |
| `LotExpiry.ExpiryConvergesExactly` | packages/billing-platform/src/index.ts:483-508 | the expiry of a payment reference's lot is the same after every delivery of the same notices if and only if all expiries delivered for that reference are equal |
| `LotExpiry.LastDeliveredExpiryStays` | packages/billing-platform/src/index.ts:483-508 | two purchases of one payment with different expiries, in both orders |
| `Convergence.PickDoesNotMatter` | packages/billing-platform/src/index.ts:509-545 | whichever matching row the unordered query returns, a delivery does the same |
| `LotExpiry.ExpiryIsLastSet` | packages/billing-platform/src/index.ts:483-508 | after any run of notices it is the last one set for the reference, or what it was |
| `Convergence.LotAddressedExactly` | packages/billing-platform/src/index.ts:591-635 | a reversal that names only a lot is accepted if and only if that lot exists in its currency |
| `Convergence.RedeliveryMovesNothing` | packages/billing-platform/src/index.ts:459-1077 | once any command went through, repeating it after any further run changes no entry, reservation or settlement |
| `CreditRepository.Repository.CreateCreditLot` | packages/billing-platform/src/index.ts:459-561 | new state and error of the transaction, in every branch |
| `CreditRepository.Repository.AppendCreditLifecycle` | packages/billing-platform/src/index.ts:563-663 | new state and error of the transaction, in every branch |
| `CreditRepository.Repository.ReserveCredits` | packages/billing-platform/src/index.ts:715-871 | new state and error of the transaction, in every branch |
| `CreditRepository.Repository.SettleCredits` | packages/billing-platform/src/index.ts:882-1077 | new state and error of the transaction, in every branch |
| `CreditRepository.Drain` | packages/billing-platform/src/index.ts:801-811 | the loop with its early exit yields the allocations and the remainder of the greedy split |
| `CreditRepository.Distribute` | packages/billing-platform/src/index.ts:959-1035 | the loop yields the charged rows, the entries and both remainders of the spread |
| `CreditRepository.RemaindersVanish` | packages/billing-platform/src/index.ts:913-1035 | on a sound reservation both remainders of the settlement loop end at zero |
| `Subscriptions.EndsAtFirstGreatest` | packages/billing-platform/src/index.ts:1424-1452 | the row ends at the first delivered of those with the greatest (sequence, effective time) |
| `Subscriptions.OrderMattersExactly` | packages/billing-platform/src/index.ts:1424-1452 | from any row, all deliveries of the same updates end at one row if and only if one update alone carries the greatest pair or that pair does not beat the row |
| `Subscriptions.EndsAtGreatest` | packages/billing-platform/src/index.ts:1424-1452 | the row stays, or becomes a delivered update that beats it, and nothing delivered beats the outcome |
| `Subscriptions.OrderDoesNotMatter` | packages/billing-platform/src/index.ts:1424-1452 | in particular, with distinct pairs order and repetition of deliveries do not matter |
| `Subscriptions.TiesKeepTheFirst` | packages/billing-platform/src/index.ts:1429-1433 | two updates with equal pairs end at the first delivered |
| `Admission.EvaluateAdmission` | packages/billing-platform/src/index.ts:67-134 | deny when disabled or some relevant hard limit is reached, else warn when some soft limit is reached, else allow; the named policy is the first of its sort |
| `Admission.VerdictIgnoresOrder` | packages/billing-platform/src/index.ts:67-134 | the verdict depends on the set of policies only |
| `Admission.VerdictWorsens` | packages/billing-platform/src/index.ts:67-134 | larger measurements and more policies never improve the verdict |
| `Admission.RunsKeepLimits` | packages/billing-platform/src/index.ts:1898-2134 | under a fixed plan, every run of admissions, bindings, completions and cancellations keeps live turns within every hard tenant and per-session limit |
| `Admission.AdmitKeepsLimits` | packages/billing-platform/src/index.ts:1898-2067 | so does the whole admission with its credit reservation and cancellation, run alone |
| `Admission.RepeatedRequestAddsNothing` | packages/billing-platform/src/index.ts:1913-1933 | a request key asked again after any further actions adds no lease and repeats the verdict |
| `AdmissionCalls.LiveBehindPositiveAnswer` | packages/billing-platform/src/index.ts:1898-2067 | for a call with any transactions of others between its own: a positive answer has a live lease if and only if the request was new or its lease live when the call began, and no cancellation of its decision or completion of its bound resource fell between its lease and its reservation |
| `AdmissionCalls.LiveRowExactly` | packages/billing-platform/src/index.ts:2069-2120 | a lease is live after any events if and only if it was live and none of them cancelled its decision or completed its bound resource |
| `AdmissionCalls.OverlapLosesLease` | packages/billing-platform/src/index.ts:1913-2067 | two overlapping calls with one request key after which the first answers allow with credit on hold and no live lease |
| `AdmissionCalls.AloneIsOneStep` | packages/billing-platform/src/index.ts:1898-2067 | a call that nothing interrupts is the call taken as one step |
| `Admission.PositiveAnswerHasLiveLease` | packages/billing-platform/src/index.ts:1913-2067 | the special case of a call that runs alone |
| `Admission.RetryAfterCreditDenial` | packages/billing-platform/src/index.ts:2036-2067 | denied for credit, then retried with credit: allow, and no live lease |
| `AdmissionCalls.LeftBehindExactly` | packages/billing-platform/src/index.ts:1898-2067 | for a call with any transactions of others between its own: without a positive answer it leaves the live lease it opened if and only if the request was new, the verdict was not deny, the plan is prepaid, nothing released the lease meanwhile, and on the books at the time of the reservation its key is unused and there is no price, or credit suffices and a hold key is already recorded |
| `AdmissionCalls.StrandedHoldExactly` | packages/billing-platform/src/index.ts:2036-2067 | a positive prepaid answer leaves credit on hold with no live lease if and only if the lease was dead or released meanwhile and the reservation was new or still held something |
| `AdmissionCalls.CancelledHoldsNothing` | packages/billing-platform/src/index.ts:2103-2134 | after a cancellation the reservation it found holds nothing if and only if it already held nothing at settlement time, or the cancellation's settlement key and release keys were unused |
| `AdmissionCalls.GiveBackExactly` | packages/billing-platform/src/index.ts:2121-2132 | the same for the settlement alone |
| `AdmissionCalls.CallKeepsLimits` | packages/billing-platform/src/index.ts:1898-2134 | overlapping calls under one plan keep live turns within every hard limit |
| `Admission.OrphanedLeaseExactly` | packages/billing-platform/src/index.ts:1913-2067 | the special case of a call that runs alone |
| `Admission.ReserveFailsExactly` | packages/billing-platform/src/index.ts:732-871 | when a reservation fails for another reason than lack of credit |
| `Admission.MissingCatalogOrphansLease` | packages/billing-platform/src/index.ts:2036-2054 | without a catalog a prepaid turn throws and its lease stays open |
| `Admission.CreditCanArrive` | packages/billing-platform/src/index.ts:459-561 | a single purchase reaches the books that retry needs |
| `CorpusJobs.RunKeeps` | packages/corpus-ingestion/src/repository.ts:266-1185 | every run keeps: attempt within 1..maxAttempts, a job is extracting exactly while it has an owner and a lease, at most one pending or extracting job per revision, jobs of a deleted source deleted, current revisions belong to their source |
| `CorpusJobs.StepKeeps` | packages/corpus-ingestion/src/repository.ts:266-1185 | one transaction keeps that invariant |
| `CorpusJobs.DeletedForever` | packages/corpus-ingestion/src/repository.ts:1045-1120 | after a deletion no run revives the source or any of its jobs |
| `CorpusJobs.FinishedIsFinal` | packages/corpus-ingestion/src/repository.ts:775-1043 | over every run an indexed, failed or deleted job stays exactly as it is, unless its source is deleted, and then it is only marked deleted |
| `CorpusJobs.ReclaimedWorkerIsFenced` | packages/corpus-ingestion/src/repository.ts:683-1043 | once another worker re-claimed the job, the first worker's completions and failures change nothing, after any run in which it does not claim again |
| `CorpusJobs.StepKeepsRetired` | packages/corpus-ingestion/src/repository.ts:411-573 | a revision that is not current never becomes current again |
| `CorpusJobs.ContentRegistersOnce` | packages/corpus-ingestion/src/repository.ts:266-300 | registering known content again changes nothing, after any run |
| `CorpusJobs.FailsAfterLastAttempt` | packages/corpus-ingestion/src/repository.ts:683-1043 | a job that fails each time it is claimed is pending again until its attempts are used up, then failed for good |
| `CorpusIndex.CompletionReplacesIndex` | packages/corpus-ingestion/src/repository.ts:806-850 | after a completion the revision holds exactly the written ordinals with the content of their last write, nothing of an earlier extraction, and no unwritten place of another revision changed |
| `CorpusIndex.CompletedIsRetrievable` | packages/corpus-ingestion/src/repository.ts:775-943 | right after a completion a principal may retrieve exactly the stored chunks with an indexed document, if the revision is current and the source visible |
| `CorpusIndex.InsertedExactly` | packages/corpus-ingestion/src/repository.ts:825-850 | the insert loop leaves each written place with its last content and every other place alone |
| `CorpusStore.Store.RegisterSource` | packages/corpus-ingestion/src/repository.ts:266-409 | new rows and the error, if any |
| `CorpusStore.Store.RegisterRevision` | packages/corpus-ingestion/src/repository.ts:411-573 | new rows and the error, if any: the old revision superseded, its chunks and documents gone, the epoch raised |
| `CorpusStore.Store.ClaimNext` | packages/corpus-ingestion/src/repository.ts:683-742 | claims exactly a job that is pending or whose lease ran out and that is due; new rows |
| `CorpusStore.Store.InsertRows` | packages/corpus-ingestion/src/repository.ts:825-877 | the two insert loops with their conflict rules, all or nothing |
| `CorpusStore.Store.CompleteJob` | packages/corpus-ingestion/src/repository.ts:775-943 | new rows and the error, if any: only under a live lease, idempotent once indexed |
| `CorpusStore.Store.FailJob` | packages/corpus-ingestion/src/repository.ts:945-1043 | new rows and the error, if any: retry until the last attempt, then failed |
| `CorpusStore.Store.DeleteSource` | packages/corpus-ingestion/src/repository.ts:1045-1120 | new rows and the error, if any |
| `CorpusStore.Store.ReindexSource` | packages/corpus-ingestion/src/repository.ts:1122-1185 | new rows and the error, if any; the epoch stays |
| `CorpusStore.Store.CorpusCacheEpoch` | packages/corpus-ingestion/src/repository.ts:1316-1331 | reads the epoch, creating it at one |
| `CorpusStore.Store.SetSourceAcl` | packages/corpus-ingestion/src/repository.ts:1333-1380 | new rows and the error, if any |
| `CorpusStore.Store.BumpCacheEpoch` | packages/corpus-ingestion/src/repository.ts:1615-1624 | raises the epoch by one, or creates it at one |
| `SearchFreshness.RunKeeps` | packages/corpus-ingestion/src/retrieval.ts:214-361 | under every interleaving no search and no cache entry carries an epoch beyond the current one, cache keys stay distinct and the job invariant holds |
| `SearchFreshness.FreshAfterBump` | packages/corpus-ingestion/src/retrieval.ts:214-361 | after a transaction that raises the epoch, a search that reads its epoch later never answers with a hit that stays out of its principal's reach, from the cache or fresh, under every interleaving |
| `SearchFreshness.DeletedSourceIsNeverReturned` | packages/corpus-ingestion/src/repository.ts:1045-1120 | a search that reads its epoch after a deletion commits never returns a chunk of that source, to anyone |
| `SearchFreshness.SupersededRevisionIsNeverReturned` | packages/corpus-ingestion/src/repository.ts:411-573 | nor a chunk of a superseded revision |
| `SearchFreshness.WithdrawnSourceIsNotReturned` | packages/corpus-ingestion/src/repository.ts:1333-1380 | nor a source whose access was withdrawn from the principal, until access is set again |
| `SearchFreshness.EpochNeverFalls` | packages/corpus-ingestion/src/repository.ts:1615-1624 | no transaction lowers the epoch |
| `SearchFreshness.BumpsExactly` | packages/corpus-ingestion/src/repository.ts:266-1380 | the epoch rises if and only if the transaction registers content whose hash and ids are free (for a revision: of a source that is not deleted) with a positive attempt limit, completes a job under a live lease with all rows insertable, deletes a known source, or changes access of one that is not deleted |
| `SearchFreshness.OtherwiseUnchanged` | packages/corpus-ingestion/src/repository.ts:266-1380 | a transaction that neither does that nor is a claim, failure or reindex that goes through changes nothing |
| `SearchFreshness.UnbumpedOnlyShrinks` | packages/corpus-ingestion/src/repository.ts:683-742 | a transaction that does not raise the epoch makes nothing newly retrievable |
| `SearchStaleness.StaleExactly` | packages/corpus-ingestion/src/retrieval.ts:214-361 | when a transaction takes a hit out of reach while an unexpired page that lists it is cached at the current epoch, the next search for that page answers with the hit if and only if the transaction is a claim of a claimable job, a failure by the lease owner or a reindex with no active job; after any other, no search that reads its epoch later ever does |
| `SearchStaleness.StoredThenStaleExactly` | packages/corpus-ingestion/src/retrieval.ts:214-361 | the same for a page stored by an ordinary search that fits the cache, asked for again within its time to live |
| `SearchStaleness.UnbumpedServesStalePages` | packages/corpus-ingestion/src/retrieval.ts:214-230 | after any transaction that hides a hit without raising the epoch, a new search answers an unexpired cached page that lists it |
| `SearchStaleness.SilentHides` | packages/corpus-ingestion/src/repository.ts:683-742 | a claim, failure or reindex that goes through hides every hit of its source, whichever revision its job belongs to, and does not raise the epoch |
| `SearchStaleness.ClaimAndFailHide` | packages/corpus-ingestion/src/repository.ts:683-742 | a run from empty tables after which re-claiming or failing a superseded revision's job hides the indexed current revision |
| `SearchCache.CorpusSearchCache.Read` | packages/corpus-ingestion/src/retrieval.ts:86-96 | keeps the byte counter and both bounds; moves a live entry to the recent end, drops an expired one |
| `SearchCache.CorpusSearchCache.Write` | packages/corpus-ingestion/src/retrieval.ts:98-119 | keeps the byte counter equal to the sum of sizes and leaves both bounds met; an oversize value changes nothing |
| `SearchCache.CorpusSearchCache.EvictOldest` | packages/corpus-ingestion/src/retrieval.ts:109-118 | the eviction loop leaves the specified suffix and an exact byte counter |
| `SearchCache.EvictIsSuffix` | packages/corpus-ingestion/src/retrieval.ts:109-118 | survivors are the longest most-recent run that fits both bounds |
| `SearchCache.StoredSurvives` | packages/corpus-ingestion/src/retrieval.ts:98-119 | a just stored entry survives its own eviction when at least one entry is allowed |
| `SearchCache.HistorySound` | packages/corpus-ingestion/src/retrieval.ts:71-133 | after every history keys are distinct, both bounds hold, and each entry is the last accepted one of its key |
| `SearchCache.ReadsLastAccepted` | packages/corpus-ingestion/src/retrieval.ts:86-96 | a read returns only the last accepted value of its key, and only before it expires |
| `SearchCache.ReadYourWrite` | packages/corpus-ingestion/src/retrieval.ts:86-119 | an accepted value is read back until it expires |
| `SearchPages.BuildPage` | packages/corpus-ingestion/src/retrieval.ts:308-360 | the response of a search at an offset of a ranking |
| `SearchPages.FillPage` | packages/corpus-ingestion/src/retrieval.ts:309-343 | the token loop takes the longest prefix within count and budget, and flags truncation exactly when the budget stopped it |
| `SearchPages.PageWithinLimits` | packages/corpus-ingestion/src/retrieval.ts:308-345 | a page is a consecutive slice within topK and the budget; it is truncated if and only if its next entry would break the budget |
| `SearchPages.PageAdvances` | packages/corpus-ingestion/src/retrieval.ts:344-358 | a page covers the next stretch and its cursor points to where the stretch ends, strictly later |
| `SearchPages.WalkFrom` | packages/corpus-ingestion/src/retrieval.ts:308-358 | from any cursor, the pages concatenate to one stretch of the ranking without gap or overlap |
| `SearchPages.WalkIsTheRanking` | packages/corpus-ingestion/src/retrieval.ts:308-358 | following cursors yields the whole ranking if and only if every entry alone fits the budget |
| `Chunker.ExtractChunks` | packages/corpus-ingestion/src/index.ts:267-296 | the nested loops terminate, and this is what they emit |
| `Chunker.ChunksAreWindows` | packages/corpus-ingestion/src/index.ts:269-296 | the emitted chunks are the windows that are not blank, in order |
| `Chunker.WindowsCover` | packages/corpus-ingestion/src/index.ts:269-295 | windows leave no gap from first line to last, start strictly later, never end earlier, are as long as the limit allows or a single line, and share just enough lines for the overlap or all but the first |
| `Chunker.EndsDoNotDecrease` | packages/corpus-ingestion/src/index.ts:271-294 | a window that starts later within another never ends before it |
| `Chunker.LineIsCovered` | packages/corpus-ingestion/src/index.ts:269-295 | every line lies in some window |
| `Chunker.ChunksAreLocated` | packages/corpus-ingestion/src/index.ts:281-286 | a chunk's text is exactly its located lines, under the limit or a single line |
| `Chunker.NonBlankLinesAreEmitted` | packages/corpus-ingestion/src/index.ts:281-286 | every non-blank line lies in an emitted chunk |
| `BoundedTail.AppendBoundedTail` | packages/artifact-storage/src/index.ts:429-442 | the program's result on any UTF-16 input |
| `BoundedTail.CutAtBoundary` | packages/artifact-storage/src/index.ts:439-441 | the loop skips exactly the continuation bytes after the cut |
| `BoundedTail.AppendTailIsLongestSuffix` | packages/artifact-storage/src/index.ts:429-442 | on well-formed text the result is the longest whole-character suffix of the concatenation within the byte limit |
| `BoundedTail.LongestSuffixIsLongest` | packages/artifact-storage/src/index.ts:429-442 | the reference: it fits, and no longer suffix does |
| `BoundedTail.SliceKeepsTail` | packages/artifact-storage/src/index.ts:435-436 | the early slice on UTF-16 units never changes the answer, even when it splits a surrogate pair or slices by zero |
| `BoundedTail.TrimIsLongestSuffix` | packages/artifact-storage/src/index.ts:437-441 | cutting the bytes and skipping continuations leaves the encoding of the longest suffix |
| `BoundedTail.ChunkingDoesNotMatter` | packages/artifact-storage/src/index.ts:429-442 | folding over any chunking equals one call on the concatenation |
| `Unicode.Utf8RoundTrip` | packages/artifact-storage/src/index.ts:437-441 | decoding undoes encoding |
| `Unicode.Utf16RoundTrip` | packages/artifact-storage/src/index.ts:437-441 | well-formed text is read back from its UTF-16 units |
| `Timeline.TimelineReconciler.Apply` | packages/codex-event-adapter/src/index.ts:962-1020 | new item map and returned snapshot for every event type |
| `Timeline.ItemsAreIndependent` | packages/codex-event-adapter/src/index.ts:944-1020 | an item's snapshot is the fold of its own events, whatever is interleaved |
| `Timeline.FirstCompletionIsFinal` | packages/codex-event-adapter/src/index.ts:965-1012 | the first completing event freezes the item with its own text or output |
| `Timeline.CommandOutputIsTail` | packages/codex-event-adapter/src/index.ts:987-1015 | until then a command item shows the bounded tail of all its deltas, with default-case events mixed in |
| `Timeline.ReconciledCommandOutput` | packages/codex-event-adapter/src/index.ts:962-1020 | the same for the reconciler fed with events of many items |
| `TreeDiff.Reconcile` | agents/workspace-agent/src/runtime-corpus-integration.ts:320-381 | the loops enqueue the diff in its order |
| `TreeDiff.MatchLoop` | agents/workspace-agent/src/runtime-corpus-integration.ts:328-356 | each deleted file is renamed to the first unused created file with its content, or deleted |
| `TreeDiff.DiffExact` | agents/workspace-agent/src/runtime-corpus-integration.ts:320-381 | the events touch each changed path exactly once, with its new content, and nothing else |
| `TreeDiff.AnyOrderReproduces` | agents/workspace-agent/src/runtime-corpus-integration.ts:320-381 | applied in any order they turn the old snapshot into the new one |
| `TreeDiff.RenameTargetsDistinct` | agents/workspace-agent/src/runtime-corpus-integration.ts:328-345 | a created path is the target of at most one rename |
| `Watcher.WorkspaceCorpusWatcher.Accept` | agents/workspace-agent/src/workspace-corpus-watcher.ts:205-239 | new queue and outcome in every branch: hidden paths, collapse of an update into a creation, backpressure |
| `Watcher.WorkspaceCorpusWatcher.Flush` | agents/workspace-agent/src/workspace-corpus-watcher.ts:241-269 | jobs, trimmed window and remaining queue |
| `Watcher.DiffKeysDistinct` | agents/workspace-agent/src/workspace-corpus-watcher.ts:222-222 | the events of one reconcile have distinct queue keys |
| `Watcher.BacklogExactly` | agents/workspace-agent/src/workspace-corpus-watcher.ts:205-239 | from an empty queue a reconcile is queued whole if and only if its events fit the backlog, else it meets backpressure |
| `Watcher.EmitsAllExactly` | agents/workspace-agent/src/workspace-corpus-watcher.ts:245-268 | every ready event is emitted if and only if none is among those the window still remembers at its turn; the window stays within its cap |
| `Watcher.FlushReproducesExactly` | agents/workspace-agent/src/workspace-corpus-watcher.ts:241-269 | the jobs of one reconcile reproduce the new tree under that same condition and no other |
| `Watcher.RepeatedCreationIsDropped` | agents/workspace-agent/src/workspace-corpus-watcher.ts:259-259 | a second creation with the same content yields no job |
| `Restarts.AppServerClient.ScheduleRestart` | agents/workspace-agent/src/index.ts:505-530 | new state and armed timer, with the pruning loop |
| `Restarts.AppServerClient.Close` | agents/workspace-agent/src/index.ts:475-496 | new state and effect for a closed process |
| `Restarts.RunKeeps` | agents/workspace-agent/src/index.ts:266-530 | every timely run keeps: restarts spaced, kept timestamps the recent end of all restarts, at most one timer |
| `Restarts.SpacedMeansBudget` | agents/workspace-agent/src/index.ts:508-517 | spaced restarts put at most maxRestarts into any window, wherever it begins |
| `Restarts.DelayWithinBounds` | agents/workspace-agent/src/index.ts:521-524 | every delay lies between the initial and the maximum delay |
| `Restarts.RestartBudget` | agents/workspace-agent/src/index.ts:266-530 | between manual starts from the failed state every window of windowMs holds at most maxRestarts scheduled restarts, at most one timer is armed, every delay is within bounds |
| `Credentials.CredentialAuthority.PruneNonces` | packages/authz/src/index.ts:185-186 | the pruning loop removes exactly the expired nonces |
| `Credentials.CredentialAuthority.VerifyCall` | packages/authz/src/index.ts:131-209 | new state and answer in every branch |
| `Credentials.CredentialAuthority.RevokeCredential` | packages/authz/src/index.ts:127-129 | the credential is revoked, nothing else changes |
| `Credentials.RunKeeps` | packages/authz/src/index.ts:91-209 | every timely run of issue, revoke and verify keeps: each accepted pair is still in the table or its token has expired, and lifetimes stay within the maximum |
| `Credentials.AcceptedAtMostOnce` | packages/authz/src/index.ts:160-209 | over every run with a clock that does not go back no (credential, nonce) pair is accepted twice |
| `Credentials.ReplayExactly` | packages/authz/src/index.ts:185-189 | a call that passes the other checks is refused as a replay if and only if its pair was accepted before |
| `Credentials.NothingOutlivesMaximum` | packages/authz/src/index.ts:98-113 | nothing is accepted beyond the maximum lifetime of its credential |
| `Credentials.NothingAfterRevocation` | packages/authz/src/index.ts:162-169 | nothing is accepted after revocation, in any later state of any run |
| `Exclusion.ExcludedPackages` | scripts/public-release-lib.ts:527-546 | the loop terminates with the least set that holds every platform-specific package and is closed under "has parents and all are excluded" |
| `Exclusion.OrderDoesNotMatter` | scripts/public-release-lib.ts:533-546 | the result does not depend on the order of packages |
| `Exclusion.SurvivorsAreGreatest` | scripts/public-release-lib.ts:527-546 | survivors are the greatest set whose members are not platform-specific and are parentless or have a surviving parent |
| `Exclusion.ReachableFromRootSurvives` | scripts/public-release-lib.ts:533-546 | a package reached from a parentless one through packages that are not platform-specific survives |

## Left out

- SQL text, connections, advisory locks, row-level security and schema parsing: transactions are taken as atomic, integers as unbounded, one billing scope and one corpus scope at a time.
- SHA-256 identifiers, fingerprints and job keys: modelled as injective encodings of what they digest; HMAC signatures and proofs as facts about a call.
- Lot and reservation columns that no rule reads (run, operation and webhook references, consumption policy version), the ledger's own entry id and sequence, and the catalog lookup, whose result is an input.
- `LedgerRuns.ReportsAgree`: provider and infrastructure cost columns of the projection are sums over another table and are not modelled.
- `Convergence.DeliveriesConverge`: leaves out reversals that name a lot instead of a payment reference, which cannot come before their lot, and purchases whose idempotency key looks like the placeholder key of another reference; it assumes one currency per payment reference and one meaning per idempotency key, and starting books whose lots fit that. The original amounts, first key and occurrence time of a lot are not claimed to converge; its expiry has its own theorem.
- Redelivery of a grant or of a purchase without a payment reference: it meets the primary key and is rolled back, which is part of the model (`UniqueViolation`), not of the convergence claim.
- `CreditRepository.Repository.CreateCreditLot`: the row returned by its unordered single-row query is an input, so the claims hold for whichever row the database picks.
- Webhook claiming, retry timing and recovery, price catalogs, burn-rate alerts and the role table.
- `Admission.RunsKeepLimits`: assumes one plan throughout; a changing plan can leave more turns open than the new limit.
- `Admission.PositiveAnswerHasLiveLease`: takes the transactions of a call as one step; `AdmissionCalls.LiveBehindPositiveAnswer` is the general form.
- `Admission.OrphanedLeaseExactly`: takes the transactions of a call as one step; `AdmissionCalls.LeftBehindExactly` is the general form.
- `Admission.AdmitKeepsLimits`: takes the transactions of a call as one step; `AdmissionCalls.CallKeepsLimits` is the general form.
- Workspace paths and their rename, storage cleanup rows, tombstones, audit rows, watch-job rows and citation reads of the corpus repository; the local in-memory registry.
- `CorpusStore.Store.ClaimNext`: which of several claimable jobs is returned is an input, because locked rows are skipped; claims hold for every choice.
- Superseded revisions may still be completed by the worker that holds their lease; the claims say they are never current and never returned.
- Ranking, embeddings and full-text search: a fetch returns any ranked list of retrievable chunks.
- `SearchPages.WalkIsTheRanking`: assumes the same ranking on every page, although the candidate limit depends on the offset, and a page size of at least one, as the request contract demands.
- Cursor base64 and JSON encoding: a cursor is the record it carries. The size of a serialised page, the token count of a chunk and the clock readings of cache reads and writes are inputs.
- Chunker: decoding, splitting into lines, the parser timeout and the PDF path; lines are the input, as UTF-16 units.
- `BoundedTail.AppendTailIsLongestSuffix`: stated for well-formed text; strings that already hold lone surrogates are modelled but not claimed about. Malformed bytes, which trimming never leaves, decode byte by byte instead of by maximal subparts.
- Timeline payloads other than text and output, redaction and canonical JSON.
- `Watcher.DiffKeysDistinct`: assumes paths without NUL, which file systems guarantee.
- `Watcher.BacklogExactly`: assumes paths without NUL that are not ignored, which is how snapshots are taken.
- `Watcher.FlushReproducesExactly`: the sort by locale is modelled as a sort by code point; with another order the condition reads the same over that order.
- `Restarts.RestartBudget`: process spawning and the asynchronous launch are not modelled step by step; launches, exits, closes, failures and health changes may happen in any order, which includes a child that has exited and not yet closed and covers more runs than the original has.
- Reading package manifests: the exclusion closure starts from the package graph.
