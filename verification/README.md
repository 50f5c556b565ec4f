# Verified model of the grosh transaction pipeline

A Dafny model of the four places where grosh keeps state that must not drift: the effective-dated
currency-rate store and the conversions priced from it, transfer detection in the enrichment step, the
reprocess / staging protocol, and keyset pagination; with the backfill loop and the bulk reprocess trigger
beside them. `dafny verify dfyconfig.toml` checks everything.

Tables are maps from id to row, timestamps are integer microseconds, amounts are integer cents, rates are
exact reals, UUIDs are natural numbers compared by equality and order. What the services update in place is a
class whose methods are proved against a function of the old tables; theorems about runs are then proved of
those functions.

| file | subject |
|---|---|
| `Common.dfy`, `Domain.dfy` | options, sort keys, stored rows, normalized events and the projection between them |
| `RateTable.dfy`, `RateHistory.dfy`, `RateStore.dfy` | rate rows; what the two row sequences of a pair mean as logs; the writer, and the readers against the logs |
| `Backfill.dfy` | the backward statement-window loop |
| `SourceChain.dfy`, `RatePath.dfy`, `ClosestRate.dfy` | fallback chain; path search as a least-element search; the closest-rate query against everything ever recorded |
| `Conversion.dfy`, `StoredAmounts.dfy` | conversion arithmetic, and its results on the stored row |
| `Descriptions.dfy`, `Decision.dfy`, `Enrichment.dfy` | phrases; evidence and the bucket-locked decision; the enrichment step in place |
| `TransferRuns.dfy`, `ArrivalOrder.dfy`, `ManyLegs.dfy` | whole runs: matching, idempotence, metadata, arrival order of two legs and of many |
| `Replay.dfy`, `SharedReplay.dfy`, `PartialReplay.dfy` | the reprocess fixpoint, a replay among other traffic, a replay cut short |
| `ReprocessJob.dfy`, `PipelineProtocol.dfy`, `ProtocolProgress.dfy` | the job, drain and router in place; their interleavings with crashes, what they keep and how they come to an end |
| `BulkTrigger.dfy` | the trigger loop |
| `Pagination.dfy` | cursor, page and walk |

How the pieces join: `ReprocessUser` runs the job on the very tables that `EnrichmentStore.Run` updates and
is proved to give the user what `Replay.Reprocess` gives, whatever repeats and other users' messages the
consumer takes in between; `Replay` proves that function a fixpoint; `PipelineProtocol` abstracts the same steps
to ids and proves what survives every interleaving and crash.

Where the code parts from its documentation, or does more or less than one might expect:

- The header of the rate repository promises one polled row per valid_from. Two polls at one instant with
  different rates break it; `RateHistory.PolledStartsDistinctIff` says for which logs it holds, in any order.
- Nothing orders poll times: they are the bank's own dates
  (services/ingestion/src/grosh_ingestion/sources/monobank/rates_provider.py:39). A backward poll can leave two
  polled rows covering one instant; `RateStore.PolledCoverUniqueIff` says exactly when it does.
- The two-clause amount predicate of candidate search is not symmetric when one leg has no operation amount;
  `ArrivalOrder.ArrivalOrderIrrelevantIff` says exactly when arrival order then shows in the tables. No such
  event leaves the Monobank normalizer, which always sets the operation amount
  (services/normalization/src/grosh_normalization/sources/monobank/normalizer.py:56).
- `find_closest_rate` is asked for the reverse direction only if the direct one has nothing within seven days, so
  a distant direct rate beats a reverse one at the very instant (`RatePath.ClosestLegIsBest`).
- A backfill misses the second `from` when the span is a multiple of the chunk length plus one.
- Snapshot, read and delete of a reprocess are three statements. A row inserted between them can be lost, with
  every lock in place; `PipelineProtocol.NothingIsLostIff` says exactly when nothing is.
- The router's docstring says that one transaction keeps events from leaking past the staging buffer. It takes no
  lock row, so a job may start between its check and its publish, and the row can then be lost
  (`PipelineProtocol.RouterLeakLosesRow`). `PublishGuardSuffices` says what router and drains must keep to for
  nothing to be lost, and `NothingIsLostIff` what exactly has to hold at each delete.
- A row of the user that the snapshot lacks can make up the catch-up count and fail a run whose rows were still to
  come (`PartialReplay.ExtraRowFailsRun`); `ReprocessUser` says exactly when a run completes.
- A restore keeps rows that the consumer had already replayed. It leaves one-sided links exactly when a pair had
  come back by half (`ReprocessJob.RestoreKeepsMatchingIff`); the next reprocess repairs them
  (`PartialReplay.ReprocessRepairs`).
- The transfer flags are on examined rows only, so not on zero-direction wire transfers
  (`TransferRuns.RunsKeepBlocksOk`).

## Model

| member | source | states |
|---|---|---|
| `RateStore.CurrencyRateRepo.UpsertPolled` | services/ingestion/src/grosh_ingestion/repositories/currency_rate_repo.py:24-112 | A poll appends to the observation log, touches only polled rows of its pair, and the polled rows remain the run-length form of the whole log |
| `RateStore.CurrencyRateRepo.UpsertHistorical` | services/ingestion/src/grosh_ingestion/repositories/currency_rate_repo.py:114-338 | A publication is always written (the "invariant violated" error is unreachable), touches only historical rows of its pair, and those rows remain the interval form of the map time → last rates published |
| `RateStore.CurrencyRateRepo.SlotIn` | services/ingestion/src/grosh_ingestion/repositories/currency_rate_repo.py:156-248 | Overwrite, split or extend: whichever branch is taken, a table that tiles `pub` tiles `pub[atTime := rates]` afterwards |
| `RateStore.CurrencyRateRepo.Prepend` | services/ingestion/src/grosh_ingestion/repositories/currency_rate_repo.py:250-338 | A time before the whole history takes the interval up to the earliest stored start; no orphan row can exist when there is none |
| `RateStore.Splits` | services/ingestion/src/grosh_ingestion/repositories/currency_rate_repo.py:197-248 | Shrinking the covering row and giving its tail to the new row keeps every interval ending exactly where the next one starts |
| `RateStore.Overwrites` | services/ingestion/src/grosh_ingestion/repositories/currency_rate_repo.py:177-195 | A second publication at a stored time replaces the rates and no boundary |
| `RateStore.Prepends` | services/ingestion/src/grosh_ingestion/repositories/currency_rate_repo.py:250-338 | A new earliest row, bounded by the next start or open, keeps the tiling |
| `RateStore.NoOrphans` | services/ingestion/src/grosh_ingestion/repositories/currency_rate_repo.py:296-316 | If no row lies at, around or after t, the pair has no historical row at all: the guard before the error can never fire |
| `RateStore.OpenRowIsLast` | services/ingestion/src/grosh_ingestion/repositories/currency_rate_repo.py:48-66 | The row fetched as open is the last run of the log, and there is never a second open one |
| `RateStore.PollBumpsOpenRow` | services/ingestion/src/grosh_ingestion/repositories/currency_rate_repo.py:68-86 | A poll with equal rates moves last_polled_at and nothing else; the rows are the runs of the longer log |
| `RateStore.PollOpensRow` | services/ingestion/src/grosh_ingestion/repositories/currency_rate_repo.py:88-112 | A poll with new rates closes the open run at its own time and opens the next; the rows are the runs of the longer log |
| `RateStore.PolledCoverUnique` | services/ingestion/src/grosh_ingestion/repositories/currency_rate_repo.py:48-112 | With poll times that do not run backwards, at most one polled row covers any time |
| `RateStore.HistoricalOrderIndependence` | services/ingestion/src/grosh_ingestion/repositories/currency_rate_repo.py:144-338 | Two stores whose publications are permutations of each other, with distinct times per pair, hold the same historical rows, whatever polled writes were interleaved |
| `RateStore.FindFreshRateRefinesLog` | services/enrichment/src/grosh_enrichment/repositories/currency_rate_repo.py:72-105 | With the poll times of the pair in order: the fresh lookup answers with the rate of the latest observation at or before t exactly when the last poll of its unbroken run plus tolerance × cadence reaches t, and with nothing otherwise |
| `RateStore.GetHistoricalRateRefinesMap` | services/api/src/grosh_api/repositories/rate_repo.py:131-161 | Whatever the polls, the historical read at t is the publication with the greatest time at or before t, and nothing if there is none |
| `RateStore.GetPolledRateRefinesLog` | services/api/src/grosh_api/repositories/rate_repo.py:131-161 | With the poll times of the pair in order, the polled read at t is exactly one row, with the rates of the latest observation at or before t, and nothing before the first |
| `RateStore.PolledCoverUniqueIff` | services/ingestion/src/grosh_ingestion/repositories/currency_rate_repo.py:48-112 | For polls in any order: at most one polled row covers each time iff no later run starts before the end of an earlier one that ends after it starts |
| `RateHistory.BackwardPollOverlaps` | services/ingestion/src/grosh_ingestion/repositories/currency_rate_repo.py:88-112 | Concrete failure: polls at 1, 5 and 3 with new rates each leave two rows covering 4 |
| `RateStore.PolledStartsUntiedIff` | services/enrichment/src/grosh_enrichment/repositories/currency_rate_repo.py:83-97 | For polls in any order: no two polled rows of a pair start together, so that the fresh lookup is untied, iff no two observations that changed the rates carry the same time |
| `RateHistory.BackwardPollTies` | services/enrichment/src/grosh_enrichment/repositories/currency_rate_repo.py:83-97 | Concrete failure: polls at 5, 7 and 5 with new rates each leave two rows from 5, both fresh at 6 |
| `RateHistory.HistoricalReadIsFloor` | services/api/src/grosh_api/repositories/rate_repo.py:142-150 | The read at t finds a historical row iff something was published at or before t, and it is that of the greatest such time |
| `RateHistory.HistoricalRowAt` | services/api/src/grosh_api/repositories/rate_repo.py:142-150 | A historical row is read at t iff it is the greatest publication at or before t |
| `RateHistory.TilesAreCanonical` | services/ingestion/src/grosh_ingestion/repositories/currency_rate_repo.py:144-338 | The published map determines the historical rows: two tables tiling it hold the same rows |
| `RateHistory.PublicationOrderIrrelevant` | services/ingestion/src/grosh_ingestion/repositories/currency_rate_repo.py:144-156 | Permuting publications with distinct times does not change the map they define |
| `RateHistory.UncoveredPrecedesAll` | services/ingestion/src/grosh_ingestion/repositories/currency_rate_repo.py:250-268 | A time no stored interval spans precedes every publication, which is why the third case prepends |
| `RateHistory.RunsAbut` | services/ingestion/src/grosh_ingestion/repositories/currency_rate_repo.py:48-112 | For any poll times: closed runs end where the next begins, neighbouring runs differ in rates, only the last is open and it carries the latest rates |
| `RateHistory.RunsOrdered` | services/ingestion/src/grosh_ingestion/repositories/currency_rate_repo.py:48-112 | For non-decreasing poll times: valid_from ≤ last_polled_at ≤ valid_to in every run |
| `RateHistory.CoveringRun` | services/enrichment/src/grosh_enrichment/repositories/currency_rate_repo.py:83-95 | With poll times in order, exactly one run covers t: that of the latest observation at or before t, last confirmed at the end of the unbroken stretch of equal rates |
| `RateHistory.FreshRowMatchesLog` | services/enrichment/src/grosh_enrichment/repositories/currency_rate_repo.py:72-105 | With poll times in order, the freshness test on compressed rows gives the verdict of the uncompressed log |
| `RateHistory.NothingFreshBeforeFirstPoll` | services/enrichment/src/grosh_enrichment/repositories/currency_rate_repo.py:83-95 | With poll times in order, nothing is fresh before the first poll |
| `RateHistory.PolledStartsStayDistinctIff` | services/ingestion/src/grosh_ingestion/repositories/currency_rate_repo.py:9-14 | For any poll time: the promise that polled rows of a pair have distinct valid_from survives a poll iff it repeats the open rates or no row of the pair starts at its time |
| `RateHistory.PolledStartsDistinctIff` | services/ingestion/src/grosh_ingestion/repositories/currency_rate_repo.py:9-14 | Over a whole log, in any order: the promise holds iff no two observations that changed the rates carry the same time |
| `RateHistory.SameInstantPollsShareStart` | services/ingestion/src/grosh_ingestion/repositories/currency_rate_repo.py:9-14 | Concrete failure: two polls at one instant with different rates |
| `Backfill.MonobankBackfillProvider.RunBackfill` | services/ingestion/src/grosh_ingestion/sources/monobank/backfill.py:56-128 | Requests are a prefix of the descending windows, cut at the first API error; everything fetched before is produced; "out of bounds" ends quietly, an authorization error puts the integration in error |
| `Backfill.WindowsDescendAndAbut` | services/ingestion/src/grosh_ingestion/sources/monobank/backfill.py:56-119 | Windows are disjoint, descending, contiguous by second, inside the range and at most the chunk long |
| `Backfill.WindowCount` | services/ingestion/src/grosh_ingestion/sources/monobank/backfill.py:56-119 | Exactly ceil((to − from) / (chunk + 1)) requests |
| `Backfill.CoverageIff` | services/ingestion/src/grosh_ingestion/sources/monobank/backfill.py:56-119 | A second in [from, to] is covered unless it is `from` and the span is a multiple of chunk + 1 |
| `SourceChain.ChainErrorIff` | services/enrichment/src/grosh_enrichment/repositories/currency_rate_repo.py:194-248 | A configuration is rejected iff the tenth source on the way from the entry still names a fallback |
| `SourceChain.CyclicConfigRejected` | services/enrichment/src/grosh_enrichment/repositories/currency_rate_repo.py:194-248 | Every configuration whose walk from the entry revisits a source is rejected |
| `SourceChain.AcceptedChainIsSimple` | services/enrichment/src/grosh_enrichment/repositories/currency_rate_repo.py:194-248 | An accepted chain has no repeated source, follows the fallback links, ends where they end, and carries each source's configured base currencies |
| `Conversion.PivotIffReached` | services/enrichment/src/grosh_enrichment/services/currency_conversion_service.py:356-365 | A currency is a pivot iff some source reached from the entry lists it among its base currencies |
| `Conversion.PivotPriority` | services/enrichment/src/grosh_enrichment/services/currency_conversion_service.py:356-365 | Pivots rank by the first source that lists them, then by their place in its list |
| `RatePath.ProximityIsDistance` | services/enrichment/src/grosh_enrichment/repositories/currency_rate_repo.py:107-192 | The ranking distance is that to the nearest instant at which the row was confirmed live |
| `RatePath.FindFresh` | services/enrichment/src/grosh_enrichment/repositories/currency_rate_repo.py:72-105 | Nothing iff no row is fresh; otherwise one with the latest start, the least id standing for the database's choice on a tie |
| `RatePath.FreshIff` | services/enrichment/src/grosh_enrichment/repositories/currency_rate_repo.py:83-95 | Fresh iff the interval covers the transaction and was polled at most two cadences before it |
| `RatePath.EpochSecondsIsNearest` | services/enrichment/src/grosh_enrichment/repositories/currency_rate_repo.py:174 | The distance shown is the nearest whole second |
| `RatePath.FindClosest` | services/enrichment/src/grosh_enrichment/repositories/currency_rate_repo.py:107-192 | Nothing iff no row of the chain is within seven days; otherwise least by distance, chain position, polled before historical, id |
| `RatePath.FreshLegIsBest` | services/enrichment/src/grosh_enrichment/services/currency_conversion_service.py:210-260 | The loop over sources and directions finds nothing iff no fresh row exists, otherwise the least by chain position, then direct before reverse |
| `RatePath.ClosestLegIsBest` | services/enrichment/src/grosh_enrichment/services/currency_conversion_service.py:262-304 | Nothing iff neither direction has a close row; otherwise the least by: direct before reverse, then distance, chain position, polled before historical, id. Any direct row within seven days beats every reverse one |
| `ClosestRate.NothingRecordedIsCloser` | services/enrichment/src/grosh_enrichment/repositories/currency_rate_repo.py:107-192 | No publication, and with poll times in order no observation, of any source of the chain lies nearer to the transaction than the row returned; when none is returned, none lies within seven days |
| `ClosestRate.ClosestWasRecorded` | services/enrichment/src/grosh_enrichment/repositories/currency_rate_repo.py:107-192 | The row returned carries rates published at its start, or observed at both ends of its live interval, by a source of the chain |
| `RatePath.ResolveLegIsBest` | services/enrichment/src/grosh_enrichment/services/currency_conversion_service.py:210-304 | Either tier: no admissible leg, or the least-ranked one |
| `RatePath.ThroughPivotsIsBest` | services/enrichment/src/grosh_enrichment/services/currency_conversion_service.py:175-208 | From any pivot on, the loop returns the least two-hop route at the tier, or there is none |
| `RatePath.AtTierIsBest` | services/enrichment/src/grosh_enrichment/services/currency_conversion_service.py:175-208 | One tier: none, or the least of all one-hop and pivoted two-hop routes |
| `RatePath.ResolveRouteIsBest` | services/enrichment/src/grosh_enrichment/services/currency_conversion_service.py:175-208 | Sound, complete and least: nothing iff no route exists at either tier; otherwise an admissible route least in (tier, hops, pivot, leg ranks) |
| `Conversion.Apply` | services/enrichment/src/grosh_enrichment/services/currency_conversion_service.py:94-120 | The loop over steps is the composed application of the path |
| `Conversion.EffectiveRate` | services/enrichment/src/grosh_enrichment/services/currency_conversion_service.py:110-115 | The recorded effective rate is the factor by which the path multiplies every amount |
| `Conversion.ApplyIsLinear` | services/enrichment/src/grosh_enrichment/services/currency_conversion_service.py:94-120 | apply(amount) = amount × apply(1) |
| `Conversion.RoundingError` | services/enrichment/src/grosh_enrichment/services/currency_conversion_service.py:165-166 | Half-up rounding moves a value by at most one half and keeps non-negative values non-negative |
| `Conversion.RoundingMonotone` | services/enrichment/src/grosh_enrichment/services/currency_conversion_service.py:165-166 | Rounding preserves order |
| `Conversion.TiesGoAwayFromZero` | services/enrichment/src/grosh_enrichment/services/currency_conversion_service.py:165-166 | Half a cent rounds away from zero, and rounding is odd |
| `Conversion.EntryIsRateSource` | services/enrichment/src/grosh_enrichment/services/currency_conversion_service.py:139-140 | An event that names a rate source is priced there, any other at its own source |
| `Conversion.LowerIsLowerCase` | services/enrichment/src/grosh_enrichment/services/currency_conversion_service.py:167 | Rate metadata is filed under the lower-case currency code |
| `Conversion.OrderedPivots` | services/enrichment/src/grosh_enrichment/services/currency_conversion_service.py:356-365 | The loop with its seen-set computes the first-occurrence order of all base currencies along the chain |
| `Conversion.FirstSeenIsDistinct` | services/enrichment/src/grosh_enrichment/services/currency_conversion_service.py:356-365 | Pivots are exactly the base currencies, each once |
| `Conversion.FirstSeenOrder` | services/enrichment/src/grosh_enrichment/services/currency_conversion_service.py:356-365 | A pivot ranks before another only if its first mention along the chain precedes every mention of the other |
| `Conversion.Convert` | services/enrichment/src/grosh_enrichment/services/currency_conversion_service.py:127-173 | The loop over display currencies agrees with converting each on its own, and fails on a rejected chain or a zero divisor |
| `Conversion.PathIsConnected` | services/enrichment/src/grosh_enrichment/services/currency_conversion_service.py:175-208 | A resolved path leads from source to target, its legs meet at a pivot, all are of one tier, each is priced on the liquidation side of a stored row for its pair, or for the swapped pair if it divides, and shows that row's distance |
| `Conversion.PickIsLeastFavourable` | services/enrichment/src/grosh_enrichment/services/currency_conversion_service.py:312-325 | Of all the rates on a row, the one picked is the least favourable in its direction, and it carries the label of the side it came from |
| `Conversion.NeverAboveMid` | services/enrichment/src/grosh_enrichment/services/currency_conversion_service.py:312-325 | With buy ≤ mid ≤ sell, any path pays at most what its mid rates pay |
| `Conversion.ConversionNeverOverstates` | services/enrichment/src/grosh_enrichment/services/currency_conversion_service.py:127-173 | The converted cents of a resolved path never exceed the cents at mid |
| `Conversion.ConversionMonotone` | services/enrichment/src/grosh_enrichment/services/currency_conversion_service.py:127-173 | A larger amount never converts to fewer cents |
| `StoredAmounts.ConvertToMeans` | services/enrichment/src/grosh_enrichment/services/currency_conversion_service.py:127-173 | Each display amount is the amount itself in its own currency, absent iff there is no route, and otherwise the rounded value of the least path |
| `StoredAmounts.MetadataExplainsAmounts` | services/enrichment/src/grosh_enrichment/services/currency_conversion_service.py:368-389 | Rate metadata is recorded for exactly the converted currencies, and explains each amount: a connected path of one quality, its worst distance and sides, and an effective rate that reproduces the cents |
| `StoredAmounts.FreshRowAmounts` | services/enrichment/src/grosh_enrichment/repositories/transaction_repo.py:15-74 | The display amounts and the rate metadata a step stores on a new row are those of the conversion |
| `StoredAmounts.StoredAmountsNeverOverstate` | services/enrichment/src/grosh_enrichment/services/enrichment_orchestrator.py:58-93 | End to end, from rate table to stored row: stored UAH, USD and EUR amounts never exceed what mid rates give |
| `Decision.DecideIsJudge` | services/enrichment/src/grosh_enrichment/sources/monobank/transfer/decision.py:59-287 | The decision on the fetched list is a function of the set of candidates |
| `Decision.DecideIgnoresFetchOrder` | services/enrichment/src/grosh_enrichment/sources/monobank/transfer/decision.py:82-106 | Any permutation of the candidates gives the same claim, or the same anomaly up to candidate-id order |
| `Decision.DecideClaimsIff` | services/enrichment/src/grosh_enrichment/sources/monobank/transfer/decision.py:82-287 | A claim is made iff there is one candidate, or exactly one description-consistent member of the highest non-empty bucket; the partner lies in that bucket; a canary arises only with a single, inconsistent candidate |
| `Decision.SelectBucketMembers` | services/enrichment/src/grosh_enrichment/sources/monobank/transfer/decision.py:242-256 | The locked bucket is the highest non-empty level and holds all of its candidates |
| `Decision.EvidenceCountsHonestLegs` | services/enrichment/src/grosh_enrichment/sources/monobank/transfer/iban_classifier.py:29-127 | The filter leaves no contradicted claim, so a survivor's evidence level is the number of legs whose IBAN is to be believed |
| `Decision.FlagsMean` | services/enrichment/src/grosh_enrichment/sources/monobank/transfer/flags.py:85-131 | A row's flags in terms of the phrases and the registered IBANs: matched, multi-hop, and which of the four IBAN statuses |
| `Decision.PointsAtRegistered` | services/enrichment/src/grosh_enrichment/sources/monobank/transfer/iban_classifier.py:113-127 | A leg points at another iff its IBAN is linked by the user and registered for the other's account |
| `Decision.DroppedIff` | services/enrichment/src/grosh_enrichment/sources/monobank/transfer/iban_classifier.py:29-70 | A candidate is dropped iff its IBAN leads outside or a believed IBAN of either leg is registered for a third account |
| `Decision.ConsistentIffNamed` | services/enrichment/src/grosh_enrichment/sources/monobank/transfer/decision.py:290-343 | Descriptions agree iff each known phrase names the type and currency of the other leg's account, whichever leg is the income |
| `Decision.MismatchTellsSides` | services/enrichment/src/grosh_enrichment/sources/monobank/transfer/decision.py:259-287 | A mismatch report gives the income's description and account as the income's, and the expense's as the expense's |
| `Descriptions.MultiHopIff` | services/enrichment/src/grosh_enrichment/sources/monobank/descriptions.py:113-127 | A known phrase is multi-hop iff the marker occurs somewhere in it |
| `Descriptions.TransferPhraseIff` | services/enrichment/src/grosh_enrichment/sources/monobank/descriptions.py:98-110 | Texts that speak of a transfer: the two prefixes and the one phrase without a direction |
| `Enrichment.EnrichmentStore.FindUniversalCandidates` | services/enrichment/src/grosh_enrichment/sources/monobank/transfer/repo.py:75-152 | The loop returns exactly the rows meeting the WHERE clause, each once, in no promised order |
| `Enrichment.EnrichmentStore.BatchResolveIbans` | services/enrichment/src/grosh_enrichment/sources/monobank/transfer/detector.py:198-211 | Exactly the given IBANs that belong to a linked account of the user, with their accounts |
| `Enrichment.EnrichmentStore.FilterAndClassify` | services/enrichment/src/grosh_enrichment/sources/monobank/transfer/detector.py:147-196 | Resolving only the IBANs at hand loses nothing: the scored list is the consistent candidates with the evidence that all of the user's IBANs would give |
| `Enrichment.LookupSuffices` | services/enrichment/src/grosh_enrichment/sources/monobank/transfer/iban_classifier.py:29-127 | Consistency and evidence depend only on how the two legs' own IBANs resolve |
| `Enrichment.EnrichmentStore.DeleteUnpairedAnomalies` | services/enrichment/src/grosh_enrichment/repositories/anomaly_repo.py:44-66 | Of the given transactions only unpaired_* anomalies go; all others stay |
| `Enrichment.EnrichmentStore.HandleUnlinked` | services/enrichment/src/grosh_enrichment/sources/monobank/transfer/detector.py:227-259 | An IBAN leading outside never pairs; an unknown transfer phrase is reported by its prefix |
| `Enrichment.EnrichmentStore.ApplyDecision` | services/enrichment/src/grosh_enrichment/sources/monobank/transfer/detector.py:261-308 | A claim links the partner and clears unpaired anomalies of both legs, anything else leaves the tables alone; result and records match the decision |
| `Enrichment.EnrichmentStore.DetectAndPair` | services/enrichment/src/grosh_enrichment/sources/monobank/transfer/detector.py:80-145 | The in-place detection computes the set-based detection and leaves the tables as it says |
| `Enrichment.EnrichmentStore.Run` | services/enrichment/src/grosh_enrichment/services/enrichment_orchestrator.py:58-107 | One whole step in place equals the specification step on both tables |
| `Enrichment.PartnerIsCandidate` | services/enrichment/src/grosh_enrichment/sources/monobank/transfer/detector.py:80-145 | A detected partner is a stored, unclaimed, eligible and consistent row, and a pair never comes with an unpaired anomaly |
| `Enrichment.MetadataIff` | services/enrichment/src/grosh_enrichment/services/enrichment_orchestrator.py:109-146 | A row has metadata iff its event had, rates were used or it was examined, and a layer iff one of the last two; each contribution stands under its own key |
| `Enrichment.ManualIffEntered` | services/enrichment/src/grosh_enrichment/repositories/transaction_repo.py:15-74 | The origin is manual iff the source is |
| `Enrichment.CurrencyIsAccounts` | services/enrichment/src/grosh_enrichment/repositories/transaction_repo.py:15-74 | The currency stored is the account's |
| `TransferRuns.DetectedLegsMatch` | services/enrichment/src/grosh_enrichment/sources/monobank/transfer/repo.py:107-139 | A detected pair shares the user, differs in account, opposes in direction, both wire transfers, within two seconds, with amounts that agree and equal pair blocks |
| `Enrichment.AmountMatchesIff` | services/enrichment/src/grosh_enrichment/sources/monobank/transfer/repo.py:125-128 | Amounts match iff one leg's operation amount is the other's amount, or the incoming leg has none and the amounts are equal |
| `TransferRuns.OtherReportsStay` | services/enrichment/src/grosh_enrichment/repositories/anomaly_repo.py:44-66 | A step removes no report but of an unpaired leg, and that only of the two legs it links |
| `TransferRuns.EnrichKeepsMatching` | services/enrichment/src/grosh_enrichment/sources/monobank/transfer/detector.py:261-308 | Each step keeps: links symmetric, irreflexive and between matching legs, whose amounts agree; transfer category iff linked |
| `TransferRuns.EnrichKeepsAnomaliesOk` | services/enrichment/src/grosh_enrichment/repositories/anomaly_repo.py:28-66 | Each step keeps: every anomaly on a stored row, none unpaired on a linked row |
| `TransferRuns.RunsStayCoherent` | services/enrichment/src/grosh_enrichment/services/enrichment_orchestrator.py:58-93 | Both invariants hold after every sequence of events |
| `TransferRuns.FirstDeliveryRecordsAnomaly` | services/enrichment/src/grosh_enrichment/repositories/anomaly_repo.py:28-42 | On first delivery the conflict clause never drops the step's record |
| `TransferRuns.FreshBlockIffExamined` | services/enrichment/src/grosh_enrichment/sources/monobank/transfer/detector.py:89-97 | A freshly stored row has a transfer block iff its event was examined: Monobank, wire transfer, a direction, first delivery |
| `TransferRuns.RunsKeepBlocksOk` | services/enrichment/src/grosh_enrichment/services/enrichment_orchestrator.py:109-146 | After every sequence of events the block's flags are on exactly the examined rows and its pair evidence on exactly the linked ones |
| `TransferRuns.RedeliveryChangesNothing` | services/enrichment/src/grosh_enrichment/sources/monobank/transfer/detector.py:89-97 | An event whose id is stored changes neither table, for every MCC and direction |
| `TransferRuns.AtLeastOnceIsExactlyOnce` | services/enrichment/src/grosh_enrichment/consumers/enrichment_consumer.py:20-89 | Any sequence with repeats gives the tables of the sequence with later deliveries removed |
| `ArrivalOrder.AmountMatchesIsSymmetricIff` | services/enrichment/src/grosh_enrichment/sources/monobank/transfer/repo.py:102-129 | The amount predicate is symmetric iff not (one leg lacks an operation amount, amounts are equal, and the other leg's operation amount differs) |
| `ArrivalOrder.MissingOperationAmountBreaksSymmetry` | services/enrichment/src/grosh_enrichment/sources/monobank/transfer/repo.py:102-129 | A family of legs on which it is not |
| `ArrivalOrder.FindsIsSymmetric` | services/enrichment/src/grosh_enrichment/sources/monobank/transfer/iban_classifier.py:29-127 | Eligibility, IBAN filter with its short-circuit, evidence, description check and mismatch report are the same seen from either leg |
| `ArrivalOrder.LoneLeg` | services/enrichment/src/grosh_enrichment/sources/monobank/transfer/detector.py:80-145 | A leg without candidates is stored unlinked with at most an unpaired anomaly, and nothing else changes |
| `ArrivalOrder.LoneLegReportedIff` | services/enrichment/src/grosh_enrichment/sources/monobank/transfer/decision.py:109-132 | Such a leg is reported iff its description carries a direction prefix, unless its IBAN leads outside and the phrase is known; the prefix decides the reason |
| `ArrivalOrder.ArrivalOrderIrrelevant` | services/enrichment/src/grosh_enrichment/services/enrichment_orchestrator.py:58-107 | Two Monobank legs with symmetric amounts and no other candidate: both delivery orders end in the same rows, links, metadata and anomalies, up to which leg owns a canary |
| `ArrivalOrder.ArrivalOrderIrrelevantIff` | services/enrichment/src/grosh_enrichment/sources/monobank/transfer/repo.py:102-129 | Without the amounts hypothesis: the two orders agree iff the legs would not pair for another reason, or their amounts are symmetric |
| `ArrivalOrder.OneSidedSearchDiverges` | services/enrichment/src/grosh_enrichment/sources/monobank/transfer/repo.py:102-129 | When only one leg finds the other, one order links the rows and the other leaves them apart |
| `ArrivalOrder.OrderCanMatter` | services/enrichment/src/grosh_enrichment/sources/monobank/transfer/repo.py:102-129 | Two concrete events, one without an operation amount, whose delivery orders end differently |
| `ManyLegs.AnyOrderWillDo` | services/enrichment/src/grosh_enrichment/consumers/enrichment_consumer.py:20-89 | Any number of new Monobank events without stored candidates, with symmetric amounts and each finding at most one other: every permutation ends in the same rows, links, metadata and anomalies, up to which leg of a pair owns its canary |
| `ManyLegs.RunIsDescribed` | services/enrichment/src/grosh_enrichment/consumers/enrichment_consumer.py:20-89 | Their outcome, told from the set of events: each row linked to the one event it finds or stored plain, each disagreeing pair with exactly one canary |
| `Replay.OrderedIsSorted` | services/normalization/src/grosh_normalization/repositories/transaction_read_repo.py:41-48 | The replay order lists every id once, ascending in (time, id) |
| `Replay.ReplayIsByPreservedFields` | services/normalization/src/grosh_normalization/repositories/transaction_read_repo.py:15-74 | The replayed sequence is determined by the preserved fields alone |
| `Replay.RowReplaysItsEvent` | shared/src/grosh_shared/domain/normalized.py:75-103 | Storing an event and reading the row back gives the event, with absent metadata as an empty document |
| `Replay.MissingColumnsReplay` | services/normalization/src/grosh_normalization/repositories/transaction_read_repo.py:50-73 | Columns a row lacks replay as zero, the empty text and an empty source document |
| `Replay.ClaimKeepsReplay` | services/enrichment/src/grosh_enrichment/sources/monobank/transfer/repo.py:177-203 | Claiming a row never changes what is read back from it |
| `Replay.ReplayStoresEvents` | services/enrichment/src/grosh_enrichment/services/enrichment_orchestrator.py:58-93 | Consuming a replay stores exactly its events and leaves everyone else's rows and anomalies unchanged |
| `Replay.ReprocessPreserves` | services/normalization/src/grosh_normalization/services/reprocess_orchestrator.py:73-97 | Reprocessing keeps every id and every preserved field, and other users' data |
| `Replay.ReprocessIsFixpoint` | services/normalization/src/grosh_normalization/services/reprocess_orchestrator.py:48-111 | Reprocessing the outcome of a reprocess changes nothing: ids, amounts, links, categories, metadata, anomalies |
| `Replay.ReprocessDependsOnPreservedFieldsOnly` | shared/src/grosh_shared/domain/normalized.py:75-103 | Two tables agreeing on a user's preserved fields reprocess to the same rows and anomalies for that user |
| `Replay.ReprocessRestoresCoherence` | services/normalization/src/grosh_normalization/services/reprocess_orchestrator.py:73-97 | If what is left after the delete is coherent, so is the outcome, however broken the user's own links were |
| `Replay.DeleteKeepsCoherence` | services/normalization/src/grosh_normalization/repositories/reprocess_repo.py:147-154 | Deleting all rows of one user leaves a coherent table coherent |
| `Replay.DeleteLeavesNoDanglingLink` | services/normalization/src/grosh_normalization/repositories/reprocess_repo.py:147-154 | Whatever the links were, after the delete no row links to a deleted one, and nothing else on the other rows changes |
| `Replay.DetectionIsPerUser` | services/enrichment/src/grosh_enrichment/sources/monobank/transfer/repo.py:107-139 | Detection reads no row of another user |
| `ReprocessJob.Pipeline.DrainForUser` | services/normalization/src/grosh_normalization/services/staging_drain_service.py:303-360 | However it stops, what it published is a prefix of the user's staged rows in order, deleted rows were published, and other users' rows stay; at most one row is both out and still staged |
| `ReprocessJob.SnapshotMembers` | services/normalization/src/grosh_normalization/repositories/reprocess_repo.py:104-145 | A row is in the snapshot iff it is stored and the user's |
| `ReprocessJob.Pipeline.DeleteUserTransactions` | services/normalization/src/grosh_normalization/repositories/reprocess_repo.py:147-154 | The user's rows go, their anomalies with them; links to them are cleared |
| `ReprocessJob.Pipeline.PublishNormalizedEvents` | services/normalization/src/grosh_normalization/services/reprocess_orchestrator.py:155-193 | All events in order, or those before the one that cannot be produced |
| `ReprocessJob.Pipeline.WaitForPipelineCatchup` | services/normalization/src/grosh_normalization/services/reprocess_orchestrator.py:113-145 | Returns at the first of at most 150 polls that counts enough rows, at none if nothing was published, and fails after 150 polls iff none of them did |
| `ReprocessJob.Pipeline.RestoreFromBackup` | services/normalization/src/grosh_normalization/repositories/reprocess_repo.py:212-270 | Latest backup re-inserted without touching rows already there; an error without a backup |
| `ReprocessJob.RestoreUndoesDelete` | services/normalization/src/grosh_normalization/repositories/reprocess_repo.py:212-270 | Restoring right after the delete gives back every row as it was, links included |
| `ReprocessJob.Pipeline.ReplayAndVerify` | services/normalization/src/grosh_normalization/services/reprocess_orchestrator.py:82-93 | Decided at a publish that fails, at the timeout, or at the verification: success iff every event was published, the count was reached and, one batch later, every snapshot id is stored |
| `ReprocessJob.CompletesIffAllBack` | services/normalization/src/grosh_normalization/services/reprocess_orchestrator.py:82-97 | While nothing but the snapshot's own rows comes in, a run completes iff all events were published and all rows are back by the last poll |
| `PartialReplay.ExtraRowFailsRun` | services/normalization/src/grosh_normalization/services/reprocess_orchestrator.py:113-145 | A row that the snapshot lacks can make up the count: the wait then ends early, the verification misses a row, and the run fails |
| `PartialReplay.EarlyCountCanFailRun` | services/normalization/src/grosh_normalization/services/reprocess_orchestrator.py:113-145 | A concrete run that fails so, although its row comes with the next message |
| `ReprocessJob.Pipeline.ReprocessUser` | services/normalization/src/grosh_normalization/services/reprocess_orchestrator.py:48-111 | Every crash-free run that finds its lock row ends within 150 polls with lock gone, notification sent and all snapshot ids stored, the consumer running throughout. It completes iff all events were published, some poll counts enough rows and, one batch after the first such, the whole snapshot is stored; it restores otherwise. If the first deliveries of the user among the messages consumed were the replay, the user's rows and anomalies are those of the reprocess, whatever repeats and other users' messages came in between; if it fails, the tables are coherent iff no half of a linked pair had come back |
| `ReprocessJob.RestoreKeepsMatchingIff` | services/normalization/src/grosh_normalization/repositories/reprocess_repo.py:252-264 | A restore leaves the links a matching iff each linked row of the backup that is already stored has its partner stored too; the condition is on the backup and the ids stored before |
| `ReprocessJob.FailedRunIsCoherentIff` | services/normalization/src/grosh_normalization/services/reprocess_orchestrator.py:94-105 | After a failed run, whatever was consumed in it, links and anomalies are coherent iff that condition held before the restore |
| `PartialReplay.HalfReplayBreaksPair` | services/normalization/src/grosh_normalization/repositories/reprocess_repo.py:252-264 | For every linked pair: if exactly one leg was replayed, the restore leaves the other with a link nobody returns |
| `PartialReplay.RestoreCanBreakPair` | services/normalization/src/grosh_normalization/repositories/reprocess_repo.py:252-264 | A concrete pair of transfer legs on which this happens |
| `PartialReplay.ReprocessRepairs` | services/normalization/src/grosh_normalization/services/reprocess_orchestrator.py:73-97 | Whatever a failed run left behind, a reprocess of it gives coherent links and anomalies again |
| `SharedReplay.InterleavingDoesNotShow` | services/enrichment/src/grosh_enrichment/consumers/enrichment_consumer.py:20-89 | The user's part of the tables after any interleaving of a batch with repeats and other users' messages is that of the batch alone |
| `SharedReplay.SharedReplayIsReprocess` | services/normalization/src/grosh_normalization/services/reprocess_orchestrator.py:82-93 | So a replay consumed among other traffic has the reprocess as its outcome for the user |
| `ReprocessJob.FailedRunRollsBack` | services/normalization/src/grosh_normalization/services/reprocess_orchestrator.py:94-105 | A run that fails before anything was consumed leaves the rows as they were |
| `ReprocessJob.DrainStep` | services/normalization/src/grosh_normalization/services/staging_drain_service.py:313-351 | Deleting the row just published leaves the rest of the user's selection and all other rows in order |
| `PipelineProtocol.AtMostOneCriticalJob` | services/normalization/src/grosh_normalization/repositories/reprocess_repo.py:50-63 | In every state of every run, crashes and manual interference included, at most one job is between acquiring and releasing the advisory lock |
| `PipelineProtocol.LockPresentThroughout` | services/ingestion/src/grosh_ingestion/repositories/reprocess_repo.py:15-34 | With dispatcher-started jobs only, one job at a time, and its lock row is present from submission to release |
| `PipelineProtocol.LockOutlivesJobIffDied` | services/normalization/src/grosh_normalization/repositories/reprocess_repo.py:188-210 | With dispatcher-started jobs only, the lock row is there exactly while a job is, until a job dies; from then on it stays for good, without a job |
| `ProtocolProgress.UndisturbedReprocess` | services/normalization/src/grosh_normalization/services/reprocess_orchestrator.py:48-111 | From any quiet state a triggered job, its replay consumed, leads back to the same table and a quiet state, with one more backup |
| `ProtocolProgress.JobCanStep` | services/normalization/src/grosh_normalization/services/reprocess_orchestrator.py:48-111 | A job is never stuck but while another one holds the advisory lock |
| `ProtocolProgress.JobStepAdvances` | services/normalization/src/grosh_normalization/services/reprocess_orchestrator.py:48-111 | Every step of a job ends it or brings it nearer to its end |
| `ProtocolProgress.TimeOutAfterAllPolls` | services/normalization/src/grosh_normalization/services/reprocess_orchestrator.py:130-145 | No job polls more than 150 times, and none gives up before it has |
| `ProtocolProgress.SuccessIffVerified` | services/normalization/src/grosh_normalization/services/reprocess_orchestrator.py:90-111 | A job releases with success iff it got there by a verification that found the whole snapshot; after a restore it reports failure |
| `ProtocolProgress.VerifyDecides` | services/normalization/src/grosh_normalization/services/reprocess_orchestrator.py:89-93 | The verification succeeds iff the whole snapshot is stored |
| `ProtocolProgress.FaultsLeadToRestore` | services/normalization/src/grosh_normalization/services/reprocess_orchestrator.py:82-105 | An exception after the delete and before the outcome, and only there, leads to the restore of the job's own snapshot |
| `ProtocolProgress.DrainRunsThrough` | services/normalization/src/grosh_normalization/services/staging_drain_service.py:303-360 | A drain left alone publishes its rows in order, removes exactly them and is gone |
| `ProtocolProgress.RouterFollowsLock` | services/normalization/src/grosh_normalization/consumers/normalization_consumer.py:56-87 | An undisturbed router stages iff the lock row is there, and publishes otherwise |
| `ProtocolProgress.ConsumerRunsThrough` | services/enrichment/src/grosh_enrichment/consumers/enrichment_consumer.py:20-89 | Left alone, the consumer stores everything in the topic and empties it |
| `ProtocolProgress.ClearLockFreesUser` | services/normalization/src/grosh_normalization/consumers/normalization_consumer.py:67-81 | Deleting the lock row by hand lets a job be triggered and the router publish again |
| `ProtocolProgress.ManualStartNeedsLock` | services/normalization/src/grosh_normalization/services/reprocess_orchestrator.py:60-66 | A job started without a lock row ends at once |
| `PipelineProtocol.NothingIsLostIff` | services/normalization/src/grosh_normalization/services/reprocess_orchestrator.py:60-109 | No assumption: over a whole run, whatever crashed and however router, consumer, jobs and drains interleaved, every id ever routed is always stored, on its way, held by a job whose backup is the latest one, or (after a crash) in a backup, iff before each delete every row the backup misses is on its way again. On its way: a message still to be acted on, or a staged row still to be published |
| `PipelineProtocol.InsertGuardSuffices` | services/normalization/src/grosh_normalization/services/reprocess_orchestrator.py:73-80 | That holds whenever each insert between a job's backup and its delete is of an id the backup already has; redeliveries there are harmless |
| `PipelineProtocol.PublishGuardSuffices` | services/normalization/src/grosh_normalization/consumers/normalization_consumer.py:67-81 | And it holds whenever no job takes its backup while a message of a row not yet stored is waiting, and router and drains publish, between a job's backup and its delete, only ids of that backup; in particular if the topic is empty at each backup and they publish nothing until the delete |
| `PipelineProtocol.NothingIsInvented` | services/normalization/src/grosh_normalization/services/staging_drain_service.py:313-351 | Every id held anywhere was routed at some time |
| `PipelineProtocol.QuietStateIsComplete` | services/normalization/src/grosh_normalization/services/reprocess_orchestrator.py:60-109 | With guarded deletes, topic and staging empty, no job and none having died midway, the table holds exactly the ids ever routed |
| `PipelineProtocol.DeleteLosesNothingIff` | services/normalization/src/grosh_normalization/services/reprocess_orchestrator.py:73-80 | The delete keeps everything safe iff each stored row missing from the deleting job's own backup is on its way again: an uncommitted head message or a staged row about to be removed by a drain does not count |
| `PipelineProtocol.UncommittedHeadLosesRow` | services/normalization/src/grosh_normalization/services/reprocess_orchestrator.py:73-80 | A concrete run in which the row's message is still in the topic at the delete, only waiting for its commit, and the row is lost |
| `PipelineProtocol.InsertInWindowLosesRow` | services/normalization/src/grosh_normalization/services/reprocess_orchestrator.py:73-80 | A concrete run in which an insert between read and delete loses a row although every lock was in place |
| `PipelineProtocol.RouterLeakLosesRow` | services/normalization/src/grosh_normalization/consumers/normalization_consumer.py:64-81 | The promise that the single transaction leaks nothing fails: a run in which the router checks, a job is triggered, takes its backup and reads, and only then the router publishes, on otherwise empty tables, ends with the row gone for good |
| `PipelineProtocol.StepKeepsMutex` | services/normalization/src/grosh_normalization/repositories/reprocess_repo.py:50-63 | Each step of router, consumer, job, drain, operator or crash keeps mutual exclusion |
| `PipelineProtocol.RunsAreWellFormed` | services/normalization/src/grosh_normalization/repositories/reprocess_repo.py:104-145 | In every state of every run: mutual exclusion, a job between backup and outcome finds its own backup as the latest, and drains and staging agree |
| `PipelineProtocol.StepKeepsNothingLost` | services/normalization/src/grosh_normalization/consumers/normalization_consumer.py:67-81 | Each step keeps everything safe, including a router that checked before the lock was committed, but for a delete whose guard fails |
| `PipelineProtocol.StepKeepsSafe` | services/normalization/src/grosh_normalization/services/staging_drain_service.py:313-351 | No step un-saves an id: consumed messages are stored first, drained rows are published first, two drains may race |
| `BulkTrigger.TriggerTables.TriggerBulk` | services/ingestion/src/grosh_ingestion/routers/admin_reprocess.py:78-103 | Targets and skipped split the request, in its order; targets are distinct, exactly the claimable users not locked before, and the only new locks; the window of every claimable user in the request restarts; the answer to each name follows from the tables before the request and the names before it |
| `BulkTrigger.SkipsAreExplained` | services/ingestion/src/grosh_ingestion/routers/admin_reprocess.py:86-103 | Rate-limited: not forced, and not claimable or named twice. Locked: claimable and locked before; under force, unknown, locked before or named twice |
| `BulkTrigger.NextClaimIff` | services/ingestion/src/grosh_ingestion/repositories/user_repo.py:44-89 | After a claim the next one without force succeeds iff more than an hour has passed; force always does |
| `BulkTrigger.TargetsAreExact` | services/ingestion/src/grosh_ingestion/routers/admin_reprocess.py:86-103 | The targets are distinct and exactly the claimable users of the request that were not locked |
| `BulkTrigger.TriggerTables.TryTarget` | services/ingestion/src/grosh_ingestion/routers/admin_reprocess.py:86-103 | A target iff the slot could be claimed and no lock was there; the claim sticks even when the lock refuses |
| `Pagination.CursorRoundTripIff` | services/api/src/grosh_api/pagination.py:14-26 | Decoding an encoded cursor gives its parts back iff timestamp and id are non-empty and the id has no colon |
| `Pagination.LastColonIs` | services/api/src/grosh_api/pagination.py:20-26 | The split is at the last colon |
| `Pagination.TopNIsTop` | services/api/src/grosh_api/repositories/transaction_repo.py:178-218 | The page is strictly descending, and every row left out is less than every row shown |
| `Pagination.PageIsExact` | services/api/src/grosh_api/routers/transactions.py:120-169 | A page shows the greatest rows below the cursor; there is a next cursor iff a row is left, and it is the last row shown |
| `Pagination.WalkDescends` | services/api/src/grosh_api/routers/transactions.py:120-169 | Following cursors never repeats a row, even while the table changes |
| `Pagination.WalkIsExact` | services/api/src/grosh_api/routers/transactions.py:120-169 | A finished walk shows every row that stays in the filter throughout, even if rows come and go between pages |
| `Pagination.WalkTerminates` | services/api/src/grosh_api/routers/transactions.py:120-169 | On a fixed table the walk finishes |
| `Pagination.FixedTableWalk` | services/api/src/grosh_api/routers/transactions.py:120-169 | ... and lists exactly the filtered rows in (time desc, id desc) order |

## Left out

- NUMERIC(18,8) storage and 28-digit Decimal context: rates and intermediate values are exact reals.
- UUID5 derivation and the unique (account_id, source_id) index: ids are given, and one id is one transaction.
- An IBAN linked to two accounts of a user: it resolves to at most one, as a given of the environment.
- Row locking between concurrent enrichment transactions (FOR UPDATE SKIP LOCKED): the per-user advisory lock makes steps serial, and other users' rows are never read.
- The order of candidate ids inside an anomaly: the fetch promises none, so anomalies are compared up to it.
- Formatting of reason_detail: an anomaly's reason carries what the text is built from.
- Event metadata other than none or a source document, the only shapes the normalizers produce.
- Events that are dropped on purpose (poison messages, unknown account) or retried for ever (bad rate chain): such an event changes no table.
- Enrichment.EnrichmentStore.Run: a step is one transaction; a failure inside it is the step that does not happen.
- RateStore.CurrencyRateRepo.UpsertPolled: concurrent writers of one pair are taken as serialized.
- RateStore.GetHistoricalRateRefinesMap: one pair of one source, the fully filtered form of the query; list_rates and its counts are not part of this model.
- RateStore.FindFreshRateRefinesLog: for polls of the pair written in the order of their times, which is when "the latest observation" names one; the same for RateHistory.CoveringRun, FreshRowMatchesLog, NothingFreshBeforeFirstPoll and RunsOrdered, RateStore.PolledCoverUnique and GetPolledRateRefinesLog.
- ClosestRate.NothingRecordedIsCloser: the same hypothesis, for observations only.
- ReprocessJob.Pipeline.RestoreFromBackup: brings back rows, not anomalies, as in the code.
- ReprocessJob.Pipeline.ReprocessUser: crash-free runs; process death is a step of PipelineProtocol.
- PipelineProtocol.NothingIsLostIff: tracks ids of one user, not row contents.
- clean_stale_locks, the backup purge and listing of all users: no job step uses them.
- Job submission to Kubernetes: atomic with the request that inserts the lock rows.
- Pagination.CursorRoundTripIff: the text under the base64 layer; base64 itself and timestamp parsing are library code.
- Filters, aggregates, counts and time-zone bucketing of the API: the walk is over whatever set the filter matches.
- LISTEN/NOTIFY delivery, sweeps and drain scheduling: a drain may start for any selection of staged rows at any time.
- HTTP, authentication, row-level security, linking, webhooks, normalizers, frontend: plumbing around the modelled state.
