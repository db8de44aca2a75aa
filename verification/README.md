# Verified model of the Xero to BigQuery pipeline

The pipeline pulls Xero entities page by page, stores every response body under a structured object name in a bucket, and
merges the parsed rows into BigQuery staging tables that feed a finance query. This project models the parts whose correctness
is not visible in one function, and proves what they guarantee together. Nothing here runs the pipeline; a table, a bucket and a
server are maps, lists and functions.

The modules follow the pipeline:

- **Staging writer.** `Timestamps` (ISO strings as recency), `LatestPerKey` (dedup), `FileOrder`
  (rows delivered file by file), `KeyedMerge` (the MERGE statement on row lists and
  the one-row-per-key table it refines), `Upsert` (both together), `BqWriter` (the lock dictionary, the warehouse calls, `merge`),
  `MergeProtocol` (any number of threads interleaving the steps of `merge`), `SoloMerge` (one of them alone is `merge`),
  `WholeBackfill` (files in any completion order, then the interleaving, and what it leaves in a table).
- **Reports.** `ReportFlatten` (the report tree and its flat rows), `ReportRows` (snapshot ids, merge keys, dedup and MERGE),
  `ReportBackfill` (the report jobs of a whole backfill).
- **Fetching.** `RateLimiter` (the limiter object and registry), `FanOut` (fan-out and limiter as one interleaved protocol), `SyncRun`
  (the fan-out loop and its outcomes), `Retry`, `Pagination`, `Journals` (the request, page and offset loops against any server),
  `EntityRun` (one unit from the server to the objects it writes and what the manifest says of them),
  `UnitSteps` (the request loop's events as steps of the fan-out protocol).
- **Backfill planning.** `Dates` (Gregorian dates with chrono's limits, section 5.7 of RFC 3339 for leap years), `Chunks`, `Modes`,
  `BackfillPlan`.
- **Object names.** `ObjectKeys` (the printer), `KeyReaders` (path pattern, split and prefix listings), `BackfillKeys`.
- **Finance query and loader.** `FinanceQuery`, `Loader`.
- `Text`, `Blocks` and `Positions` hold strings, appended blocks and lists of distinct positions.

The cores are generic in the row and key types; `upd` says how a batch row updates a target row, and a key that cannot be matched (NULL,
since the MERGE compares with `=`) is `None`.

## What turned out not to hold

For each of these the lemmas named say exactly when, or for which rows, the property holds.

- `backfill_chunks` never ends for `to == NaiveDate::MAX`: `Chunks.EndsIffToIsNotLastDay`.
- The limiter's check and its increment are separate critical sections, so its cap of six holds in every interleaving only because the
  fan-out is clamped to six: `FanOut.CapHoldsIffFanOutAtMostSix`, with a run of seven units that breaks it.
- MERGE never compares timestamps: two merges equal one merge of both batches exactly when the second batch is not older on the keys they
  share: `Upsert.TwoMergesAreOneIffNotOlder`.
- A missing or NULL key column makes a second merge of the same batch insert again: `Upsert.MergeTwiceIsOnceIffNoNullKey`. The loader's NULL-safe
  comparison does not have this: `Loader.LoadIsIdempotentUpsert`.
- A row lacking a key column is documented as never dropped, but its marker key `("__nokey__", i)` can be another row's real key:
  `Upsert.KeylessRowKeptIffNoImpostor`, `Upsert.KeylessRowCanBeLost`.
- `merge()` takes the statement's columns from one row. A stored column that the key's own batch row does not bring survives exactly when
  that row's column list does not name it, and becomes NULL otherwise: `Upsert.ColumnSurvivesIffNotListed`, `Upsert.RaggedBatchErases`.
- The dedup depends on the order of its rows exactly when different rows of one key tie on the latest `synced_at`, and on the order in
  which files finish downloading exactly when two files that hold a latest row of a key would keep different ones:
  `LatestPerKey.OrderIndependentIffTopsAgree`, `WholeBackfill.DeliveryIrrelevantIffFilesAgree`.
- The dedup raises exactly when of two rows of one key one has a number other than zero for `synced_at` and the other has not:
  `Upsert.DedupRaisesIffKindsMix`.
- `fetch_raw_pages` is documented to mirror `fetch_inner`, but takes a body that is not JSON for the empty last page where `fetch_inner` fails;
  the journals loops differ in the same way. They agree exactly with servers that send no such body after pages with data:
  `Pagination.LoopsAgreeIffNoGarbage`, `Pagination.LoopsDiffer`, `Journals.JournalLoopsAgreeIffNoGarbage`, `Journals.JournalLoopsDiffer`.
- The unchecked page counter overflows with the default cap when no page up to `u32::MAX` is empty, refused or unreadable:
  `Pagination.OverflowsIffNoPageStops`.
- Report flattening loses the cells of nested rows and of section rows themselves: `ReportFlatten.NoCellLostIffShallow`.
- The finance query drops postings that agree on tenant, batch, reference and line number: `FinanceQuery.RowsConservedIffLinesUnique`, `FinanceQuery.RepeatedPostingCountedOnce`.
- The loader joins the texts of key values with a separator it assumes never occurs in them. The joined text identifies the component
  texts exactly when at most one of the key columns may hold the separator: `Loader.KeyTextIdentifiesIffOneFree`. Under that condition it
  identifies the values exactly when in every key column different values have different texts: `Loader.KeyTextIdentifiesValuesIff`. Where
  either fails, the dedup refuses two records the MERGE would tell apart: two columns with separators (`Loader.DifferentKeysRefused`), or
  the number 1 beside the string "1" (`Loader.PrintedValueRefused`).

## Model

| member | source | states |
|---|---|---|
| Timestamps.IsoOrderIsChronological | etl/common/bq_writer.py:150-157 | Comparing the `isoformat()` strings of two UTC datetimes, whose fraction is printed only when nonzero, is comparing the instants; equal strings are equal instants. |
| Timestamps.ChronologicalIffZoneBelowDot | etl/common/gcs_reader.py:222-230 | For any offset text after the optional fraction, string order is chronological exactly when the text starts below '.', as `+00:00` does and `Z` does not. |
| Timestamps.IsoReads | etl/common/bq_writer.py:155-156 | The text read back field by field: year to second in fixed places, six digits of fraction if there is one, the offset of UTC. |
| LatestPerKey.DedupRows | etl/common/bq_writer.py:159-172 | The loop over `best` and `order` returns the specified list, and raises exactly when it meets two stamps of one key that Python cannot compare. |
| LatestPerKey.ComparableMeans | etl/common/bq_writer.py:166-171 | It meets such a pair exactly when two rows of one key have stamps of different kinds. |
| LatestPerKey.DedupKeepsLatest | etl/common/bq_writer.py:138-172 | One row per key, in order of first appearance, each the last among the most recent rows of its key. |
| LatestPerKey.DedupLosesNoKey | etl/common/bq_writer.py:138-172 | Every input row's key has its winner in the result. |
| LatestPerKey.DedupKeepsAllIffDistinct | etl/common/bq_writer.py:159-172 | Nothing is dropped exactly when no two rows share a key, and then the list is unchanged. |
| LatestPerKey.OrderIndependentIffTopsAgree | etl/common/bq_writer.py:159-172 | All orders of delivery keep the same rows exactly when no two different rows of one key tie on the greatest `synced_at`. |
| LatestPerKey.LatestMapOfConcat | etl/common/bq_writer.py:159-172 | What is kept out of two batches appended, in terms of what is kept out of each. |
| FileOrder.FileOrderIrrelevantIffFilesAgree | etl/common/gcs_reader.py:149-152 | All orders of the files keep the same rows exactly when, for every key, the files that hold a top row would keep the same one; ties inside a file do no harm. |
| Upsert.DedupByKey | etl/common/bq_writer.py:138-172 | `_dedup_by_key` of any rows with its row keys (a row lacking a key column is never collapsed), its recency of texts and numbers, and when it raises. |
| Upsert.RecencyMeans | etl/common/bq_writer.py:150-157 | What the comparison means for any two rows: numbers by value, texts as texts, datetimes by time, and a row without a time before every text and datetime. |
| Upsert.DedupRaisesIffKindsMix | etl/common/bq_writer.py:150-157 | It raises exactly when of two rows of one key one has a number other than zero for `synced_at` and the other has not. |
| Upsert.KeptIsLatestInstant | etl/common/bq_writer.py:150-171 | Comparing texts keeps the row latest in time: with datetimes, no row of a key was synced after the one kept. |
| Upsert.KeylessRowKeptIffNoImpostor | etl/common/bq_writer.py:147-171 | A row lacking a key column, documented as always kept, is kept exactly when no row's real key spells its marker and is preferred. |
| Upsert.KeylessRowCanBeLost | etl/common/bq_writer.py:147-171 | Two rows of which the one without a key is lost. |
| Upsert.OnClauseIsKeyMatch | etl/common/bq_writer.py:305 | `T.c = S.c` for all key columns holds exactly when both rows have the same key without NULLs. |
| KeyedMerge.MergeRefinesView | etl/common/bq_writer.py:298-323 | On tables with unique keys the MERGE statement keeps keys unique and is the upsert of the one-row-per-key view. |
| KeyedMerge.MergeTwiceIsOnceIffKeysUsable | etl/common/bq_writer.py:298-323 | Merging a batch of distinct usable keys twice is merging it once exactly when every row's key can be matched. |
| Upsert.NeverAmbiguous | etl/common/bq_writer.py:85-94 | After the dedup of any batch no target row is matched twice, so BigQuery never rejects the MERGE for that. |
| Upsert.MergeIsUpsert | etl/common/bq_writer.py:67-135 | For rows with usable keys, whatever their other columns, dedup then the printed MERGE: keys stay unique, each batch key holds its latest row over the old one, everything else unchanged. |
| Upsert.UpsertTouchesListedColumnsOnly | etl/common/bq_writer.py:298-323 | Rows of other keys, key columns and columns the first kept row lacks keep their value; every other column takes the value of the key's latest row, NULL if that row lacks it. |
| Upsert.ColumnSurvivesIffNotListed | etl/common/bq_writer.py:104 | A stored value whose column the key's own batch row does not bring survives exactly when the statement does not name the column. |
| Upsert.RaggedBatchErases | etl/common/bq_writer.py:78 | Of two rows that differ in their columns, against the documented precondition, the second loses the stored value of a column only the first brings. |
| Upsert.DisjointUpsertsCommute | etl/backfill_gcs.py:205-206 | Upserts with no key in common can be applied in either order. |
| Upsert.TwoMergesAreOneIffNotOlder | etl/common/bq_writer.py:67-135 | Merging A then B equals merging A followed by B as one batch exactly when B is not older than A on every shared key. |
| Upsert.MergeTwiceIsOnceIffNoNullKey | etl/common/bq_writer.py:305-323 | For any batch and the statement as printed, a second merge changes nothing exactly when no kept row lacks a key column or has NULL in one. |
| BqWriter.LockRegistry.LockFor | etl/common/bq_writer.py:52-59 | One lock object per table for ever, no two tables share one. |
| BqWriter.Warehouse.WriteTemp | etl/common/bq_writer.py:196-233 | The temp table takes the target's schema unless there is none or the first row brings a new column, and then a row outside it fails the load; otherwise it gets the columns of all rows. |
| BqWriter.Warehouse.EvolveTargetSchema | etl/common/bq_writer.py:252-280 | The target gains exactly the temp columns its schema lacked, or, when a call fails and the error is swallowed, none; rows stay. |
| BqWriter.Merge | etl/common/bq_writer.py:67-135 | For any rows, any table and any combination of raised and swallowed failures: exactly when the call succeeds; success is the printed MERGE of the latest row per key, with the schema it leaves; otherwise the rows are as they were; temp tables, other tables and the lock are restored either way. |
| BqWriter.DocumentedBatchSucceedsIff | etl/common/bq_writer.py:67-135 | For rows with the same columns, key columns and others among them: success exactly when no call raises, a failed check does not hide the table, and the target is new, has the columns or gets them. |
| BqWriter.SucceedsIff | etl/common/bq_writer.py:67-135 | The same for rows of any shape, column by column: what the first row, the key columns and the target must have, and what a temp table that takes over the target's columns must not be given. |
| SoloMerge.SoloRunIsMerge | etl/common/bq_writer.py:109-135 | The interleaved protocol run by one thread alone, with any remote calls raising or swallowed, is `merge()`: it ends, succeeds exactly when the call does, and leaves its rows and schema, no temp table, other tables as they were and the lock free. |
| SoloMerge.TempSchemaIsWriters | etl/common/bq_writer.py:196-233 | The temp table of the protocol has the columns the writer gives it. |
| MergeProtocol.InvAlways | etl/common/bq_writer.py:109-135 | The lock, temp, schema, creation and history invariants hold in every world of every interleaving. |
| MergeProtocol.OneThreadPerTable | etl/common/bq_writer.py:52-59 | In every run at most one thread per table is between schema read and temp drop, live temps belong to lock holders, and tables never share a lock. |
| MergeProtocol.SchemaReadIsCurrentAtMerge | etl/common/bq_writer.py:110-131 | When MERGE is next the target's schema is the one read inside the lock plus the batch's columns, or without them if adding them failed; a target read as missing, as in a first backfill, has exactly the batch's columns. |
| MergeProtocol.MergeIsAccepted | etl/common/bq_writer.py:119-131 | So in every run the MERGE of a call that had no error swallowed is never rejected for an unknown column. |
| MergeProtocol.CheckIsCurrentAtCreation | etl/common/bq_writer.py:287-295 | What the existence check found is still so when the thread creates the table. |
| MergeProtocol.TargetsAreCreatedOnce | etl/common/bq_writer.py:282-296 | In any run `create_table` is called exactly once for a missing target and never for an existing one, apart from calls whose check itself failed. |
| MergeProtocol.CreationRacesWithoutTheLock | etl/common/bq_writer.py:287-295 | Two threads past the check of one missing table, as only the lock prevents: both call `create_table`, and the second call fails. |
| MergeProtocol.MergesAreSequential | etl/common/bq_writer.py:109-135 | At every moment a table's rows are its initial rows with the finished merges applied one after another in lock order. |
| MergeProtocol.NeverStuck | etl/common/bq_writer.py:109-135 | While a call is unfinished some call into the same table can take a step of its own; only a call that had an error swallowed can be left with a rejected MERGE. |
| MergeProtocol.ScheduleDoesNotMatter | etl/backfill_gcs.py:215-220 | Two runs that make the same calls with disjoint keys into a table leave the same rows in it under every schedule, whatever calls they make into other tables. |
| WholeBackfill.DeliveryIrrelevantIffFilesAgree | etl/common/gcs_reader.py:149-152 | The merge call of a job is the same for all completion orders of its downloads exactly when, for every key, the files that hold a latest row would keep the same one. |
| WholeBackfill.JobIsItsMergeCall | etl/common/bq_writer.py:67-135 | A job's step in the protocol names the columns of its rows and leaves of any keyed table what the dedup and the printed MERGE leave of it. |
| WholeBackfill.JobsAreSeparated | etl/backfill_gcs.py:199-206 | The calls into one table from different tenants, or from different report kinds of one tenant, never share a key, whatever is merged into other tables. |
| WholeBackfill.BackfillIsDeterministic | etl/backfill_gcs.py:175-220 | Table by table: two backfills that make the same well-formed calls into a table leave the same rows in it, for any file completion orders, any thread interleavings and any other calls, with ties and failures among them, if the calls into this table succeed. |
| WholeBackfill.BackfillStoresLatest | etl/common/bq_writer.py:298-323 | What a backfill whose calls into a table succeed leaves under every key a call brings: the latest row of the key in that call, in all columns outside the key, over the other columns stored before; or that row itself if the key is new. |
| WholeBackfill.BackfillTouchesNothingElse | etl/common/bq_writer.py:298-323 | A key no call into the table brings is left as it was. |
| ReportBackfill.ReplaceIsStatement | etl/common/bq_writer.py:307-319 | For report rows of one key the printed `UPDATE SET` leaves the batch's row. |
| ReportBackfill.ReportCallIsFit | etl/xero/reports.py:131-192 | The snapshot rows and the cell rows of a report job have the same columns, usable keys and no ties when the job's runs are distinct, under keys of its own tenant and report kind. |
| ReportBackfill.ReportTablesAreDeterministic | etl/backfill_gcs.py:175-220 | `report_snapshots` and `report_rows` are the same after any two backfills that read the same report files, whatever other endpoints they merge and in whatever order. |
| ReportBackfill.EveryCellReachesItsRow | etl/xero/reports.py:72-177 | From the report tree to the table: after a backfill whose calls into `report_rows` succeed every data cell of every report is stored under its tenant, snapshot and place, with its value, attributes, row, section and column label. |
| ReportBackfill.EveryReportReachesItsSnapshot | etl/xero/reports.py:126-154 | So is every report's header in `report_snapshots`, with its times, run and copied columns. |
| ReportFlatten.HeaderLabels | etl/xero/reports.py:81-87 | A column's label is that of the last header row that has the column. |
| ReportFlatten.LastHeaderLabels | etl/xero/reports.py:83-87 | That row is the last of all header rows with the column; a column no header row has is unlabelled. |
| ReportFlatten.FlattenReportRows | etl/xero/reports.py:72-123 | One flat row per place in reading order, each recording its own cell, row, section and column label. |
| ReportFlatten.FlatteningIsBijective | etl/xero/reports.py:113-123 | Places are visited in strictly increasing order and are exactly the places of data cells. |
| ReportFlatten.NoCellLostIffShallow | etl/xero/reports.py:113-123 | The number of flat rows is the number of all non-label cells exactly when sections have no cells of their own and data rows hold no rows with cells. |
| ReportRows.RecordIdIdentifies | etl/xero/reports.py:157-163 | Snapshot ids of report names without a bar are equal exactly when report and run are. |
| ReportRows.ParseRows | etl/xero/reports.py:157-177 | One row per data cell under the snapshot's id. |
| ReportRows.CollectRows | etl/xero/reports.py:180-185 | The rows handed to the writer are those of all reports in order. |
| ReportRows.NoCellDroppedIffNoClash | etl/xero/reports.py:189-192 | The keyed dedup drops no cell exactly when no two reports under one snapshot id have a cell at the same place. |
| ReportRows.EveryCellIsStored | etl/xero/reports.py:180-192 | With one report per tenant, report and run, after dedup and MERGE every data cell of every report is stored under its own key. |
| RateLimiter.Registry.ForTenant | core/crates/xero-client/src/rate_limit.rs:43-49 | One limiter object per tenant for ever; looking it up changes no counter. |
| RateLimiter.Registry.CheckFor | core/crates/xero-client/src/rate_limit.rs:64-72 | The check passes exactly when the tenant's counter is below six. |
| RateLimiter.Registry.EnterFor | core/crates/xero-client/src/rate_limit.rs:80-83 | Entering raises the tenant's own counter by one and no other. |
| RateLimiter.Registry.ReleaseFor | core/crates/xero-client/src/rate_limit.rs:99-105 | Dropping a permit lowers the tenant's own counter unless it is zero. |
| RateLimiter.TenantRateLimiter.ProactiveWait | core/crates/xero-client/src/rate_limit.rs:86-97 | A wait is asked for exactly when at most five calls remain, between 150 and 2,000 ms, the maximum exactly at zero. |
| FanOut.CounterIsLivePermits | core/crates/xero-client/src/rate_limit.rs:62-105 | In every interleaving a tenant's counter is the number of its live permits and at most the number of units in flight. |
| FanOut.ReleaseFindsPermit | core/crates/xero-client/src/rate_limit.rs:99-105 | The guard in `release` is always true. |
| FanOut.CheckPassesBelowSix | core/crates/xero-client/src/rate_limit.rs:64-72 | A unit passes the check exactly when fewer than six permits of its tenant are live, however many others have passed and not entered; a failed check changes nothing. |
| FanOut.NobodySpins | core/crates/xero-client/src/rate_limit.rs:64-72 | With at most six units in flight no acquirer ever waits in the loop. |
| FanOut.CapHoldsIffFanOutAtMostSix | core/crates/xero-client/src/rate_limit.rs:62-84 | The per-tenant cap of six holds in every interleaving of every unit list exactly when at most six units are in flight. |
| FanOut.AtMostSixPerTenant | core/crates/xero-sync/src/lib.rs:101-136 | Whatever concurrency is asked for, no tenant ever has more than six live permits. |
| FanOut.ClampIsNearest | core/crates/xero-sync/src/lib.rs:101 | The concurrency used is the nearest to the one asked for from one to six. |
| FanOut.FanOutStaysFull | core/crates/xero-sync/src/lib.rs:119-136 | `next` is outcomes plus in flight, in flight is within the bound, and equal to it while unstarted units remain. |
| FanOut.EveryUnitCollectedOnce | core/crates/xero-sync/src/lib.rs:123-136 | When nothing is in flight any more, every unit has been collected exactly once. |
| FanOut.NeverStuck | core/crates/xero-sync/src/lib.rs:123-136 | Before that, some step other than a failed check changes the world without any unit having to finish: a full limiter always has a permit to give back. |
| SyncRun.UnitsArePairsOnce | core/crates/xero-sync/src/lib.rs:113-117 | The units are exactly the (tenant, entity) pairs, each once for duplicate-free lists. |
| SyncRun.UnitAt | core/crates/xero-sync/src/lib.rs:113-117 | They are worked through tenant by tenant, in the order of the entities. |
| SyncRun.Run | core/crates/xero-sync/src/lib.rs:89-154 | For any completion order the loop ends with one outcome per unit, each made from its own unit's result. |
| SyncRun.EveryUnitReported | core/crates/xero-sync/src/lib.rs:158-190 | For every completion order each unit is reported with its own result's pages, records and stop, or its own error and zeros, and for duplicate-free units by one outcome only. |
| SyncRun.ManifestTotals | core/crates/xero-sync/src/lib.rs:123-151 | For every completion order the page and record totals of the manifest are the sums over the units that succeeded. |
| SyncRun.OrderDoesNotMatter | core/crates/xero-sync/src/lib.rs:123-136 | For every completion order the manifest holds the same outcomes, as a multiset those of the units in order. |
| SyncRun.FailureIsIsolated | core/crates/xero-sync/src/lib.rs:158-190 | Manifests of two runs that differ in one unit's result, completed in any two orders, differ in that unit's outcome only. |
| Retry.FetchWithRetry | core/crates/xero-client/src/lib.rs:1093-1187 | The loop returns the specified result and produces the specified trace of acquires, sends, drops and sleeps. |
| Retry.SuccessIffWithinSix | core/crates/xero-client/src/lib.rs:1093-1187 | Success is returned exactly when one of the first six replies is a 304 or a readable 200 to 299 and all before it were 429, 500 to 599 or passing transport errors. |
| Retry.FirstFinalReplyDecides | core/crates/xero-client/src/lib.rs:1116-1184 | What comes back is what the first reply that is not retried says: its 304, its status and body, or a failure. |
| Retry.RequestsBounded | core/crates/xero-client/src/retry.rs:14-17 | One request per retryable reply up to the first that is not, and never more than six. |
| Retry.LoopIsDisciplined | core/crates/xero-client/src/lib.rs:1095-1182 | Against any server: a permit for every send, never two, none while sleeping, none left over. |
| Retry.UnitIsDisciplined | core/crates/xero-client/src/lib.rs:1095-1182 | The same over all requests of a unit, as the fan-out protocol assumes. |
| UnitSteps.OwnStepIffPermitted | core/crates/xero-client/src/rate_limit.rs:62-105 | In every reachable world with at most six units in flight, whatever other units did since, a unit has a next critical section exactly when its trace may go on, check and entry of an acquire taken apart. |
| UnitSteps.TraceRunsInEveryInterleaving | core/crates/xero-client/src/lib.rs:1095-1182 | Woven with any steps of other units and of the fan-out, a unit with a disciplined trace always has a next step until its trace ends, and is then idle. |
| UnitSteps.ProtocolAcceptsDisciplined | core/crates/xero-client/src/lib.rs:1095-1182 | The phase machine of a unit accepts exactly the disciplined traces; the phase is Holding exactly while one permit is held, and other units, other tenants' counters and the fan-out are untouched. |
| UnitSteps.LoopReturnsToIdle | core/crates/xero-client/src/lib.rs:1093-1187 | Against any server a request loop takes its unit from idle to idle and leaves every counter as it was. |
| Retry.BackoffIncreasesAndIsBounded | core/crates/xero-client/src/retry.rs:19-28 | After five 5xx or transport failures, whatever the sixth reply, the five sleeps strictly increase whatever the jitter and total between 15,500 and 19,370 ms. |
| Retry.BackoffBoundsAreMet | core/crates/xero-client/src/retry.rs:19-28 | Both bounds are met, by the least and the greatest jitter. |
| Retry.RateLimitWaitIsServersChoice | core/crates/xero-client/src/retry.rs:30-38 | After every 429 that is retried, at any attempt, the sleep is the number of seconds Retry-After gives (section 10.2.3 of RFC 9110), or 30 s. |
| Retry.RateLimitWaitsAreUnbounded | core/crates/xero-client/src/retry.rs:30-38 | For every bound and every attempt some server makes the sleep there longer. |
| Pagination.FetchRawPages | core/crates/xero-client/src/lib.rs:970-1023 | For any server, how the raw loop stopped, after which page, and with exactly which bodies; an entity without pages is asked for once and its body kept as page 1 of one. |
| Pagination.FetchInner | core/crates/xero-client/src/lib.rs:606-664 | The same for the parsed form, with exactly which records. |
| Pagination.LoopsAgreeIffNoGarbage | core/crates/xero-client/src/lib.rs:959-969 | With or without pages both forms ask for the same ones, and report the same outcome exactly when the server sends no body that is not JSON within the cap after pages with data. |
| Pagination.LoopsDiffer | core/crates/xero-client/src/lib.rs:959-969 | A server of n good pages and then unreadable ones: the raw loop reports a complete fetch of n pages, the parsed loop an error. |
| Pagination.OverflowsIffNoPageStops | core/crates/xero-client/src/lib.rs:97-107 | The page counter overflows exactly when the cap is `u32::MAX` and no page up to it stops the loop. |
| Pagination.HealthyStopMissesNothing | core/crates/xero-client/src/lib.rs:1573-1583 | Whatever the server does past the first empty page, a stop that is not suspect returned every page with data and that empty page; a cap stop returned a nonempty initial part. |
| Pagination.UploadPages | core/crates/xero-sync/src/lib.rs:248-280 | Pages are written in order under their own keys up to the first refusal; the record count is the sum over pages. |
| Pagination.ManifestCountsRecords | core/crates/xero-sync/src/lib.rs:248-289 | With or without pages: the pages kept are those asked for, their record count is the number of records the parsed form would return, and the page count is that of the pages with data, or one without pages. |
| EntityRun.RunEntity | core/crates/xero-sync/src/lib.rs:194-290 | A unit for any server and any sink: it succeeds exactly when the fetch does and every page is taken; then all pages are written and it reports the records written, the pages fetched and the stop, and otherwise the pages before the first refusal are. |
| EntityRun.RunJournals | core/crates/xero-sync/src/lib.rs:194-290 | The same for the journals. |
| EntityRun.LabelIdentifies | core/crates/xero-client/src/lib.rs:29-42 | The stop printed in the manifest names the reason; only the suspect one is `hit_max_pages_cap`, and none is the text of a failed unit. |
| EntityRun.UnitReportsServer | core/crates/xero-sync/src/lib.rs:235-289 | A unit that succeeds has written the server's bodies under the keys of their page numbers and reports the records the parsed form reads off the pages it counts, all of them unless it reports the cap. |
| EntityRun.ManifestCountsWrites | core/crates/xero-sync/src/lib.rs:89-154 | For every completion order the record total of the manifest is the number of records in the objects of the units that succeeded. |
| Journals.FetchRawJournals | core/crates/xero-client/src/lib.rs:1027-1077 | The raw offset loop ends for every server without help from the cap; its offsets, bodies and stop reason. |
| Journals.FetchJournals | core/crates/xero-client/src/lib.rs:907-957 | The parsed offset loop likewise. |
| Journals.NextOffsetIsLargest | core/crates/xero-client/src/lib.rs:1600-1618 | The next offset is the largest journal number on the page in whatever order it lists them, and the old offset if it has none. |
| Journals.OffsetsIncrease | core/crates/xero-client/src/lib.rs:1592-1598 | Offsets strictly increase from 0 for any server. |
| Journals.JournalLoopsAgreeIffNoGarbage | core/crates/xero-client/src/lib.rs:1025-1077 | Both loops ask for the same offsets, and report the same outcome exactly when the server sends no body that is not JSON within the cap after replies that advance. |
| Journals.JournalLoopsDiffer | core/crates/xero-client/src/lib.rs:1025-1077 | A server that advances n times and then sends an unreadable body: the raw loop reports a complete fetch, the parsed loop an error. |
| Journals.EveryJournalOnce | core/crates/xero-client/src/lib.rs:907-957 | If each reply is a nonempty initial segment of the journals above the offset, every journal is returned exactly once, in order, ending on the empty page unless the cap fires. |
| Chunks.BackfillChunks | core/crates/xero-cli/src/resolve.rs:167-184 | The loop returns the chunks between successive cursors up to the first past `to`. |
| Chunks.EndsIffToIsNotLastDay | core/crates/xero-cli/src/resolve.rs:171-182 | The loop ends exactly when `to` is not the last representable day. |
| Chunks.ChunkListIsUnique | core/crates/xero-cli/src/resolve.rs:167-184 | The conditions on the result fix it: a range has one chunk list. |
| Chunks.EveryDayInOneChunk | core/crates/xero-cli/src/resolve.rs:165-184 | Every day of the range lies in exactly one chunk and no other day in any. |
| Chunks.ChunksSpanRange | core/crates/xero-cli/src/resolve.rs:165-184 | Chunks are nonempty, the first starts at `from`, the last ends at `to`. |
| Chunks.ChunksAreConsecutive | core/crates/xero-cli/src/resolve.rs:173-181 | Each chunk starts the day after the one before ends. |
| Chunks.EndsIncrease | core/crates/xero-cli/src/resolve.rs:176-181 | End dates strictly increase. |
| Chunks.ChunkStartMonth | core/crates/xero-cli/src/resolve.rs:173-175 | Chunk k starts k times the step months after `from`, on a day of the month no later than that of `from`. |
| Chunks.ChunkCount | core/crates/xero-cli/src/resolve.rs:167-184 | The number of chunks is the whole number of steps between the two months, or one more. |
| Dates.OrderIsDayOrder | core/crates/xero-cli/src/resolve.rs:64 | Calendar order is exactly the order of day numbers, so differences of day numbers count days. |
| Dates.MonthLengths | core/crates/xero-cli/src/resolve.rs:173-175 | The calendar the chunks are cut in has the Gregorian table of month lengths and leap years. |
| Dates.AddMonthsAdvances | core/crates/xero-cli/src/resolve.rs:173-175 | Adding months moves exactly that far, to the same day or the last day of a shorter month, and fails exactly past the last representable month. |
| Dates.MinusDaysInverse | core/crates/xero-sync/src/mode.rs:92-95 | Going back as many days as lie between two dates leads from the later to the earlier. |
| Modes.BusinessWindowRecovered | core/crates/xero-cli/src/resolve.rs:56-66 | An explicit business window is refused exactly when it lacks `from` or is reversed, and otherwise recovered exactly by the fetch at the returned anchor. |
| Modes.RollingWindowLength | core/crates/xero-sync/src/mode.rs:89-95 | A rolling window ends at its anchor and holds `max(days, 1)` days. |
| Modes.FlagsDecideFilter | core/crates/xero-cli/src/resolve.rs:40-99 | Every combination of flags, taken through to the filter a fetch sends at the anchor: precedence, refusals, and which filters a date-windowable entity gets that others do not. |
| BackfillPlan.RunBackfill | core/crates/xero-cli/src/sync.rs:223-293 | No manifest exactly for a reversed range or no entities; else the outcomes of the plan's sub-runs in order. |
| BackfillPlan.PartKeepsOrder | core/crates/xero-cli/src/sync.rs:234-243 | The partition reads the entities of its side in their order and misses none. |
| BackfillPlan.DayPulledOnce | core/crates/xero-cli/src/sync.rs:234-280 | For every tenant, windowable entity and day of the range exactly one unit of exactly one sub-run lets the day through. |
| BackfillPlan.UndatedPulledOnce | core/crates/xero-cli/src/sync.rs:245-261 | Every other entity is pulled exactly once per tenant, without a filter. |
| BackfillPlan.ManifestSize | core/crates/xero-cli/src/sync.rs:282-292 | The merged manifest has one outcome per tenant for each undated entity and each chunk of each windowable one. |
| BackfillPlan.EveryPullReported | core/crates/xero-cli/src/sync.rs:282-292 | Every unit of every sub-run is in the merged manifest with its own result. |
| BackfillPlan.BackfillTotal | core/crates/xero-cli/src/sync.rs:282-292 | The record total of the merged manifest is the sum over the units of all sub-runs that succeeded. |
| ObjectKeys.SanitizeIsSnakeCase | core/crates/xero-gcs/src/key.rs:26-36 | The output is snake case and slash-free; exactly snake-case names pass through unchanged. |
| ObjectKeys.SanitizeReplaces | core/crates/xero-gcs/src/key.rs:26-36 | Character by character: capitals become small letters, what is no ASCII letter or digit an underscore. |
| ObjectKeys.DateTextIdentifies | core/crates/xero-gcs/src/key.rs:58 | The printed date determines the date, also for years outside 0 to 9999. |
| ObjectKeys.DateTextReads | core/crates/xero-gcs/src/key.rs:58 | The printed date read back: two digits of day and month, the year on four, with a sign when four are not enough. |
| ObjectKeys.PageFileReads | core/crates/xero-gcs/src/key.rs:52-62 | A page's file name read back: timestamp, sanitized run id, page number on three digits or more, extension. |
| ObjectKeys.ReportFileReads | core/crates/xero-gcs/src/key.rs:83-93 | A report's file name read back, with its period in place of the page. |
| ObjectKeys.ManifestKeyReads | core/crates/xero-gcs/src/manifest.rs:50-57 | A manifest's name split at slashes is the root, the vendor, the date and the run. |
| ObjectKeys.ObjectKeyIdentifies | core/crates/xero-gcs/src/key.rs:43-63 | The printed key is injective in tenant, endpoint, date and page, whatever the timestamps and run ids. |
| ObjectKeys.RemoveSuffixInvertsSidecar | core/crates/xero-gcs/src/meta.rs:198-200 | `removesuffix` inverts `sidecar_key`. |
| ObjectKeys.KindsAreDisjoint | core/crates/xero-gcs/src/manifest.rs:50-57 | Page objects, sidecars and manifests never share a name, under every prefix configuration accepts. |
| ObjectKeys.RefusedPrefixes | core/crates/xero-common/src/config.rs:133-141 | Configuration refuses exactly the prefixes that begin, after any number of slashes, with the manifests' root. |
| ObjectKeys.ReportKindIsDisjoint | core/crates/xero-gcs/src/key.rs:73-93 | Report snapshots never have the name of a sidecar or a manifest. |
| KeyReaders.SplitRecoversSegments | etl/backfill_gcs.py:139-143 | `split('/')` of a printed key with a slash-free tenant is its seven segments. |
| KeyReaders.VersionIsTwoNumbers | etl/common/gcs_reader.py:51-58 | The version group is two numbers with a dot between them, whichever they are. |
| KeyReaders.MatchHereIsPattern | etl/common/gcs_reader.py:51-58 | The path pattern, given by its groups, matches at the start of a text in at most one way, found on the segments. |
| KeyReaders.SearchIsLeftmost | etl/common/gcs_reader.py:137 | `search` returns the groups of the leftmost match, and nothing exactly when the pattern matches nowhere. |
| KeyReaders.PatternRecoversSegments | etl/common/gcs_reader.py:51-58 | On a printed key the only groups the pattern finds are vendor, tenant, endpoint, date and file. |
| KeyReaders.PrintedKeysHaveSegments | core/crates/xero-gcs/src/key.rs:52-62 | Names printed under `raw/xero`, and their sidecars, have those segments. |
| KeyReaders.Listing | etl/common/gcs_reader.py:133-144 | The listing keeps exactly the sidecar names under the prefix whose endpoint and date match, each position once and in order. |
| KeyReaders.ListingFindsSidecars | etl/common/gcs_reader.py:123-144 | Among printed names the tight listing of a tenant's endpoint, with or without a date, finds exactly that tenant's sidecars of that endpoint and date. |
| KeyReaders.ScanFindsSidecars | etl/common/gcs_reader.py:128-144 | The vendor-wide listing finds exactly the sidecars of that endpoint and date. |
| KeyReaders.ScanBucket | etl/backfill_gcs.py:132-144 | The scan returns exactly the third and fifth segments of names with more than four. |
| KeyReaders.FastListingIsTheScan | etl/common/gcs_reader.py:123-144 | The tight per-tenant listings of the scanned tenants, for one date or all, together find exactly what the vendor-wide scan finds, and no name twice. |
| BackfillKeys.NoNameWrittenTwice | core/crates/xero-cli/src/sync.rs:238-280 | Two page writes of a whole backfill have the same name exactly when they are the same write, even if all sub-runs share a timestamp. |
| BackfillKeys.EveryPageIsFound | etl/common/gcs_reader.py:123-144 | From the uploader to the readers: the name of every page of a backfill is read as its tenant, endpoint, date and file, and its sidecar is found by the listing of its tenant and endpoint, for its own date or for none. |
| FinanceQuery.AmountNokNeverNull | Dataform/BI_FinanceTable.sql:31-48 | `amount_nok` is never NULL, and what it is in the row's own columns: a nonzero base amount of NOK books as it is, of other books through their base rate, and otherwise the currency amount, converted if it can be. |
| FinanceQuery.EnrichKeepsFacts | Dataform/BI_FinanceTable.sql:82-99 | Under any fan-out the six left joins lose no fact row and invent none. |
| FinanceQuery.ResultExists | Dataform/BI_FinanceTable.sql:75-81 | On every input the ranking has a result. |
| FinanceQuery.PartitionIsLine | Dataform/BI_FinanceTable.sql:76 | The partitions are the lines: two postings share one exactly when tenant, batch, reference and line number agree, NULL with NULL. |
| FinanceQuery.RowsConservedIffLinesUnique | Dataform/BI_FinanceTable.sql:75-81 | Whatever row a tie picks, the result has as many rows as the ledger exactly when no two postings agree on tenant, batch, reference and line number. |
| FinanceQuery.EveryLineHasOneRow | Dataform/BI_FinanceTable.sql:202 | Every line of the ledger has exactly one row in the result, which stands for one of its postings. |
| FinanceQuery.DimensionsAreGenuine | Dataform/BI_FinanceTable.sql:82-99 | In every joined row each of the six dimension rows fits by the columns of its ON clause, and is missing only if none fits. |
| FinanceQuery.BestSubaccountIsShown | Dataform/BI_FinanceTable.sql:75-81 | Of the subaccounts that fit a posting none beats the one in the result: number match first, then latest modification, then smallest id, NULLs where BigQuery sorts them. |
| FinanceQuery.LedgerIsResultPlusDropped | Dataform/BI_FinanceTable.sql:31-202 | On any ledger, under any fan-out and tie-break, the result's `amount_nok` and the amounts of the dropped postings add up to the ledger's. |
| FinanceQuery.MoneyConserved | Dataform/BI_FinanceTable.sql:31-202 | If no two postings are of one line nothing is dropped, and the result's `amount_nok` adds up to that of `finance_base`. |
| FinanceQuery.RepeatedPostingCountedOnce | Dataform/BI_FinanceTable.sql:75-81 | In any ledger, of the postings that agree on tenant, batch, reference and line number exactly one is in the result and all others are dropped. |
| Loader.GetPath | tooling/src/xero_tooling/bigquery/loader.py:62-71 | The walk along a dotted path returns the value there, null as soon as the path leads nowhere. |
| Loader.FieldDescends | tooling/src/xero_tooling/bigquery/loader.py:62-71 | A path without a dot is the field; one with a dot leads on from the field before it, if that is an object, and to null otherwise. |
| Loader.RecordPk | tooling/src/xero_tooling/bigquery/loader.py:86-89 | The key text of a record is its key values joined, and is refused exactly when one is null or blank. |
| Loader.KeyRefusedIffNullOrBlank | tooling/src/xero_tooling/bigquery/loader.py:74-83 | A record has no key exactly when a key path leads to null, to nothing, or to a string of whitespace. |
| Loader.KeyJoinsTexts | tooling/src/xero_tooling/bigquery/loader.py:86-89 | Otherwise the key joins, with the separator, strings as they are and other values as printed. |
| Loader.JoinDetermines | tooling/src/xero_tooling/bigquery/loader.py:50 | If at most one key column, the same one in both, holds the separator, equal key texts come from equal component texts. |
| Loader.KeyTextIdentifiesIffOneFree | tooling/src/xero_tooling/bigquery/loader.py:86-89 | For keys of n columns whose texts hold separators only in the columns of a set, the key text identifies the component texts exactly when at most one of the n columns is in the set. |
| Loader.KeyTextIdentifiesValuesIff | tooling/src/xero_tooling/bigquery/loader.py:74-89 | With at most one such column, the key text identifies the values exactly when in every column different values have different texts. |
| Loader.DifferentKeysRefused | tooling/src/xero_tooling/bigquery/loader.py:103-130 | Two records of one call with different two-column keys, which the MERGE tells apart: the dedup stops with an error. |
| Loader.PrintedValueRefused | tooling/src/xero_tooling/bigquery/loader.py:74-83 | So it does for a value that is not a string beside the string it is printed as, such as 1 and "1". |
| Loader.DedupeRecords | tooling/src/xero_tooling/bigquery/loader.py:103-130 | It succeeds exactly when every record has a key by `_record_pk` and records sharing one are identical, keeps plus drops all records, keeps what the staging writer's dedup would keep, and otherwise stops at the first offending record. |
| Loader.NotDistinctIsKeyMatch | tooling/src/xero_tooling/bigquery/loader.py:156-159 | `IS NOT DISTINCT FROM` on all key paths, nested ones included, is equality of the values they lead to, NULL as a value. |
| Loader.LoadIsIdempotentUpsert | tooling/src/xero_tooling/bigquery/loader.py:230-306 | After a successful dedup no target row matches two source rows, keys stay unique, the table is upserted outside the columns the key paths start in, and loading the same records again changes nothing. |
| Loader.LoadWritesRecord | tooling/src/xero_tooling/bigquery/loader.py:141-160 | What a load leaves under a record's key values: a stored row takes the record's value, NULL if it lacks it, in every column of the call in which no key path starts, and keeps the others; without one the record is inserted with all columns of the call. |
| Loader.LoadTouchesNothingElse | tooling/src/xero_tooling/bigquery/loader.py:141-160 | Rows under other key values stay as they are. |

## Left out

- HTTP, GCS and BigQuery calls, tokens, tracing and command-line parsing; servers, buckets and tables are values, and `parse_range`'s date text is taken as parsed.
- `run_report`, the single fetch and upload of a report, and the metadata written beside an object.
- JSON parsing: a body is given as unreadable, without the entity's array, or with its records.
- `EntityType` tables, endpoint maps and configuration lookups: entity names are arbitrary strings (snake case where object names need it), `is_date_windowable` is any predicate.
- `resolve_tenants` and `resolve_entities`, which pass explicit lists through unchanged: where duplicates matter, lists are required to have none.
- WholeBackfill.BackfillIsDeterministic: promises nothing for a table some of whose calls tie across files, as calls of child and line tables may, whose rows carry no `synced_at`, nor for one into which an endpoint requested twice merges the same keys twice; other tables of the same backfill are not affected.
- WholeBackfill.BackfillIsDeterministic: takes the rows of a file as fixed; a download whose error `_fetch_records` swallows into an empty list (etl/common/gcs_reader.py:160-168) gives other rows, and so other tables.
- WholeBackfill.BackfillIsDeterministic: takes `synced_at` as given by the file; for a text it cannot read `_parse_synced_at` falls back to the current time (etl/common/gcs_reader.py:229-230), which differs from run to run.
- BackfillPlan.RunBackfill: requires `to` before the last representable day when an entity is windowable, since the loop does not end for it.
- FanOut.NobodySpins: wall-clock waits (`proactive_wait`, the 50 ms poll) are steps without duration.
- Pagination.FetchRawPages: `Overflowed` stands for the wrap-around or panic of the unchecked `page += 1`; what follows it is not modelled.
- Retry.FetchWithRetry: the second copy of the loop, on parsed bodies, is not modelled separately; its branches are the same.
- The `limiter.in_flight` counter is unbounded; the fan-out bound keeps it far below `u32::MAX`.
- Row values other than text, integers, datetimes and NULL.
- BigQuery's column types, schema autodetection of types, the temp table's expiry and swallowed failures to drop it.
- `business_date_where` as text: a window filter is its two dates.
- The per-entity parsers other than reports, report headers' date parameters, `iter_records_from_meta` and `_extract_records`, which copy fields.
- The output columns of the finance query other than its key and amount, and `FARM_FINGERPRINT`.
- `\d` in the path pattern is an ASCII digit.
- Loader.LoadIsIdempotentUpsert: numbers in keys are compared by their text, so the key `1` and the key `1.0` differ; adding `_tenant_id` to every record and checking the target's columns come before it and are not modelled.
- In the loader, a batch with key columns only, for which it prints a statement with an empty SET list.
- Canonical JSON in the loader: payloads are compared as values, and how a number, list or object is printed as a key is any function.
