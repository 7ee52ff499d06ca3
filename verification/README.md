# Verification of traffic accounting, redaction, template rendering and publication

This project models five parts of the repository in Dafny and proves what each of them is for.

1. **Durable accounting.** The engine keeps byte counts in memory and flushes them as numbered batches to a spool; a
   collector imports the batches into a database and then unlinks the files. `Journal.dfy` holds the engine's journal,
   `History.dfy` the batches it leaves behind over its restarts, `Protocol.dfy` the whole system as a step machine
   with failing flushes, engine and collector deaths, restarts, vanishing and reappearing files, and polling before
   the migration. `Invariance.dfy` proves that every step keeps the invariant, `Reachable.dfy` states what holds in
   every reachable state, and `Drain.dfy` holds the drain itself.
2. **Allocation of counter deltas.** `Database.dfy` defines what each transaction does to the tables, `Store.dfy` is
   the imperative store proved against it. `Calendar.dfy` is the retention boundary, `Allocation.dfy` the arithmetic
   of cumulative floor division, `Attribution.dfy` the agreement of the two allocators and the fairness of the cap,
   `Rounding.dfy` the rounding bound, `Conservation.dfy` byte conservation over runs, `Coverage.dfy` the seconds,
   `Signs.dfy` the absence of negative numbers, `Placement.dfy` where bytes and seconds land bucket by bucket and domain
   by domain, `Delivery.dfy` the way from an arrival in the engine to its row in the database, `Report.dfy` the gateway
   report, and `Billing.dfy` and `Credits.dfy` the credits of a connection from above and from below.
3. **Redaction.** `UrlCreds.dfy`, `HeaderAuth.dfy` and `Assignments.dfy` are the three passes, `Redaction.dfy` their
   composition; `UrlLeaks.dfy` says for which texts the URL pass leaves no userinfo behind.
4. **Template substitution.** `YamlScalar.dfy` is the quoting with an independent reader after YAML 1.2.2 (sections
   5.7 and 7.3.1), `Template.dfy` the token grammar, `Substitute.dfy` the two phases.
5. **Publication.** `Kernel.dfy` is the filesystem boundary with faults and interference, `Writer.dfy` the
   transaction and its rollback.

`Wrappers.dfy`, `Sums.dfy`, `Ordering.dfy` and `Text.dfy` hold what these parts share.

## Conventions

- A method that loops or changes state in the source is a method here, proved equal to a function of its inputs or of
  the old state; the properties are lemmas about those functions and about runs of them.
- SQLite tables are maps and a transaction is one step that either happens or leaves everything as it was. A digest
  is injective in the batch, so the stored digest is the batch itself; a batch file is its contents.
- In the step machine the clock increases strictly, epochs are distinct, one engine and one collector or poller run
  at a time, and polling ends before the first engine starts. A failed flush is followed only by the engine's death.
  Any file that was ever deleted may reappear at any time, which is more than the directory sync at the end of a drain
  allows.
- Bytes of text are characters; in `YamlScalar.dfy` and `Substitute.dfy` a character is a Unicode code point.
- In `Kernel.dfy` every operation may fail, as an arbitrary function of the number of the call says, and before each of them another process may change the output directory
  in any way, except for the entry under the staging name, which carries 128 random bits. What other processes do is
  an arbitrary function of the turn and of the directory. The state of the disk is at all times what the recorded
  effects made of the original one (`Disk.Valid`), so nothing can change without an effect of a known cause.

## Where the code and its documentation differ

- The documentation of `hasSensitiveAssignment` asks for a boundary before the key (`Assignments.Documented`). The code
  searches slices of the line, so a key directly after another occurrence of the same key counts as well:
  `passwordpassword=` is masked (`Assignments.RepeatedKeyCounts`), and so is every doubled key of letters and digits
  (`Assignments.DoubledKeyDiffers`). The two agree exactly on the lines in which no run of two or more copies of a
  key leads up to a separator, or in which a documented key occurs as well (`Assignments.DocumentedWhen`). The model
  follows the code.
- The collector's limit of 10002 rows fits an interval that crosses one bucket boundary. The engine's fallback adds one
  row for each bucket, so an interval over three buckets can exceed the limit (`Journal.ThreeBucketsCanOverflow`).
  Such a batch stalls the drain; no bytes are lost.
- The retention boundary can move back while time moves on. It does so exactly when both instants lie in one month, on
  days that are clamped to the same last day, and the first in a later quarter hour of its day
  (`Calendar.CutoffMonotone`).
- `import_batch` on its own accepts batches of two epochs interleaved and then counts seconds twice
  (`Coverage.InterleavedEpochsOverlap`). A batch it commits starts behind the cursor exactly when its epoch is known and
  another batch has moved the cursor past that epoch's row (`Coverage.CommittedInOrder`). The engine's exclusive lock
  rules the order out, so coverage is proved for the system (`Reachable.ReachableCoverage`).
- `Billing.NoRebilling` assumes unexpired checkpoints. Once the checkpoint of a listed connection has expired, its
  credits stay within its counter exactly when it began before the second of the last snapshot or nothing was counted
  for it so far (`Billing.ExpiredCheckpoint`). A connection that began in the second of the last snapshot is billed
  twice: two bytes for a counter of one (`Billing.BilledOnce`, `Billing.BilledTwice`).
- The documentation of the URL pass promises to mask userinfo. The pass scans authorities from the left and skips a
  separator whose scheme lies inside the authority of a scanned one, so `http://https://u:p@h` is left alone with its
  userinfo (`UrlLeaks.NestedUrlStays`, and `UrlLeaks.NestedStays` for every text of this shape). The promise is kept
  exactly for the texts in which no chain of separators, each authority running into the next one, has its first
  userinfo behind a separator at an odd position (`UrlLeaks.StableIsFree`); this can be told from the text before the
  call. The model follows the code.

## Model

| member | source | states |
|---|---|---|
| `Reachable.BytesAreConserved` | engine/mihomo/overlay/tunnel/statistic/domain_accounting.go:92-190 | in every reachable state of engines, spool and collector, bytes added and polled equal bytes stored, dropped by retention, waiting in spool files, in engine memory, and lost with dead epochs, and none of the last three is negative |
| `Reachable.NothingCountsTwice` | deploy/traffic/traffic.py:214-221 | a batch imported at any time keeps its place in the history at every later time and is a duplicate then: importing its file again changes no table |
| `Reachable.DeletedCountNothing` | deploy/traffic/traffic.py:533-547 | a file that was unlinked at any time and comes back at any later time is a duplicate and changes no table |
| `Reachable.ImportedStays` | engine/mihomo/overlay/tunnel/statistic/domain_accounting.go:139-190 | a power loss can take the last batch of the history, but never one that was imported |
| `Reachable.DeletedOnlyOnceImported` | deploy/traffic/traffic.py:541-542 | a file is unlinked only when its batch has been imported, and every batch without a file has been |
| `Reachable.ImportsNeverFail` | deploy/traffic/traffic.py:214-229 | no import of a drain meets a sequence gap, an overlap or a conflict, whatever engines restarted and whatever files came back |
| `Reachable.SpoolListable` | deploy/traffic/traffic.py:523-537 | the spool of a reachable state can be listed exactly when its size, the batch sizes and the clocks are within the limits |
| `Reachable.ReachableRows` | engine/mihomo/overlay/tunnel/statistic/domain_accounting.go:92-160 | every batch ever emitted, in every state, holds at most 10000 rows and one for every bucket of its interval |
| `Reachable.ShortIntervalsListable` | deploy/traffic/traffic.py:491-541 | a spool whose intervals cross at most one bucket boundary can be listed exactly when its number of files and the clock allow it |
| `Reachable.LossIsNeverSilent` | engine/mihomo/overlay/tunnel/statistic/domain_accounting.go:217-240 | every epoch started after another carries the unclean flag in its first batch, and its row keeps the possible tail loss through all later batches and pruning |
| `Reachable.NoFalseAlarm` | engine/mihomo/overlay/tunnel/statistic/domain_accounting.go:217-240 | the first epoch of a spool never carries the unclean flag, and its row never claims a loss |
| `Reachable.LossHasAnEpoch` | engine/mihomo/overlay/tunnel/statistic/domain_accounting.go:217-240 | only started epochs lose bytes, so every epoch after a loss is flagged |
| `Reachable.EpochsStay` | deploy/traffic/traffic.py:253-254 | no step removes an epoch from the epoch table |
| `Reachable.ReachableCoverage` | deploy/traffic/traffic.py:165-262 | in every reachable state no bucket claims more than 900 seconds, and after the first imported batch polling changes nothing |
| `Reachable.ReachableTable` | deploy/traffic/traffic.py:200-273 | at most 92*96+1 bucket rows in every reachable state |
| `Reachable.ReachableAgreement` | deploy/traffic/traffic.py:239-254 | when polls carry snapshots, both tables agree bucket by bucket before, across and after the migration to engine batches |
| `Reachable.ReachableSigned` | deploy/traffic/traffic.py:156-268 | in every state of a run whose snapshots are well-formed no row of the totals, the per-domain table or the sampling table is negative |
| `Signs.RecordSigned` | deploy/traffic/traffic.py:156-206 | a sample leaves no negative number in a table, through resets, the cap, the remainder and the rounding of shares |
| `Signs.ImportSigned` | deploy/traffic/traffic.py:230-252 | nor does a batch whose rows are not negative |
| `Invariance.StepKeeps` | engine/mihomo/overlay/tunnel/statistic/domain_accounting.go:92-273 | every step of the protocol keeps the invariant: history, engine, spool, drain, database and losses |
| `Invariance.StepBalances` | deploy/traffic/traffic.py:208-273 | every step keeps both byte balances |
| `Invariance.HeadImports` | deploy/traffic/traffic.py:536-542 | the head of a drain is the next batch in emission order or one that is imported already |
| `Invariance.TickKeeps` | engine/mihomo/overlay/tunnel/statistic/domain_accounting.go:128-190 | a flush, successful or stopped before or after the rename, keeps the invariant |
| `Invariance.StartKeeps` | engine/mihomo/overlay/tunnel/statistic/domain_accounting.go:193-258 | a start stopped before the marker, at the marker or in its first flush keeps the invariant |
| `Invariance.ReappearKeeps` | deploy/traffic/traffic.py:541-548 | a deleted file that comes back holds an imported batch and endangers nothing |
| `History.SortingIsEmissionOrder` | deploy/traffic/traffic.py:533-536 | sorting by from, emission time, epoch and sequence puts the files not yet imported last and in emission order, across restarts within one second as well |
| `History.EpochConsecutive` | engine/mihomo/overlay/tunnel/statistic/domain_accounting.go:139-188 | the batches of an epoch are consecutive in emission order and consecutively numbered |
| `History.ImportedIsDuplicate` | deploy/traffic/traffic.py:214-221 | an imported batch is answered as a duplicate, never as a conflict |
| `History.NextIsCommitted` | deploy/traffic/traffic.py:221-236 | the next batch of an honest history is committed |
| `History.TailLossStays` | deploy/traffic/traffic.py:253-254 | a reported possible loss stays in the epoch row however many batches follow |
| `History.HonestAccepted` | deploy/traffic/traffic.py:491-520 | the collector accepts an honest batch exactly when its row count and the clocks allow it |
| `Drain.DrainEngine` | deploy/traffic/traffic.py:523-548 | draining any spool: the database and the spool end as the sorted import-and-unlink sequence says, and it succeeds when that does |
| `Drain.Spool.Scan` | deploy/traffic/traffic.py:526-535 | listing fails exactly when the spool is over capacity or holds an invalid or misnamed batch |
| `Drain.HonestDrainSucceeds` | deploy/traffic/traffic.py:523-548 | a drain of an honestly produced spool that can be listed ends without error, with an empty spool and every batch imported |
| `Drain.DrainAcknowledges` | deploy/traffic/traffic.py:541-548 | for any spool and database: a drain changes no file, removes one only when the database knows its batch, and without error removes every listed one |
| `Journal.DomainJournal.Add` | engine/mihomo/overlay/tunnel/statistic/domain_accounting.go:92-113 | adding puts the bytes under the clamped bucket of the host, or of the fallback name when 10000 rows are held |
| `Journal.DomainJournal.Flush` | engine/mihomo/overlay/tunnel/statistic/domain_accounting.go:128-190 | a flush writes the sorted rows as the next batch and resets the journal; on an error the journal is as before |
| `Journal.AddedTotal` | engine/mihomo/overlay/tunnel/statistic/domain_accounting.go:92-113 | adding, also under the fallback name, loses no bytes |
| `Delivery.AddedExactly` | engine/mihomo/overlay/tunnel/statistic/domain_accounting.go:92-113 | adding changes exactly one row: the host's own, or the fallback row when the journal is full and has none for it, in the bucket of the later of the clock and the start of the interval |
| `Delivery.AddedAll` | engine/mihomo/overlay/tunnel/statistic/domain_accounting.go:92-113 | without the fallback every row holds exactly what arrived for its host in its bucket |
| `Delivery.EmittedHolds` | engine/mihomo/overlay/tunnel/statistic/domain_accounting.go:139-160 | a flushed batch holds for every host in every bucket exactly what the journal held |
| `Delivery.StoredAsReceived` | deploy/traffic/traffic.py:230-252 | after flush and import the table holds for a host in a bucket exactly the bytes that arrived for it there, on top of what it held before |
| `Journal.EmittedTotal` | engine/mihomo/overlay/tunnel/statistic/domain_accounting.go:143-154 | an emitted batch holds exactly the bytes that were in memory |
| `Journal.ValidateBatch` | deploy/traffic/traffic.py:491-520 | the check of identity, interval, emission time, row count, row range and row uniqueness, accepting exactly the valid batches |
| `Journal.EmittedAccepted` | engine/mihomo/overlay/tunnel/statistic/domain_accounting.go:139-160 | what an honest journal emits is accepted exactly when it holds at most 10002 rows and the clocks agree |
| `Journal.RowsBounded` | engine/mihomo/overlay/tunnel/statistic/domain_accounting.go:101-104 | a journal holds at most 10000 rows and one for every bucket its interval reaches |
| `Journal.OneBoundaryAccepted` | deploy/traffic/traffic.py:505-507 | an interval that crosses at most one bucket boundary is never refused for its rows |
| `Journal.ThreeBucketsCanOverflow` | engine/mihomo/overlay/tunnel/statistic/domain_accounting.go:92-113 | adding 10000 short host names and one more in every bucket reaches the bound for any number of buckets; the batch is accepted exactly up to two buckets, and the number of rows is the only objection |
| `Store.Store.Record` | deploy/traffic/traffic.py:156-206 | the imperative transaction is the recording function; a refused sample leaves every table as it was |
| `Placement.RecordDecides` | deploy/traffic/traffic.py:156-168 | which samples are refused, which is the baseline, and that a refused one changes nothing |
| `Placement.CountedAs` | deploy/traffic/traffic.py:169-175 | a new source epoch or a decreased counter counts in full and is reported as a reset, anything else counts the difference; a gap is more than twice the interval |
| `Placement.RecordPlaces` | deploy/traffic/traffic.py:176-195 | every kept bucket receives its own part of the delta and of the seconds, observed after a normal sample, estimated after a gap or a reset |
| `Billing.SnapshotLeaves` | deploy/traffic/traffic.py:344-348 | a snapshot moves the cursors to it, keeps the tracking time and replaces the checkpoints |
| `Store.Store.FillBuckets` | deploy/traffic/traffic.py:176-195 | the loop over buckets adds to each the share of the delta and the seconds that fall into it |
| `Store.Store.RecordDomains` | deploy/traffic/traffic.py:275-348 | the imperative attribution is the attribution function |
| `Credits.CreditedInFull` | deploy/traffic/traffic.py:285-298 | over any run without reset or expiry a connection listed in every snapshot under one domain is credited exactly its last counter less what its first sighting left uncredited |
| `Credits.OtherDomainPaysNothing` | deploy/traffic/traffic.py:287-295 | a snapshot that lists it under another domain credits it nothing |
| `Credits.DomainIsPaid` | deploy/traffic/traffic.py:296-312 | where the cap does not apply a domain is attributed exactly what its connections were paid |
| `Placement.RecordPlacesDomains` | deploy/traffic/traffic.py:313-332 | in every kept bucket a domain is booked its proportional part of the bucket's bytes to within less than one byte, and a domain without usage nothing |
| `Placement.ClippedAt` | deploy/traffic/traffic.py:333-342 | each bucket is booked its own part of the clipped bytes |
| `Store.Store.BookPieces` | deploy/traffic/traffic.py:318-332 | the loop over domains hands out a slice by cumulative division in name order |
| `Store.Store.FillAttribution` | deploy/traffic/traffic.py:313-342 | the loop over buckets books attributed bytes and sampling quality |
| `Store.CapUsage` | deploy/traffic/traffic.py:299-312 | capping both directions and booking the remainder as unattributed |
| `Store.Store.ImportBatch` | deploy/traffic/traffic.py:208-268 | the imperative import is the import function; duplicates and errors leave every table as it was |
| `Placement.ImportPlaces` | deploy/traffic/traffic.py:232-243 | a committed batch books for every domain in every kept bucket exactly the sum of its rows for that domain and bucket; any other import changes nothing |
| `Placement.ImportCoversSeconds` | deploy/traffic/traffic.py:244-252 | and covers, as observed, exactly the seconds its interval has in common with each kept bucket |
| `Conservation.ImportDecides` | deploy/traffic/traffic.py:214-229 | a batch is committed exactly when it opens a new epoch no earlier than the cursor or continues its epoch; duplicates and conflicts are told apart; nothing else changes a table |
| `Conservation.ImportLeaves` | deploy/traffic/traffic.py:222-263 | both cursors move to the end of the batch and on by the bytes it booked, tracking times stay, checkpoints go, other epochs are untouched |
| `Store.Store.Classify` | deploy/traffic/traffic.py:214-229 | duplicate, conflict, gap, overlap or acceptance, in the order the code checks them |
| `Store.Store.Prune` | deploy/traffic/traffic.py:270-273 | retention removes exactly the rows before the boundary, and stale checkpoints |
| `Conservation.RecordConserves` | deploy/traffic/traffic.py:156-206 | one sample: stored plus dropped grows by exactly the counted delta; a refused sample changes nothing |
| `Conservation.RunConserves` | deploy/traffic/traffic.py:156-206 | over any run stored plus dropped is what was stored before plus every accepted delta |
| `Conservation.ResetFreeRun` | deploy/traffic/traffic.py:171-175 | a run in which no sample is counted from zero counts last minus first over the counters it accepted, whatever samples were refused in between |
| `Conservation.RunAgrees` | deploy/traffic/traffic.py:176-195 | over any run of samples with snapshots the totals and the per-domain table agree in every bucket and direction, and so do observed, estimated and reset numbers |
| `Conservation.ImportConserves` | deploy/traffic/traffic.py:230-246 | a committed batch adds exactly its bytes to what is stored or dropped |
| `Attribution.RecordAgrees` | deploy/traffic/traffic.py:311-342 | one sample through resets, gaps, clipping and pruning keeps the two separately written allocators in agreement |
| `Attribution.ImportAgrees` | deploy/traffic/traffic.py:230-252 | importing a batch keeps the two tables in agreement |
| `Attribution.CapIsFair` | deploy/traffic/traffic.py:299-309 | capped usages sum to the smaller of observed total and delta, name the same domains, and exceed no observed value |
| `Attribution.AttributionExact` | deploy/traffic/traffic.py:310-312 | attributed usage with the remainder sums to the delta in each direction |
| `Attribution.RemainderNonNegative` | deploy/traffic/traffic.py:310-312 | the unattributed remainder is never negative |
| `Attribution.ClippedPlusKept` | deploy/traffic/traffic.py:301-303 | clipped plus kept equals observed below the counter maximum |
| `Rounding.DomainRounding` | deploy/traffic/traffic.py:315-332 | spread over k buckets with nothing before the boundary, a domain receives its usage to within less than k bytes, exactly when one bucket takes it all; a direction without bytes is included |
| `Allocation.ApportionExact` | deploy/traffic/traffic.py:323-328 | portions by cumulative division add up to the budget |
| `Allocation.CapCorrect` | deploy/traffic/traffic.py:301-309 | a capped column sums to the smaller of total and budget and each part stays between zero and its value |
| `Billing.NoRebilling` | deploy/traffic/traffic.py:276-298 | over any run the credits of a connection never exceed its final counter, less the first observed one when its first sighting was not credited, while checkpoints have not expired; the connection may begin within the truncated second of the snapshot that lists it |
| `Billing.ExpiredCheckpoint` | deploy/traffic/traffic.py:270-298 | once the checkpoint of a listed connection has expired, its credits stay within its counter exactly when it began before the second of the last snapshot or nothing was counted for it so far |
| `Billing.BilledOnce` | deploy/traffic/traffic.py:276-298 | a connection that begins in the second of a snapshot is credited its first byte and checkpointed |
| `Billing.BilledTwice` | deploy/traffic/traffic.py:270-298 | from that state, after its checkpoint expired, the same byte is credited again: two bytes for a counter of one |
| `Billing.BilledTwiceAfter` | deploy/traffic/traffic.py:84-92 | which happens for example at second 1000 and 100 days later |
| `Coverage.RecordCovers` | deploy/traffic/traffic.py:176-195 | a sample never covers a second twice |
| `Coverage.ImportCovers` | deploy/traffic/traffic.py:244-252 | a batch that starts no earlier than the cursor never covers a second twice |
| `Coverage.InterleavedEpochsOverlap` | deploy/traffic/traffic.py:221-229 | importing alone accepts the first batches of two epochs and then the second of the first, and a bucket then claims more seconds than have passed |
| `Coverage.CommittedInOrder` | deploy/traffic/traffic.py:214-229 | a committed batch starts no earlier than the cursor exactly when its epoch is new or that epoch's row still stands at the cursor, and then coverage stays disjoint |
| `Coverage.TwoEpochsImported` | deploy/traffic/traffic.py:221-229 | the state of that counterexample is reached by two accepted imports |
| `Report.MakeReport` | deploy/traffic/traffic.py:586-624 | refuses exactly the invalid ranges; otherwise its rows tile the range and each holds what the selected buckets of its width hold |
| `Report.SelectedWhen` | deploy/traffic/traffic.py:604-606 | a bucket is reported exactly when it lies in the range, is not older than retention and has begun |
| `Report.Aggregate` | deploy/traffic/traffic.py:604-609 | grouping by floor division with the zone offset gives each row boundary the sum over the buckets from it to the next |
| `Report.ReportIsExact` | deploy/traffic/traffic.py:610-624 | in a report row the clamp of the missing seconds never binds, and complete means that every bucket of the row is selected and was normally sampled |
| `Report.ReportTotals` | deploy/traffic/traffic.py:604-624 | the totals of a report are exactly the bytes of the buckets within the range, retention and now |
| `Coverage.CommitsAreBounded` | deploy/traffic/traffic.py:200-262 | after any committed sample or batch at most 92*96+1 bucket rows remain |
| `Coverage.PollingRefused` | deploy/traffic/traffic.py:166-168 | once a batch is in, polling samples are refused and change nothing |
| `Calendar.CutoffWindow` | deploy/traffic/traffic.py:84-92 | the boundary is aligned and lies at least 89 days and less than 92 days and one bucket back, for every month length and leap year |
| `Calendar.ThreeMonthsInDays` | deploy/traffic/traffic.py:84-92 | three calendar months with the day clamped are 89 to 92 days |
| `Calendar.CutoffMonotone` | deploy/traffic/traffic.py:84-92 | for any two instants the boundary keeps their order, except exactly when their days are clamped alike and the first lies in a later quarter hour of its day |
| `Calendar.EarlierDates` | deploy/traffic/traffic.py:86-91 | three months back keeps the order of days and joins exactly those clamped to the same day |
| `Calendar.CutoffIsNotMonotone` | deploy/traffic/traffic.py:84-92 | an instance of the exception: 28 May 23:59 and 29 May 00:00 of a common year |
| `Redaction.Redact` | internal/safex/errors.go:122-130 | the three passes in order compute the redaction function |
| `Redaction.RedactIdempotent` | internal/safex/errors.go:112-130 | redacting again changes nothing, on every string and whatever lowercasing does |
| `Redaction.OutputIsFixed` | internal/safex/errors.go:122-130 | the output is a fixed point of each of the three passes |
| `Redaction.PlainTextUnchanged` | internal/safex/errors.go:122-130 | text that calls for no masking is left exactly as it is |
| `UrlCreds.MaskPass` | internal/safex/errors.go:168-202 | the index-advancing loop computes the single pass |
| `UrlCreds.MaskUrls` | internal/safex/errors.go:155-165 | the bounded iteration reaches the fixed point, and its fail-closed result is dead code |
| `UrlCreds.TerminatorsAre` | internal/safex/errors.go:180-187 | the characters an authority ends at |
| `UrlCreds.MaskKeepsHost` | internal/safex/errors.go:188-196 | masking replaces everything up to the last at sign and keeps the host behind it |
| `UrlCreds.RoundsBounded` | internal/safex/errors.go:143-156 | at most as many passes change something as there are scheme separators |
| `UrlCreds.OnceCloses` | internal/safex/errors.go:146-152 | a changing pass masks at least one separator not yet followed by a mask, and no pass opens one |
| `UrlCreds.OnceFixesClean` | internal/safex/errors.go:168-202 | a pass leaves a text alone exactly when no authority it finds holds an at sign |
| `UrlCreds.StableIsClean` | internal/safex/errors.go:155-165 | after the iteration no authority a scan finds holds an at sign |
| `UrlLeaks.StableIsFree` | internal/safex/errors.go:132-202 | after the iteration the authority behind every separator is free of userinfo exactly when, in the text before it, no chain of separators has its first userinfo behind one at an odd position |
| `UrlLeaks.OnceSeparators` | internal/safex/errors.go:168-202 | what one pass does to the separators: a scanned one loses its userinfo and its chain, one behind a chained scanned one is skipped |
| `UrlLeaks.UnchainedIsFree` | internal/safex/errors.go:132-202 | without chains all userinfo is masked |
| `UrlLeaks.NestedStays` | internal/safex/errors.go:168-202 | every text with a scheme inside an authority and userinfo behind it is left as it is |
| `UrlLeaks.NestedUrlStays` | internal/safex/errors.go:168-202 | the instance `http://https://u:p@h` |
| `HeaderAuth.MaskHeaders` | internal/safex/errors.go:210-246 | the prefix search loop computes the header pass |
| `HeaderAuth.MaskedOf` | internal/safex/errors.go:220-245 | the value of a header is replaced up to the end of its line and everything else is kept |
| `HeaderAuth.MaskedIdempotent` | internal/safex/errors.go:204-209 | masking headers again changes nothing |
| `HeaderAuth.HeadersAreMasked` | internal/safex/errors.go:230-244 | every header prefix in the output is followed by the mask and the end of its line |
| `HeaderAuth.MaskedLine` | internal/safex/errors.go:210-246 | the header pass works line by line |
| `Assignments.FindKeyStart` | internal/safex/errors.go:318-331 | the first occurrence of a key that starts the slice or follows a character that is not alphanumeric |
| `Assignments.FindAssignment` | internal/safex/errors.go:291-313 | the search finds an assignment of one key exactly when an anchored occurrence is followed by a separator |
| `Assignments.HasSensitiveAssignment` | internal/safex/errors.go:291-313 | a line is sensitive exactly when some key is assigned in it |
| `Assignments.MaskAssignments` | internal/safex/errors.go:257-281 | lines overwritten in place: masked when sensitive or when lowercasing changes the length |
| `Assignments.MaskedIdempotent` | internal/safex/errors.go:248-263 | masking lines again changes nothing |
| `Assignments.NothingSensitiveLeft` | internal/safex/errors.go:248-263 | an output line is the bare mask or holds no sensitive assignment |
| `Assignments.SeparatedWhen` | internal/safex/errors.go:300-308 | behind a key there counts an optional single quote character, blanks or tabs, and then a colon or an equals sign |
| `Redaction.AssignmentsAreMasked` | internal/safex/errors.go:257-315 | every line that holds a sensitive key at a boundary, an optional closing quote, blanks and a separator is replaced by the mask |
| `Redaction.PlainAssignmentsAreMasked` | internal/safex/errors.go:122-130 | in text without URLs with userinfo and without headers this is so for the text's own lines |
| `Redaction.JsonIsMasked` | internal/safex/errors.go:300-308 | the instance of a JSON line |
| `Assignments.SensitiveOrRepeated` | internal/safex/errors.go:283-315 | the code masks the documented lines and those in which a run of copies of one key leads up to the separator, and no others |
| `Assignments.DocumentedWhen` | internal/safex/errors.go:283-315 | code and documentation agree exactly when no such run decides alone, in particular on every line where no key directly follows itself |
| `Assignments.DoubledKeyDiffers` | internal/safex/errors.go:294-310 | every doubled key of letters and digits with a separator is masked although it is not documented to be |
| `Assignments.RepeatedKeyCounts` | internal/safex/errors.go:294-310 | the instance `passwordpassword=` |
| `YamlScalar.QuoteYaml` | internal/render/yaml_scalar.go:17-55 | the rune loop writes the double-quoted scalar |
| `YamlScalar.QuoteRoundTrip` | internal/render/yaml_scalar.go:12-55 | a YAML reader gives back exactly the value and leaves exactly the following text |
| `YamlScalar.QuotedOneLine` | internal/render/yaml_scalar.go:28-50 | the scalar holds no line break and no character that isYAMLControl names |
| `Template.TemplateVars` | internal/render/render.go:443-458 | the names between the braces, from the left |
| `Template.ContainsDangling` | internal/render/substitute.go:223-236 | whether an opening is never closed |
| `Template.ReplaceAllChecked` | internal/render/substitute.go:195-206 | replaces every occurrence, as the library function does |
| `Template.IndexOf` | internal/render/substitute.go:210-217 | the first occurrence, or -1 |
| `Template.ReplaceIsFill` | internal/render/substitute.go:64-70 | replacing all occurrences of one name in a partly filled template fills in that name and touches nothing else |
| `Template.FillVars` | internal/render/substitute.go:146-165 | a filled template refers exactly to its unfilled names, in order, and none dangles |
| `Template.FilledHasNoOpen` | internal/render/substitute.go:146-165 | without unfilled names nothing in the text opens a placeholder |
| `Substitute.ValidateTemplate` | internal/render/render.go:404-440 | accepts exactly the templates without forbidden fragments, dangling openings or undeclared names |
| `Substitute.EmitIsSafe` | internal/render/yaml_scalar.go:154-213 | an emitted value can be put anywhere without opening a placeholder inside it or at its edges |
| `Substitute.EmittedWhen` | internal/render/yaml_scalar.go:154-213 | a value is emitted exactly when it holds no control character and no opening, and is a numeral in bounds or an address where one is asked for; numbers as they are, everything else quoted |
| `Substitute.DecimalRoundTrip` | internal/render/yaml_scalar.go:195-201 | the value compared with the bounds is the number whose digits the text shows |
| `Substitute.SubstituteConfig` | internal/render/substitute.go:45-72 | the config loop computes the config phase, with the same first error |
| `Substitute.SubstituteCredentials` | internal/render/substitute.go:95-166 | the credential loop with its checks computes the credential phase |
| `Substitute.RewriteIsFill` | internal/render/substitute.go:45-166 | the sequential loop of a phase is one simultaneous filling-in, with the same error |
| `Substitute.TwoPhasesAreOne` | internal/render/substitute.go:45-166 | for every accepted template both phases are one simultaneous substitution, succeed exactly when every name has a value, leave no opening, and never reach the checks behind the loops |
| `Substitute.ProductionTemplates` | internal/render/schema.go:47-76 | the same for the production schema: one simultaneous substitution, success exactly when every name has a value, no opening left, no dead check reached |
| `Substitute.RenderedReadsBack` | internal/render/yaml_scalar.go:12-213 | at the place of every quoted token of a rendered text a YAML reader gets exactly the source's value and goes on exactly where the template does |
| `Substitute.RenderedNumber` | internal/render/yaml_scalar.go:188-203 | at every number token of a rendered text stands exactly the source's value, a run of digits within its bounds, followed by exactly what the template has there |
| `Substitute.RawIs` | internal/render/substitute.go:95-145 | where each value comes from: the document, the bundle, or for the derived credential the user, a colon and the password |
| `Substitute.RenderTemplate` | internal/render/render.go:192-260 | validation and both phases succeed exactly when the template is accepted and every name has a value, with the simultaneous substitution as the result |
| `Writer.WriteTransaction` | internal/render/writer.go:234-365 | for every pattern of faults and interference: success exactly when the complete transaction was carried out, the undefined-bundle error exactly when it stopped after linking a name, any other error exactly when it linked none; linked names are a prefix of the fixed order; without faults, interference or existing targets it succeeds; a failed cleanup is reported only for a call that failed; a path with a ".." component is refused with nothing done |
| `Writer.OwnIsGentle` | internal/render/writer.go:263-344 | whatever other processes do, every change the call makes to the output directory adds a missing requested name, or makes or removes its own staging directory |
| `Writer.UntouchedStays` | internal/render/writer.go:263-344 | an entry no other process touches is at the end as it was at the start, and a new one is there exactly when the call linked it, under the linked inode |
| `Writer.WriteOutputs` | internal/render/writer.go:152-157 | with the production order: success exactly when complete, and then exactly the requested names are linked, each once, and each is on disk with its exact synced bytes unless another process touched it |
| `Writer.ValidateOutputNames` | internal/render/writer.go:460-476 | accepts exactly allowed names and returns them in the fixed order |
| `Writer.OrderedNames` | internal/render/writer.go:455-476 | every requested name is published once |
| `Writer.OrderedKeepsOrder` | internal/render/writer.go:455-476 | the requested names keep the fixed order |
| `Writer.Traverses` | internal/render/writer.go:242-246 | a path is refused for its text exactly when ".." stands between slashes or its ends |
| `Writer.SyncedBeforeLinked` | internal/render/writer.go:307-328 | in a complete transaction every file is written with its bytes and synced before any name is linked |
| `Writer.SyncedAfterLinked` | internal/render/writer.go:346-362 | the directory is synced after the last link and again after the staging directory is gone |
| `Writer.LinkedIsPrefix` | internal/render/writer.go:330-344 | wherever the transaction stops, the linked names are a prefix of the fixed order |
| `Writer.GentleKeepsEntries` | internal/render/writer.go:263-274 | no change by the call replaces or removes an output entry other than its own staging directory |
| `Writer.Rollback` | internal/render/writer.go:415-453 | every staged file that was never linked is removed unless a call of the rollback failed; when none failed and nothing was published the staging directory is gone and the outcome is the plain refusal; the outcome is undefined exactly when a name was published |
| `Writer.CleanupSparesPublished` | internal/render/writer.go:422-442 | what cleanup unlinks was created by this call and has no final name |
| `Writer.StageAll` | internal/render/writer.go:307-328 | staging stops at the first failure with the operations done so far |
| `Writer.PublishAll` | internal/render/writer.go:330-344 | a link is remembered before its error is looked at |
| `Writer.Finish` | internal/render/writer.go:345-364 | sync, removal of the staging directory, sync |
| `Kernel.Disk.Publish` | internal/render/writer_linux.go:346-358 | the link fails when the name exists, and its creation is reported apart from the removal of the staged link |
| `Kernel.Disk.RemoveIfSame` | internal/render/writer_linux.go:369-390 | a staged file is removed only under the inode this call created; an absent one is fine |
| `Kernel.Disk.LinkAt` | internal/render/writer_linux.go:80-103 | linking never replaces an existing entry |

## Left out

- HTTP polling, `/proc` identity, signals, file locks and argument parsing: the locks appear as mutual exclusion of steps, the rest is plumbing.
- SQL text, WAL and PRAGMA behaviour, JSON encoding and SHA-256: an atomic transaction, a faithful encoding and an injective digest are assumed.
- Journal.ValidateBatch: does not check that a row's domain is in normal form, because a domain is an opaque name here, nor the 8 MiB limit on the bytes of a batch file, because a file is its contents.
- Domain name and IP literal parsing: IDNA and address syntax are library behaviour.
- Integer overflow: counters are mathematical integers; `Journal.FitsInt64` names the assumption where the collector's counter check needs it.
- Parsing of connection snapshots: a sample carries a list of connections with distinct keys and counters in range.
- Runs in which some polls carry no snapshot: conservation and coverage hold for them, bucket-by-bucket agreement is not claimed.
- The domain report and the texts of the gateway report: its rows, labels and totals are modelled, time stamps, the sample age and the parsing of zones and instants are not; a zone is its offset in whole buckets.
- Attribution.ClippedPlusKept: stated for an excess of at most the counter maximum, because the code clamps the clipped number there.
- Rounding.DomainRounding: stated for a delta and a usage that the attribution produces, that is, a usage total equal to the delta and, where the delta is zero, no negative usage.
- `strings.ToLower`, `net.ParseIP` and the host name check: the first is an arbitrary function, the others an arbitrary predicate on addresses.
- `placeholderValues`: the map of config values is a parameter of the config phase.
- Invalid UTF-8: values are sequences of code points, so the check that refuses other byte strings is not modelled.
- Path walking, symbolic links, modes and descriptors of the Linux backend: only link, unlink, mkdir, rmdir, create, write and sync are modelled.
- The random suffix of the staging directory: its name is a parameter that other processes cannot name; a failing random source is one of the refusals before anything is created.
- Error texts: an error is one of a few kinds, and the publication distinguishes success, undefined bundle, refusal and failed cleanup.
- Configuration parsing, preflight, status, release and deployment tools: allowlists and process plumbing.
