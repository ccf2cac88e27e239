# A verified model of ohnotel

ohnotel is a metrics library: lock-free counters, gauges and histograms, an index from attribute sets to
buckets, observers that report to a periodic collector, and a Prometheus scrape endpoint. This Dafny project
models the parts whose correctness is least obvious and proves what they promise, for all inputs and all runs.
`dafny verify dfyconfig.toml` checks everything.

## What is modelled

**Lock-free histogram.** `HistogramProtocol` is a transition system at the grain of single atomic operations:
any number of writers (load the state pointer, bump `start`, up to five cell updates in program order, bump
`end`), readers and takers (load `end`, load `start`, load the cells one by one, re-load `start`, retry), and
the pointer swap of `take`. `HistogramSafety` holds the invariant, `HistogramTheorems`,
`HistogramInstants` and `HistogramConservation` what follows for every interleaving. `Histogram` is the arithmetic
both levels share. `HistogramBucket` is the same object one call at a time, as a class over its cells, and
`HistogramDelta` the subtraction of snapshots.

**Compare-exchange loop.** `AtomicFloat` is `update_with` as a machine with spurious failures, values that come
back, and the early return; together with `swap` and `store`.

**Attribute-set index.** `Model` and `Ordering` give the order on attributes and the canonical form, `ModelOrder`
says what that order is, and `Fingerprint` gives the order-independent fingerprint. `BucketTables` says what each
critical section does to the two tables, `BucketRefinement`, `BucketDraining` and `BucketRuns` prove that together they are one plain map keyed by
attribute set, `BucketGets` tells from the calls made when a lookup that creates nothing is right, and `BucketMap`
is the class that updates the tables in place. `BucketLocks` splits the calls at their lock regions and lets them
interleave; `BucketAlone` proves that a call nobody interrupts does what the undivided call does, and `StaleAliases`
says which aliases are stale.

**Observation.** `Observation` describes an observer one attribute set at a time (a `Track`) and proves what runs
of polls, exports and restarts report; `SyncObserver` is the class with its maps, proved to treat every attribute
set as its track. `DeltaReports`, `Accounting` and `Conservation` say what the reports add up to, for counters and
histograms.
`Timer` is the grid arithmetic and the timer, `Periodic` the worker loop, and `PeriodicTimes` holds its observers
against one log of the run's polls, in wall time.

**Prometheus.** `Exposition` prints the text format and reads it back (Prometheus, "Exposition formats", section
"Text-based format"). `NamedLists` sorts and finds repeated names, `PrometheusLabels` renders label lists,
`PrometheusRender`, `PrometheusPoints` and `PrometheusUnique` one family, `PrometheusCollector` and `PrometheusScrape`
a scrape. `PrometheusSuccess` says when a scrape succeeds, `PrometheusErrors` what its errors mean, `PrometheusBlocks`
reads it back family by family, and `HistogramLines` and `PrometheusSays` lead from recorded values to the parsed
text.

`Measure` holds the 64-bit wrap-around, `Wrappers` the option and result types, `Sequences` facts about sequences.

## What was found

Where the code falls short of a property one would expect, the exact condition is proved, and a concrete case.

- `get` on a list that is not canonical and whose order nobody has used answers "nothing" although its set has a
  bucket (`GetMissesAnUnseenOrder`). `GetIsExactOverRuns` says exactly when it answers right, from the calls made so
  far. It is never wrong when it answers something.
- `take` does not reset `count` (`TakeLeavesTheCount`); `CountIsExact` gives the exact excess.
- `Snapshot::sub` documents a saturating `sum` (src/atomic/histogram.rs:42) but subtracts plainly. On unsigned
  add-only runs the difference is never negative. For signed measures it can leave the range although every
  running sum fits (`SignedSubtractionOverflows`); `SubtractionFitsIff` says when.
- Clearing, taking or evicting between the two critical sections of `get_or_create` leaves an alias to a bucket
  that is no longer canonical (`StaleAliasHappens`). `StaleIffDisposedOf`: a filed alias is stale exactly when its
  bucket has been disposed of, and then its call was overtaken in just this way.
- Integer boundaries that become one double make a successful scrape repeat a sample
  (`CollapsedBoundariesRepeatALine`); `ScrapeIsUnambiguous` shows that a scrape repeats a sample exactly when the
  boundaries of some histogram point collapse.
- A shutdown exports only if an export is due: `ShutdownLosesAPoll` is a run that ends with a poll never exported,
  `ShutdownShipsIff` says when none is left.
- Once the grid has started, the timer's fallback can only return `now` itself: if a period from now can be
  represented, so can the next grid point (`NextIsLaterIff`).

## Hypotheses

- Interleavings are sequentially consistent, and the `start` and `end` counters do not wrap.
- Element hashes are arbitrary functions. Fingerprints are assumed to tell apart the finitely many lists a run
  uses (`Tells`); over all lists that would be impossible. Release semantics: an alias matches by fingerprint
  alone, as at src/bucket_map.rs:69 without the debug assertion.
- Measures are integers of 64 bits, u64 or i64, that wrap; doubles occur as ranks in their order.
- Number printing is any injective function into text without quotes, backslashes and line feeds that is not
  `+Inf` (`Tame`); the display form of values is any function.
- The clock read by the worker never runs backwards, and a period from any reading can be represented.
- In a scrape, histogram points come from histogram metrics and from no others, and their boundaries are finite as
  doubles. `ScrapedHistogramIsOk` and `ScrapedScalarIsOk` show that scraped sources are like that. Boundaries need
  not stay different.

## Model

| member | source | states |
|---|---|---|
| `HistogramSafety.LoadStartIsQuiet` | src/lock.rs:40-63 | Loading `end` before `start` and finding them equal means that no writer is between its bumps and every started writer has finished |
| `HistogramSafety.SuccessfulReadIsExact` | src/lock.rs:40-63 | If `start` is unchanged after the loads, the loaded values are those of exactly the writes finished when `start` was loaded |
| `HistogramSafety.FoldProgram` | src/atomic/histogram.rs:254-287 | A write touches the sum, its own bucket and the count once each, and min and max only when adding |
| `HistogramSafety.OwedIsExpected` | src/atomic/histogram.rs:254-287 | Cell updates of different writers may interleave: once all have finished, each cell holds what the writes add up to |
| `HistogramSafety.StepKeepsInv` | src/lock.rs:32-63 | Every atomic step of every writer, reader and taker keeps the protocol's invariant |
| `HistogramSafety.RunKeepsInv` | src/lock.rs:32-63 | The invariant holds in every reachable state |
| `HistogramTheorems.SnapshotIsOneInstant` | src/lock.rs:40-63 | Every returned snapshot is the content of its generation at one instant of the run, made of whole writes only |
| `HistogramTheorems.SnapshotTotalsAgree` | src/atomic/histogram.rs:106-131 | In every interleaving a snapshot's bucket counts sum to its count modulo 2^64, and count and sum belong to the same writes |
| `HistogramTheorems.SnapshotExtremaAgree` | src/atomic/histogram.rs:106-131 | In every interleaving the extrema of a returned snapshot are the least and the greatest value added by the writes it reports, and are there exactly while its count is not zero |
| `HistogramTheorems.RunKeepsTakers` | src/atomic/histogram.rs:237-243 | Every retired generation has exactly one taker, and the live one none |
| `HistogramTheorems.TakeReportsExactly` | src/atomic/histogram.rs:237-243 | Of the writes finished in its generation, a take reports exactly those whose ticket is below the `start` it loaded |
| `HistogramInstants.LoadInstant` | src/lock.rs:40-63 | Every successful read reports exactly the writes that had started when it loaded `start` |
| `HistogramInstants.LostIffLate` | src/atomic/histogram.rs:237-269 | A write to a generation that was taken loaded the pointer before the swap; it is reported exactly when it bumped `start` before the take's successful load of `start`, and lost exactly when it bumped it after, by the order of actions in the run |
| `HistogramTheorems.EveryWriteIsInOnePlace` | src/atomic/histogram.rs:237-269 | When all is over, each write is in exactly one of: the live generation, a take's report, the writes that entered a retired generation after its taker had read |
| `HistogramConservation.CellsAreConserved` | src/atomic/histogram.rs:237-269 | For the count, the sum and every bucket: the live cell plus what takes returned plus the exact loss is what was written, up to a multiple of 2^64 |
| `Histogram.CheckedBoundariesAreOrdered` | src/atomic/histogram.rs:180-192 | Comparing neighbours makes the whole list strictly increasing |
| `Histogram.BucketIndexSplits` | src/atomic/histogram.rs:204-206 | An index is the partition point exactly when all boundaries before it are below the value and none after it is |
| `Histogram.NetIsSplitByBuckets` | src/atomic/histogram.rs:254-287 | Every write is counted in exactly one bucket |
| `Histogram.BucketCountsSumToCount` | src/atomic/histogram.rs:106-131 | Bucket counts sum to the count modulo 2^64 for any log of writes |
| `Histogram.ExtremaAreOfTheAdds` | src/atomic/histogram.rs:106-131 | A snapshot has extrema exactly while its count is not zero; they are values that were added, and no value added lies outside them |
| `HistogramBucket.CheckBoundaries` | src/atomic/histogram.rs:180-192 | Accepts exactly the non-empty strictly increasing lists |
| `HistogramBucket.New` | src/atomic/histogram.rs:176-202 | Construction succeeds exactly on such lists and starts with no writes |
| `HistogramBucket.Bucket.FromChecked` | src/atomic/histogram.rs:194-202 | A new bucket's cells are those of an empty log |
| `HistogramBucket.Bucket.IndexOf` | src/atomic/histogram.rs:204-206 | Bisection finds the partition point |
| `HistogramBucket.Bucket.Add` | src/atomic/histogram.rs:254-269 | Cells go on to be what the log with one more add adds up to |
| `HistogramBucket.Bucket.Sub` | src/atomic/histogram.rs:274-287 | Likewise for a subtraction; the extrema stay |
| `HistogramBucket.Bucket.Current` | src/atomic/histogram.rs:220-222 | The snapshot is that of the log: its bucket counts sum to its count, and its extrema are the least and greatest value added |
| `HistogramBucket.Bucket.Take` | src/atomic/histogram.rs:237-243 | Reports the old log's snapshot and leaves a fresh empty generation |
| `HistogramBucket.Bucket.Clear` | src/atomic/histogram.rs:290-292 | Leaves a fresh empty generation |
| `HistogramBucket.OneMoreWrite` | src/atomic/histogram.rs:254-287 | How each cell moves with one more write, wrap-around included |
| `HistogramDelta.DeltaIsExact` | src/atomic/histogram.rs:51-75 | A later snapshot minus an earlier one is the histogram of exactly the values added in between; no count saturates |
| `HistogramDelta.DifferenceSaturates` | src/atomic/histogram.rs:51-75 | Any two snapshots subtract count by count, each difference held at zero; the sum wraps and the extrema are dropped |
| `HistogramDelta.SumDoesNotUnderflow` | src/atomic/histogram.rs:69 | For unsigned values the plain subtraction of sums is the exact difference and never negative |
| `HistogramDelta.SubtractionFitsIff` | src/atomic/histogram.rs:69 | For any measure and whatever has wrapped, the subtraction stays in range exactly when adding the stored sum of what came in between to the earlier stored sum would; while the running sums fit, exactly when what came in between sums in range |
| `HistogramDelta.SignedSubtractionOverflows` | src/atomic/histogram.rs:69 | Three i64 adds with fitting running sums whose delta does not fit |
| `HistogramDelta.UnchangedOrGreater` | src/atomic/histogram.rs:23-31 | Between polls the snapshot is equal exactly when nothing was added, and otherwise greater by the derived comparison |
| `AtomicFloat.RunLinearizes` | src/atomic/float.rs:28-46 | Every run has one sequential order performing each finished call once, ending in the cell's bits and explaining every value read, spurious failure, ABA and early return included |
| `AtomicFloat.StepLinearizes` | src/atomic/float.rs:28-46 | Each step of the loop extends that order |
| `AtomicFloat.ConcurrentMin` | src/atomic/float.rs:85-97 | Concurrent `fetch_min` calls end at the least number among the initial value and all arguments; NaN is ignored |
| `AtomicFloat.ConcurrentMax` | src/atomic/float.rs:101-113 | Likewise for `fetch_max` and the greatest |
| `Model.PtrShortcutIsSound` | src/model.rs:89-133 | Comparing pointers first changes no answer of equality or order, if one address holds one text |
| `Model.ValueEq` | src/model.rs:142-151 | The derived order on values ties exactly on equal values |
| `Model.ValueFlip` | src/model.rs:142-151 | Swapping two values flips the comparison |
| `Model.ValueTrans` | src/model.rs:142-151 | The order on values is transitive, through nested arrays and pairs |
| `Model.AttributeOrderIsTotal` | src/model.rs:248-252 | The order on attributes is total and agrees with equality |
| `Model.TextOrderIsTotal` | src/model.rs:124-133 | So is the order on strings |
| `ModelOrder.TextIsLexicographic` | src/model.rs:124-133 | Texts are ordered lexicographically by their characters |
| `ModelOrder.ValueOrderIs` | src/model.rs:142-151 | One value is less than another if its kind is declared earlier, or within a kind: false before true, numbers by size, texts and lists lexicographically |
| `ModelOrder.AttributeOrderIs` | src/model.rs:248-252 | Attributes are ordered by key, then by value, none before any |
| `Ordering.SortedIsUnique` | src/bucket_map.rs:228-230 | An unstable sort has one possible outcome when the order tells elements apart |
| `Ordering.CanonIsTheSet` | src/bucket_map.rs:228-230 | Sort-then-dedup of two lists agrees exactly when they hold the same elements |
| `Fingerprint.CommutativeHash` | src/bucket_map.rs:23-37 | The loop computes the xor, wrapped sum and length of the element hashes |
| `Fingerprint.FingerprintIgnoresOrder` | src/bucket_map.rs:23-37 | Equal multisets have equal fingerprints, whatever the hash |
| `Fingerprint.FingerprintSteps` | src/bucket_map.rs:23-38 | The empty list's fingerprint is zero; one more attribute's hash goes in by xor and by addition modulo 2^64, and the length grows by one |
| `BucketRefinement.SameKeyIffSameSet` | src/bucket_map.rs:228-232 | Two lists are filed under one key exactly when they hold the same attributes |
| `BucketRefinement.CanonHashIsExact` | src/bucket_map.rs:234-240 | The stored hash is that of the canonical form, also when the raw hash is reused |
| `BucketRefinement.GetBucketSpec` | src/bucket_map.rs:190-220 | A lookup finds the set's bucket exactly when the list reaches it, and never another's |
| `BucketRefinement.GetOrCreateSpec` | src/bucket_map.rs:222-253 | Keeps the tables consistent, hands out the set's bucket, and changes no other |
| `BucketRefinement.WriteRefines` | src/bucket_map.rs:353-373 | A write updates the bucket of the list's attribute set in the plain map and nothing else |
| `BucketDraining.RemoveAliasesIsFilter` | src/bucket_map.rs:410-417 | Removing an entry's aliases one by one removes exactly the listed fingerprints |
| `BucketDraining.ListedIffOwned` | src/bucket_map.rs:287-349 | An alias belongs to an entry's bucket exactly when the entry lists it |
| `BucketDraining.RetainIsFilter` | src/bucket_map.rs:399-420 | The retain pass keeps exactly the accepted entries and exactly the aliases of buckets not evicted |
| `BucketDraining.VisitRefines` | src/bucket_map.rs:389-427 | A visit removes exactly the rejected buckets with their aliases, keeps one-to-one bookkeeping, and never takes `count` below zero |
| `BucketDraining.DrainRefines` | src/bucket_map.rs:376-449 | Clear and take leave an empty map; only clear resets `count` |
| `BucketRuns.CallRefines` | src/bucket_map.rs:352-486 | Each call does to the two tables what it does to the plain map |
| `BucketRuns.ReplyRefines` | src/bucket_map.rs:429-464 | The answers of take and reset are the plain map's |
| `BucketRuns.GetIsExactIff` | src/bucket_map.rs:476-485 | `get` answers like the plain map exactly when the set is absent or the list reaches its bucket; a value it returns is always right |
| `BucketRuns.GetMissesAnUnseenOrder` | src/bucket_map.rs:476-485 | After a write under `[a, b]`, `get` of `[b, a]` finds nothing |
| `BucketRuns.RunRefines` | src/bucket_map.rs:190-486 | After any run of calls the tables are consistent and equal to the plain map after the same run |
| `BucketRuns.CountIsExact` | src/bucket_map.rs:429-449 | `count` is the number of entries plus those `take` carried off since the last clear, so equal to it on runs without take |
| `BucketRuns.TakeLeavesTheCount` | src/bucket_map.rs:429-449 | After one write and a take the table is empty and the counter above zero |
| `BucketGets.KnownIffUsed` | src/bucket_map.rs:280-285 | After any run, a list's fingerprint is filed exactly when its attributes have been written or reset in some order that is not canonical since the set's bucket was created |
| `BucketGets.GetIsExactOverRuns` | src/bucket_map.rs:476-485 | After any run, `get` answers like the plain map exactly when the list is empty, its set is absent, the list is canonical, or such an order has been used since the bucket was created |
| `BucketRuns.SameBucketIffSameSet` | src/bucket_map.rs:222-253 | In every reachable state two non-empty lists get the same bucket exactly when their sets are equal |
| `BucketMap.Map.constructor` | src/bucket_map.rs:160-178 | A new map is consistent and empty |
| `BucketMap.Map.GetBucket` | src/bucket_map.rs:190-220 | The in-place lookup, in the source's order of tables, finds the set's bucket or nothing |
| `BucketMap.Map.GetOrCreate` | src/bucket_map.rs:222-253 | The in-place creation keeps the invariant and every other bucket's value |
| `BucketMap.Map.InsertCanon` | src/bucket_map.rs:287-325 | Extends the entry's aliases or files a new bucket and counts it |
| `BucketMap.Map.InsertDup` | src/bucket_map.rs:327-349 | Files the alias unless its fingerprint is filed already |
| `BucketMap.Map.Record` | src/bucket_map.rs:353-373 | Add, sub and set are the plain map's update; `count` moves with the entries |
| `BucketMap.Map.Reset` | src/bucket_map.rs:459-464 | Returns what the set's bucket held and leaves it initial, the touched flag unchanged |
| `BucketMap.Map.Get` | src/bucket_map.rs:476-485 | Never a wrong value; right exactly when the list reaches its bucket |
| `BucketMap.Map.Clear` | src/bucket_map.rs:376-386 | Leaves the empty map and a zero count |
| `BucketMap.Map.Take` | src/bucket_map.rs:429-449 | Hands over the canonical table and the touched bucket's value, and leaves the empty map with its count |
| `BucketMap.Map.VisitBucket` | src/bucket_map.rs:389-427 | Shows every bucket once, evicting exactly the rejected ones |
| `BucketMap.VisitKeepingAll` | src/bucket_map.rs:389-427 | A visit that rejects nothing leaves tables, flag and count as they were |
| `BucketLocks.RunKeepsExclusive` | src/bucket_map.rs:266-278 | In every interleaving a writer of either table excludes all other holders of its lock |
| `BucketLocks.NoDeadlock` | src/bucket_map.rs:376-449 | While anything is unfinished some unfinished call can move: locks nest canonical, then aliases |
| `BucketLocks.StepKeepsInv` | src/bucket_map.rs:247-250 | Every step keeps each alias explained by its live entry, by a drain about to clear it, or by a disposal between its two critical sections |
| `BucketLocks.RunKeepsInv` | src/bucket_map.rs:222-449 | That holds in every reachable state |
| `StaleAliases.RunKeepsKept` | src/bucket_map.rs:376-449 | In every reachable state, a bucket recorded as disposed of has been handed out and is not canonical, or about to be removed; buckets are never handed out again |
| `StaleAliases.StaleIffDisposedOf` | src/bucket_map.rs:247-250 | Seen with the canonical lock free, an alias's bucket is no longer canonical exactly when a clear, take or eviction has disposed of it; and then its call's canonical insert preceded, and its alias insert followed, that disposal |
| `BucketLocks.StaleAliasHappens` | src/bucket_map.rs:247-250 | A concrete run after which a lookup answers with a bucket no visit will see |
| `BucketAlone.CreatesAsOne` | src/bucket_map.rs:190-349 | Uninterrupted, the call split at its lock regions finds or creates what the undivided call does, tables and bucket |
| `BucketAlone.ClearsAsOne` | src/bucket_map.rs:376-457 | Uninterrupted, clearing and taking leave both tables empty |
| `BucketAlone.EvictsAsOne` | src/bucket_map.rs:389-427 | Uninterrupted, an eviction leaves the tables that the undivided visit leaves |
| `Observation.OthersDoNotMatter` | src/observe.rs:152-202 | An observer's results do not change when scrapes and other observers' non-destructive polls, exports and restarts are left out |
| `Observation.ExportsPartition` | src/observe.rs:235-244 | Exports in order, and then what waits, are exactly what the observer would hold had it never exported |
| `Observation.SequenceIncreases` | src/observe.rs:189-201 | One set's readings carry strictly increasing poll numbers across exports; the counter is the number of polls |
| `Observation.ReadingsAreStamped` | src/observe.rs:189-201 | A reading numbered n carries the time of the n-th poll since the restart |
| `Observation.DeltasAreReported` | src/observe.rs:158-184 | A delta observer's readings are the deltas of the values its polls saw |
| `Observation.DirectReportsWhatItSees` | src/observe.rs:152-202 | A direct observer reports exactly the values its polls saw |
| `Observation.DestructiveReportsWhatItFinds` | src/observe.rs:204-233 | In every run a destructive observer's readings, with their times and numbers, are exactly what its polls found: of the set without attributes the value whenever it had been touched, initial or not, of any other set the value unless it was initial |
| `Observation.TouchedIffNoted` | src/bucket_map.rs:353-473 | In every run the set without attributes counts as touched exactly when something has been recorded for it since it was last taken, cleared or evicted |
| `SyncObserver.VisitShowsAll` | src/observe.rs:158-199 | A visit shows each attribute set of the plain map once, with its value, the empty set only if touched |
| `SyncObserver.New` | src/observe.rs:116-140 | Refuses exactly delta mode for gauges |
| `SyncObserver.Observer.Watching` | src/observe.rs:116-140 | A new observer has no readings and no last values |
| `SyncObserver.Observer.Restart` | src/observe.rs:143-150 | Forgets readings, last values and the poll number, and takes the start time |
| `SyncObserver.Observer.Observe` | src/observe.rs:152-202 | Every attribute set's state becomes what one poll makes of it; the source is untouched unless the mode is destructive, and empty if it is |
| `SyncObserver.Observer.VisitOne` | src/observe.rs:158-199 | The callback records at most one reading for the set shown and none for any other |
| `SyncObserver.Observer.ObserveDestructive` | src/observe.rs:204-233 | Takes everything; adds one reading for the set without attributes if it was touched, initial or not, and one for every other set whose value is not initial |
| `SyncObserver.Observer.Export` | src/observe.rs:235-244 | Hands over exactly the readings recorded since the last export |
| `DeltaReports.DeltasTelescope` | src/observe.rs:161-184 | Deltas of unsigned values sum to the last value plus the values standing just before each drop |
| `DeltaReports.DeltasSumToTheLast` | src/observe.rs:161-184 | They sum to the last value exactly when it never drops |
| `DeltaReports.CounterDeltasTelescope` | src/observe.rs:152-202 | The same for everything a delta observer reported in a whole run |
| `DeltaReports.MeasureDeltasTelescope` | src/observe.rs:152-202 | The same for any measure, signed ones included: every delta reported is a value of the measure, and they telescope up to a multiple of 2^64 |
| `DeltaReports.HistogramDeltas` | src/observe.rs:161-184 | Deltas of a growing histogram are the histograms of what was added in between |
| `Accounting.PortionsPartition` | src/bucket_map.rs:429-464 | What destructive polls and resets took from a set's cell, and then the live cell, are exactly the writes to the set, in order |
| `Accounting.UntouchedIsInitial` | src/bucket_map.rs:429-464 | The bucket without attributes is initial whenever it is untouched |
| `Accounting.GivesItsHoldings` | src/observe.rs:204-233 | What an emptied cell does not give away is empty or reads as initial |
| `Accounting.HistogramConservation` | src/observe.rs:204-233 | For add-only histograms the reports are the histograms of the non-empty portions taken, and the portions with the live cell are exactly the writes |
| `Accounting.DrainerHoldsWhatItReports` | src/observe.rs:204-233 | What a destructive observer's polls report is exactly its readings, exported or waiting, other destructive observers and resets included |
| `Accounting.DrainerHoldsWhatIsReported` | src/observe.rs:204-233 | With one destructive observer, that is all that destructive polls report |
| `Accounting.HistogramDeltasAreExact` | src/observe.rs:152-184 | In every add-only run a delta observer reports for each poll exactly the histogram of the values added since the poll before |
| `Conservation.ScalarCellsAreTheirLogs` | src/bucket_map.rs:353-373 | A cell wrapping at every write holds the wrapped net of its writes |
| `Conservation.ReadingsAgree` | src/observe.rs:152-233 | Observers of 64-bit cells hold and export the same readings as observers of the logs |
| `Conservation.ResetsAgree` | src/bucket_map.rs:459-464 | Resets of 64-bit cells return the wrapped nets of the logs they empty |
| `Conservation.CounterConservation` | src/observe.rs:204-233 | In every run and for every attribute set, what destructive polls reported plus what resets returned plus the 64-bit cell is the net of the writes, up to a multiple of 2^64 |
| `Conservation.ExportsConserve` | src/observe.rs:204-244 | With one destructive observer: that observer's readings, exported or waiting, plus what resets returned plus the 64-bit cell is the net of the writes, up to a multiple of 2^64 |
| `Conservation.AllExportsConserve` | src/observe.rs:204-244 | The same for any number of destructive observers racing for the set, summing over all their readings |
| `Timer.ProductFits` | src/collect/timer.rs:75-76 | The unchecked product cannot overflow 128 bits for any tick the timer computes |
| `Timer.TickIsSmall` | src/collect/timer.rs:62-64 | Ticks stay below the bound that makes the product safe |
| `Timer.TickIsNext` | src/collect/timer.rs:62-64 | The next tick lies strictly after now, and at most a period after it once the grid has started; before, it is the first after the start |
| `Timer.NextIsOnGrid` | src/collect/timer.rs:62-73 | Off the fallback, the new deadline is a grid point after now, within a period |
| `Timer.NextIsLaterIff` | src/collect/timer.rs:62-73 | The deadline is later than now exactly when the next grid point or now plus a period can be represented; off the grid it is a period from now or now itself, and after the start never the former |
| `Timer.GridSteps` | src/collect/timer.rs:62-73 | Different grid points are at least a period apart |
| `Timer.GridTimer.constructor` | src/collect/timer.rs:42-48 | A new timer is due at its start |
| `Timer.GridTimer.Advance` | src/collect/timer.rs:58-60 | The deadline becomes the specified one; while a period from now can be represented the timer is then no longer due, and after the start its deadline is on the grid |
| `Timer.GridTimer.Next` | src/collect/timer.rs:62-73 | Seconds-and-nanoseconds arithmetic with its checks computes the specified deadline, always an instant |
| `Timer.GridTimer.Mul` | src/collect/timer.rs:75-85 | Returns exactly period times n whenever the seconds fit 64 bits, and nothing otherwise |
| `Periodic.ObserveKeepsInv` | src/collect/periodic.rs:339-349 | Polling keeps deadlines on the grid, a period apart, and times increasing |
| `Periodic.RunKeepsInv` | src/collect/periodic.rs:312-337 | So does every run of the loop |
| `Periodic.AlignedNeverLate` | src/dto.rs:61-71 | In every run an aligned time is never after the recorded one and equals the wall time of its poll's own deadline exactly while no tick has been skipped |
| `Periodic.SeriesTimesIncrease` | src/dto.rs:61-71 | In every run, readings numbered increasingly and stamped by an observer's polls get strictly increasing exported timestamps, also across the fallback past 32 bits |
| `Periodic.ObserverTimesIncrease` | src/dto.rs:61-71 | The same for everything an observer polled by the worker exports or holds for any attribute set, whatever else happens to the metric |
| `PeriodicTimes.ObserversRecordTheLog` | src/collect/periodic.rs:312-395 | In every run each observer starts at the wall time of the deadline standing when it was added, has been polled by every poll of the run since, at the wall time of that poll's own instant, and has shipped what was there at the last export |
| `PeriodicTimes.PollsAreMadeByRounds` | src/collect/periodic.rs:312-349 | Every poll of a run was made by a round at its first reading of the clock, with the deadline reached |
| `PeriodicTimes.ExportedTimes` | src/dto.rs:61-71 | With alignment off, or past 32 bits, a reading is exported under the wall time of the poll that made it; otherwise under the wall time of the observer's first deadline plus a period for each poll since |
| `PeriodicTimes.ExportedTimesIncrease` | src/dto.rs:61-71 | With alignment on or off, an observer's exported timestamps strictly increase, for every attribute set and whatever else happens to the metric |
| `Periodic.ShutdownShipsIff` | src/collect/periodic.rs:389-393 | A run that ends in a shutdown leaves nothing waiting exactly when an export was due at the shutdown or nothing waited before it; if none was due it leaves everything as it was |
| `Periodic.ShutdownLosesAPoll` | src/collect/periodic.rs:389-393 | A run of two rounds whose shutdown leaves a recorded poll unshipped |
| `Periodic.Worker.constructor` | src/collect/periodic.rs:193-207 | A new worker has no observers and both timers due at the start |
| `Periodic.Worker.MaybeObserve` | src/collect/periodic.rs:339-349 | Polls every observer with the derived wall time if due, then advances the timer |
| `Periodic.Worker.MaybeExport` | src/collect/periodic.rs:351-379 | Exports every observer if due, then advances the timer |
| `Periodic.Worker.Handle` | src/collect/periodic.rs:381-395 | Adds an observer at the next deadline; a shutdown exports if due and ends the loop |
| `Periodic.Worker.Block` | src/collect/periodic.rs:312-337 | The event loop is the specified run over its rounds |
| `NamedLists.NeighboursSuffice` | src/prometheus/dto.rs:303-312 | Once sorted, comparing neighbours finds every repeated name |
| `NamedLists.SortedIffSameMap` | src/prometheus/dto.rs:303-312 | Lists without repetitions are arranged alike by sorting exactly when they stand for one map |
| `Exposition.MetricNamesAreSanitized` | src/prometheus/dto.rs:227-240 | A sanitized metric name is well-formed, and unchanged exactly when it was |
| `Exposition.LabelNamesAreSanitized` | src/prometheus/dto.rs:246-262 | A sanitized label name is well-formed and not reserved, and unchanged exactly when it was |
| `Exposition.SanitizedCharacters` | src/prometheus/dto.rs:246-262 | A sanitized label name keeps each letter, digit and underscore, has an underscore for any other character and one before a leading digit, and the prefix `label` exactly when it would start with two underscores |
| `Exposition.SanitizeMetricName` | src/prometheus/dto.rs:227-240 | The loop keeps each letter, digit, underscore and colon, puts an underscore for any other character and one before a leading digit |
| `Exposition.SanitizeLabel` | src/prometheus/dto.rs:246-262 | The loop and the prefix compute the sanitized label name |
| `Exposition.EscapeInto` | src/prometheus/dto.rs:327-346 | The loops append the escaped text |
| `Exposition.ReadValueInverts` | src/prometheus/dto.rs:337-346 | Reading an escaped value gives the value back, for every text |
| `Exposition.EscapedStaysOnTheLine` | src/prometheus/dto.rs:327-346 | Escaped text has no line feed |
| `Exposition.ReadLabelsInverts` | src/prometheus/dto.rs:311-324 | A printed label list reads back as the list, whatever follows it |
| `Exposition.PrintLabelsIsInjective` | src/prometheus/dto.rs:311-324 | Different label lists print differently |
| `Exposition.ReadSampleInverts` | src/prometheus/dto.rs:102-121 | A printed sample line reads back as the sample |
| `PrometheusLabels.Gather` | src/prometheus/dto.rs:284-300 | Collects a label for each attribute with a value, its key sanitized, a string as it is and any other value in its display form; or stops at the first bad name with its error |
| `PrometheusLabels.Print` | src/prometheus/dto.rs:311-324 | The loop prints the label list |
| `PrometheusLabels.Render` | src/prometheus/dto.rs:279-325 | The whole of `render_labels`: succeeds exactly on renderable attributes, and then prints the list of their labels, by name |
| `PrometheusLabels.RendersIff` | src/prometheus/dto.rs:264-310 | Succeeds exactly when no valued key is empty, no name is reserved, and no sanitized name occurs twice |
| `PrometheusLabels.LabelsParseBack` | src/prometheus/dto.rs:279-325 | The string parses back to the name-sorted list of labels |
| `PrometheusLabels.SameStringIffSameMap` | src/prometheus/dto.rs:91-100 | Two rendered strings are equal exactly when the label maps are |
| `PrometheusLabels.LabelsSayTheAttributes` | src/prometheus/dto.rs:279-325 | The string parses to the labels of the attributes with a value and no others: sanitized key, and as text the string itself or the value's display form |
| `PrometheusLabels.SameStringIffSameLabels` | src/prometheus/dto.rs:91-100 | Two rendered strings are equal exactly when the attributes carry the same labels |
| `PrometheusLabels.ErrorNamesTheFault` | src/prometheus/dto.rs:284-309 | An error is about the first attribute whose key is empty or whose name is reserved, or, if there is none, about a sanitized name that two attributes share |
| `PrometheusRender.FamilyNameIsOk` | src/prometheus/dto.rs:54-64 | Only the empty name has no family name; a family name is well-formed and is the sanitized name, with `_total` added once for a counter whose name does not end in it |
| `PrometheusRender.WriteBucket` | src/prometheus/dto.rs:131-144 | The pushes of a bucket line make up the sample with `le` last |
| `PrometheusRender.WriteHistogram` | src/prometheus/dto.rs:130-169 | Appends the cumulative buckets, `+Inf`, sum and count |
| `PrometheusRender.ArrangedIsOk` | src/prometheus/dto.rs:76-100 | A successful arrangement is sorted by label string, no two points having the same |
| `PrometheusRender.ArrangedIsComplete` | src/prometheus/dto.rs:76-100 | It holds exactly the metric's points, each as often as it stands there |
| `PrometheusRender.RenderInto` | src/prometheus/dto.rs:73-123 | Appends the whole family's text, or returns the first error and appends nothing |
| `PrometheusPoints.SamplesAreLines` | src/prometheus/dto.rs:108-169 | A scalar point prints one line with its value; a histogram prints, in order, a bucket line with the running total for each boundary, the `+Inf` line, the sum and the count, numbers spelled as the format asks |
| `PrometheusPoints.RunningTotalSaturates` | src/prometheus/dto.rs:131-134 | The running total is the sum of the counts, held at the greatest 64-bit number |
| `PrometheusUnique.HistogramSamplesDifferIff` | src/prometheus/dto.rs:130-169 | A histogram point's samples all differ exactly when its boundaries differ as doubles |
| `PrometheusUnique.FamilySamplesDiffer` | src/prometheus/dto.rs:73-123 | A family's samples all differ in name or label map exactly when each of its points tells its boundaries apart |
| `PrometheusUnique.FamilyReadsBack` | src/prometheus/dto.rs:73-123 | A family's text reads back as its samples, under names it may emit, all different exactly when its points tell their boundaries apart |
| `PrometheusCollector.Scrape` | src/prometheus/collector.rs:41-69 | Reads a source's buckets or the first conversion error, and leaves the source exactly as it was |
| `PrometheusCollector.MergeKeepsFamilies` | src/prometheus/collector.rs:155-168 | Merging keeps families sorted, one per name, each under its own family name |
| `PrometheusCollector.MergeSources` | src/prometheus/collector.rs:148-169 | The loop over the sources merges them or returns the first error |
| `PrometheusCollector.CheckNames` | src/prometheus/collector.rs:172-186 | The loop over suffixes refuses the first sample name emitted twice |
| `PrometheusCollector.EmitAllIsExact` | src/prometheus/collector.rs:172-186 | The check passes exactly when no sample name belongs to two families |
| `PrometheusCollector.Render` | src/prometheus/collector.rs:147-193 | The whole scrape, errors in their order |
| `PrometheusScrape.MergeAllHolds` | src/prometheus/collector.rs:147-169 | The merged families hold exactly the points the sources offer, under their family names |
| `PrometheusScrape.ScrapeIsUnambiguous` | src/prometheus/collector.rs:147-193 | A successful scrape parses into exactly the samples printed by the points of the sources; no two have the same name and label map, across families and suffixes, exactly when every histogram point's boundaries are different as doubles |
| `PrometheusScrape.CollapsedBoundariesRepeatALine` | src/prometheus/dto.rs:187-213 | Two integer boundaries that convert to one double: the scrape succeeds and repeats a sample |
| `PrometheusScrape.ScrapedHistogramIsOk` | src/prometheus/collector.rs:41-69 | A scraped histogram has finite boundaries, and different ones if the conversion keeps neighbours apart |
| `PrometheusScrape.ScrapedScalarIsOk` | src/prometheus/collector.rs:41-69 | A scraped counter or gauge has scalar points only |
| `HistogramLines.ConvertedIsOk` | src/prometheus/dto.rs:187-213 | A conversion that keeps neighbouring boundaries apart and finite succeeds and gives a point fit to be scraped |
| `HistogramLines.BucketsBelow` | src/prometheus/dto.rs:130-144 | The buckets up to a boundary hold exactly the values at most that boundary |
| `HistogramLines.CumulativeIsExact` | src/prometheus/dto.rs:131-134 | The running total never saturates on fewer than 2^64 adds |
| `HistogramLines.LinesPrintTheCounts` | src/prometheus/dto.rs:130-169 | The lines of a recorded histogram are: for each boundary the number of values at most it, then their number under `+Inf`, their sum as the cell holds it, and their number |
| `HistogramLines.LinesNeverDecrease` | src/prometheus/dto.rs:130-144 | The numbers at the boundaries never decrease |
| `PrometheusSays.ScrapeSaysTheScalars` | src/prometheus/collector.rs:147-193 | In the parsed text of every successful scrape, for every counter or gauge and attribute set, there is the sample with the family name, the labels of the attributes and the cell's value |
| `PrometheusSays.ScrapeSaysTheCounts` | src/prometheus/collector.rs:147-193 | For every add-only histogram and attribute set: each boundary's `le` line says exactly how many recorded values are at most it, `+Inf` and `_count` how many there are, and `_sum` what they add up to |
| `PrometheusSuccess.FamilyRendersIff` | src/prometheus/dto.rs:73-97 | A family renders exactly when it has a name, its points can be labelled (`le` being reserved on histograms alone), and no two points carry the same labels |
| `PrometheusSuccess.ScrapeSucceedsIff` | src/prometheus/collector.rs:147-193 | A scrape succeeds exactly when every source could be read, the metrics are named, those under one family name have the same identity and kind, those under different ones claim no sample name in common, and the series of each family can be labelled and told apart |
| `PrometheusSuccess.SilentIffNothingShown` | src/prometheus/collector.rs:41-69 | A source has nothing to report exactly when its visit shows nothing, and can be read exactly when every value shown converts |
| `PrometheusSuccess.SilentSourcesRenderNothing` | src/prometheus/collector.rs:61-63 | Sources with nothing to report render an empty text |
| `PrometheusErrors.ScrapeErrorNamesAFault` | src/prometheus/collector.rs:147-193 | The error of a failed scrape is that of a source which could not be read, or names a fault that the metrics have |
| `PrometheusErrors.FaultsAreFoundInOrder` | src/prometheus/collector.rs:147-193 | Unreadable sources, missing names and disagreements are reported before sample names claimed twice, and those before the faults of series |
| `PrometheusSuccess.FirstFailureIsReported` | src/prometheus/collector.rs:41-60 | A source that cannot be read reports the first value shown that cannot be converted |
| `PrometheusBlocks.ScrapeReadsAsFamilies` | src/prometheus/collector.rs:187-190 | A successful scrape reads back family by family, strictly sorted by name: description, kind, and exactly the lines of the points offered under that name, in the order of their label strings |

## Left out

- Weak memory orderings and fences: interleavings are sequentially consistent.
- Wrap-around of the sequence lock's `start` and `end` counters and of `seq_id`.
- IEEE arithmetic: float sums are not modelled, float cells only as ranks with NaN; NaN values and boundaries.
- `hashbrown` and `BTreeMap` internals: a hash table is a list found by stored hash and predicate, visited in insertion order; a tree map is a list sorted by name.
- `Arc`, `ArcSwap` and `RwLock` internals: references are indices, a swap and a lock acquisition are steps. Lock poisoning is not modelled.
- A bucket map holding histogram objects: its cells are values, and a histogram cell is known by its log of writes.
- Concurrency inside one bucket-map call other than its lock regions: values are updated a call at a time.
- Overflow of `SystemTime` additions and of period times poll number in `align_ts`, which the source lets panic.
- Conservation.CounterConservation: runs of writes, resets, lookups, polls, exports and scrapes; an application that itself clears, takes, evicts or sets discards values by design.
- Conservation.ExportsConserve: the observer is not restarted within the run; a restart, made once on registration, discards its readings by design.
- Conservation.AllExportsConserve: likewise, for every destructive observer.
- Accounting.HistogramConservation: without resets, which histograms do not offer, and without clearing or evicting.
- Contents of export batches, senders, channels, gating, threads and logging: a poll or an export is an event, and an exported batch may be dropped afterwards.
- The worker's observers as objects: the worker is described by the calls it makes on them, in order.
- Conversion of integers to doubles and printing of numbers: given functions with the stated properties.
- The order among equal names of an unstable sort, which only matters when an error is reported anyway.
- `src/console`, `src/otel`, `src/metric.rs`, `src/atomic/integers.rs` and `src/collect/mod.rs`: field-by-field mapping and thin wrappers, with easy properties only.
- The registry of destructive identities in the periodic collector.
