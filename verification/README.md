# DockDoe verification

DockDoe samples the containers of Docker hosts, keeps raw samples and trend rows in a database, draws history charts
from them, starts and stops compose stacks in dependency order, follows other nodes over a server-sent event stream,
and notifies about container state changes. This project models the parts of it that hold state and arithmetic, and
proves what they promise over whole runs.

| part | modules | what is modelled |
|---|---|---|
| Trend pipeline | `Stats`, `Bucketer`, `BucketTrace`, `BucketTimes`, `TrendTable`, `TableInvariants`, `Batching`, `Migration`, `History`, `Means`, `EndToEnd`, `Medians`, `RowHeads`, `StackCharts` | samples, buckets, the wide trend table, the legacy migration, history queries |
| Collection | `Window`, `Attainment`, `FullResolution`, `Collector`, `CollectorRun` | request windows, the collection loop, retention |
| Stack scheduler | `Topo`, `TopoGraph`, `TopoReplicas`, `Scheduler` | the start order, and starting and stopping against a daemon that may answer anything |
| Event stream | `Sse`, `SseStandard`, `SsePrint` | the incremental parser, sections 9.2.5 and 9.2.6 of the WHATWG HTML Standard, a printer |
| Notifications | `Notify` | the debouncing tracker |

`Prelude` and `Model` hold shared datatypes and facts about sequences, sets and division.

## Reading the model

- **Imperative code is imperative here.** `Bucketer.Bucketer`, `Notify.Tracker`, `Sse.SseParser`, `TrendTable.TrendStore`,
  `Migration.Database`, `Collector.SampleStore`, `Collector.SharedDashboard` and `Collector.Collector` are classes whose
  methods update fields, and `Topo.TopoOrder`, `Scheduler.StartInOrder` and `CollectorRun.Run` are methods with loops.
  Each is proved equal to a specification function or step relation, and the lemmas are about those.
- **The trend table** is a map from `(host, name, bucket start)` to a wide row. Each SQL statement is a function on that
  map, with SQL's NULL written as `None`, including the scalar `min` and `max` that give NULL if either side is NULL.
- **Runs.** `BucketTrace.IsRun` relates pushes, states and flushes of one bucketer. The rows of a flush come in any
  order, as a hash table drains. Names of a container may change and the clock may step back within a run.
  `EndToEnd.HostRun` is one such run; the results on charts take any list of them, one for each start of the program.
- **Attribution.** An accumulator keeps the name and stack under which its container id and metric were first seen in
  the bucket, so `BucketTrace.GoesBy` attributes a reading to that name, not to the one it carries itself.
- **Replicas.** Members of a stack may share a service name. `TopoReplicas.Held` says for how many rounds a member is
  held back: some service it wants has all its replicas held back for one round less. `TopoReplicas.Precedes` compares
  two members by those rounds, then by the listing, and decides the order for every list of distinct members.
  `TopoGraph.Uniform` is the special case in which replicas want the same in-stack services, and
  `TopoGraph.UniqueNamesAreUniform` the one of unique names; rows that need it say "where replicas agree".
- **The daemon and the clock** are oracles: any answer and any time may come. `Scheduler.Daemon` records every exchange,
  and the scheduler's results are about that record.
- **Interleaving.** A `Collector.Persisted` is one cycle's insert and prune. Another host's insert between the two is the
  same run with the prune as a cycle of its own without containers.

## Where the code and its comments differ

- `topo_order` says it falls back on a cycle or a missing dependency. A dependency outside the stack is ignored, so a
  fallback always means a genuine cycle (`TopoGraph.FallbackReachesCycle`).
- `topo_order` promises that every member comes after the services it depends on. It does exactly when each dependency
  has precedence over its dependents (`TopoReplicas.PromiseIff`). Replicas that declare different dependencies can break
  that without any cycle: `TopoReplicas.DisagreeingReplicas` is such a stack. For every input an ordered member
  follows one replica of each service (`TopoGraph.SomeReplicaFirst`), and what falls back is the largest deadlock
  (`TopoGraph.FallbackIsLargestDeadlock`).
- The grouping of charts aims at 1440 points. `Attainment.AnswerExceedsIff` says for every request and every bucket width
  when an answer can have more than a given number of points. The caps are 2880 points from raw samples, 1442 from trend
  rows, and 1441 from rows of whole minutes, as by default; `Attainment.CapsAreReached` gives samples and tables that
  reach them. Samples at least a second apart give at most 1443 (`Attainment.SpacedAnswerBounded`).
- The migration loop would not end if a legacy bucket started at the largest 64-bit value (`Migration.LoopEndsIff`).
- A legacy row of an unknown metric makes the migration write a row without values, which a live insert would not
  (`Migration.MigrationKeys`, `Migration.UnknownHasNoValues`). A metric whose legacy rows have no samples at all gets a NULL median, where a live
  insert keeps the first one (`Migration.MigrationMatchesPivot`).
- Raw charts are complete as long as the clock does not step back; `CollectorRun.SteppedBackClockLoses` shows that it
  matters, and `Collector.RawCompleteIff` says for any clock when a window is complete.

## Model

| member | source | states |
|---|---|---|
| Topo.TopoOrder | src/docker.rs:541-566 | The layering loop, for any list of members, returns the ordered members followed by the fallback. |
| Topo.OrderIsPermutation | src/docker.rs:541-566 | No member is lost, invented or repeated, with or without cycles. |
| Topo.PlanIsLayers | src/docker.rs:547-564 | The loop computes the layers of a fixpoint iteration, each in listing order, and falls back on what the fixpoint never reaches; the number of members bounds its rounds. |
| TopoGraph.OrderIsDepthSort | src/docker.rs:541-566 | Where replicas agree, the order is by length of the longest dependency path, then listing position, and the fallback is exactly the members that reach a cycle, in listing order. |
| TopoGraph.FallbackIffCycle | src/docker.rs:554-558 | Where replicas agree, there is a fallback if and only if the in-stack dependency graph has a cycle. |
| TopoGraph.FallbackReachesCycle | src/docker.rs:538-558 | For every input, each member of the fallback depends in the end on a cycle. |
| TopoGraph.FallbackIsLargestDeadlock | src/docker.rs:549-558 | For every input, the fallback is a set whose members all wait for services entirely inside it, and it contains every such set. |
| TopoGraph.LongPathRepeats | src/docker.rs:541-566 | A dependency path at least as long as the number of services visits one of them twice. |
| TopoGraph.DoneIffNoPath | src/docker.rs:547-564 | Where replicas agree, a member is ordered within r rounds if and only if no dependency path of r edges starts at it. |
| TopoGraph.LongestOrCycle | src/docker.rs:541-566 | Every member reaches a cycle or has a longest dependency path, shorter than the stack. |
| TopoGraph.SomeReplicaFirst | src/docker.rs:538-563 | For every input, an ordered member comes after some replica of each in-stack service it depends on. |
| TopoGraph.EveryReplicaFirst | src/docker.rs:538-563 | Where replicas agree, it comes after all replicas of each. |
| TopoReplicas.DoneIffNotHeld | src/docker.rs:547-564 | For every stack, a member is ordered within r rounds if and only if it is not held back for r rounds. |
| TopoReplicas.PositionIff | src/docker.rs:541-566 | For every list of distinct members, with cycles and disagreeing replicas alike, one member comes before another if and only if it is held back for fewer rounds, or for as many and is listed earlier. |
| TopoReplicas.PromiseIff | src/docker.rs:538-563 | For every list of distinct members, each comes after every replica of every in-stack service it depends on if and only if those replicas have precedence over it. |
| TopoReplicas.DisagreeingReplicas | src/docker.rs:559-561 | A stack without any cycle, all of whose members are ordered, in which a member comes before a replica it depends on. |
| TopoGraph.UniqueNamesAreUniform | src/docker.rs:541-566 | Unique service names are a case of agreeing replicas. |
| Scheduler.StartMember | src/docker.rs:333-353 | One member's exchanges with the daemon: found running, or its conditions awaited in order and then a start attempted. |
| Scheduler.StartPass | src/docker.rs:330-354 | A pass makes these exchanges for every member in order, and counts the refused starts. |
| Scheduler.PauseIffNothingStarted | src/docker.rs:365-369 | A failed pass is followed by a pause if and only if its record holds no successful start. |
| Scheduler.WaitsInTurn | src/docker.rs:335-345 | A member's conditions are awaited one after the other as declared, only conditions beyond a plain start, and only on services of the stack. |
| Scheduler.RefusedAreNotRunning | src/docker.rs:346-352 | The refused starts of a pass are its members whose last exchange does not show them running. |
| Scheduler.StartedOnlyIfDown | src/docker.rs:332-346 | A container is started only after it was found not running in that pass, and is not found running anywhere in it; ids are distinct. |
| Scheduler.StartInOrder | src/docker.rs:317-371 | The loop's record is failed passes, each followed by a pause if nothing was started, and a last pass; the failures reported are the members whose last exchange there does not show them running, and where there are any the deadline has passed. |
| Scheduler.StopInOrder | src/docker.rs:378-392 | Every member is told to stop once, in reverse order; the failures reported are the entries of the record that are refused stops, and there are none if and only if every stop succeeded. |
| Scheduler.ErrorsAreFailures | src/docker.rs:381-386 | The counter of the stop loop is the number of positions of its record that hold a refused stop. |
| Scheduler.NoErrorsIff | src/docker.rs:381-391 | The counter is zero if and only if every position of the record holds a successful stop. |
| Scheduler.StackAction | src/docker.rs:219-236 | A stop reports the stops its record shows refused. A restart stops everything, then starts everything, and like a start reports the members whose last exchange does not show them running. |
| Scheduler.SettledIffPrecedes | src/docker.rs:329-354 | Against any daemon and for any dependencies, when a pass issues a start, the members found running or attempted earlier in the pass are exactly those that precede the member started; ids are distinct. |
| Scheduler.StartsFollowDependencies | src/docker.rs:329-354 | When a pass issues a start, each condition the member declares was awaited before; where replicas agree and the member reaches no cycle, every replica it depends on was found running or attempted earlier in the pass. |
| Scheduler.NoFailureIffAllRunning | src/docker.rs:346-358 | A pass reports no failure if and only if in its log every member's last exchange finds it running or starts it. |
| Scheduler.StoppedIffPrecedes | src/docker.rs:378-387 | For any dependencies, one member is stopped before another if and only if the other precedes it; ids are distinct. |
| Scheduler.StopsDependentsFirst | src/docker.rs:378-387 | Where replicas agree, every member that reaches no cycle is stopped before each replica it depends on. |
| Scheduler.LastReplicaIsAwaited | src/docker.rs:320-323 | A condition on a service with replicas is awaited on the one listed last. |
| Scheduler.WaitsCover | src/docker.rs:335-345 | Every declared condition other than plain start on an in-stack service is awaited. |
| Sse.SseParser.Push | src/federation.rs:524-548 | One call returns the events, and leaves in the buffer what the specification leaves; the buffer never holds a carriage return or a double line feed between calls. |
| Sse.ReadBlock | src/federation.rs:534-546 | A block's fields, read in a loop, give at most one event, and none without data. |
| Sse.TrimStartIs | src/federation.rs:538 | Of an event name exactly the leading whitespace goes. |
| Sse.CutConcat | src/federation.rs:532-547 | Parsing a text in two pieces, carrying the buffer over, gives the events and rest of parsing it whole. |
| Sse.ChunkInvariance | src/federation.rs:524-548 | However a stream is split into chunks, the concatenated events and the final buffer are those of one call with all of it, and the buffer is settled. |
| Sse.FeedSettles | src/federation.rs:528-532 | Every call leaves a buffer without a carriage return and without a double line feed. |
| SseStandard.CutIsLineByLine | src/federation.rs:532-547 | Cutting blocks at double line feeds gives the events, and leaves the pending fields, of an interpreter that reads line by line and dispatches at blank lines. |
| SseStandard.AgreesIffIntended | src/federation.rs:537-543 | A line is read as the WHATWG HTML Standard reads it, from every state, if and only if it is not a bare event or data field and its event name is non-empty without leading whitespace. |
| SseStandard.LinesAreStandard | src/federation.rs:528-537 | Dropping carriage returns finds the lines of the standard, if every one is part of a CR LF. |
| SseStandard.RunIsStandard | src/federation.rs:534-546 | Over intended lines the line-by-line reading dispatches the events of the standard's interpreter. |
| SseStandard.FollowsStandard | src/federation.rs:524-548 | A stream of intended lines without lone CR yields, in whatever chunks it arrives, the events of sections 9.2.5 and 9.2.6 of the standard. |
| SsePrint.RoundTrip | src/federation.rs:532-547 | Printed events, with comments anywhere between and inside them, parse back as the same events with nothing left in the buffer. |
| SsePrint.RoundTripsIffPrintable | src/federation.rs:532-547 | An event survives printing and parsing if and only if its name is one line without leading whitespace and its data holds no CR. |
| SsePrint.EmittedPrintable | src/federation.rs:532-547 | Every event the parser emits is of that kind. |
| Notify.Tracker.Evaluate | src/notify.rs:91-139 | One snapshot changes the tracker's states and returns notifications as folding the per-container machine over it does. |
| Notify.FoldAt | src/notify.rs:95-133 | With distinct ids each container's state changes by its own machine alone. |
| Notify.ObserveRemembers | src/notify.rs:99-131 | One step of the machine keeps the closed form of its state and fires if and only if the closed form says so. |
| Notify.StatesAreRemembered | src/notify.rs:91-139 | After every trace of snapshots the tracker remembers, for each id, exactly the last reported status and the start of the current unbroken run of another one; absence forgets it. |
| Notify.SendsWhatIsDue | src/notify.rs:91-139 | At each snapshot of every trace the notifications are those of the containers whose status differs from the last reported or first seen one and whose current run began at least the delay before, in listing order. |
| Notify.BaselineIsLastFire | src/notify.rs:99-131 | While a container stays, the status compared against is the one at its last notification, or at its first sighting, which never notifies. |
| Notify.FiresIff | src/notify.rs:108-131 | With a clock that does not step back, a container that stays is notified about if and only if its status differs from the one at the last notification, or first sighting, and has been kept since some snapshot at least the delay ago. |
| Notify.SentDescribes | src/notify.rs:37-67 | Every notification sent is about a container of the snapshot that is due: a failure if and only if it does not run, a warning if and only if it runs and is unhealthy, a success otherwise; the text names the container, its stack and the host, and ends in its status line. |
| Notify.FiresApart | src/notify.rs:108-131 | Successive notifications report different statuses and are at least the delay apart. |
| Notify.FireSpan | src/notify.rs:108-131 | The number of notifications times the delay fits into the time since the first sighting. |
| Notify.FireRate | src/notify.rs:91-139 | A time span T since the first sighting brings at most T / delay notifications. |
| Stats.StatsMean | src/trend.rs:144-167 | The extremes are attained and bound all samples, the median lies between them with at least half of the samples on either side, and the count is the number of samples. |
| Stats.MedianIsMiddle | src/trend.rs:159-167 | Of any ascending arrangement of the samples, the median is the middle one, or the mean of the two middle ones. |
| Bucketer.Bucketer.constructor | src/trend.rs:45-52 | A fresh bucketer is empty, with a bucket of at least a second. |
| Bucketer.Bucketer.Push | src/trend.rs:56-93 | One push steps as specified: a later bucket drains the open one into rows, then the readings go to the bucket that is open. |
| Bucketer.Bucketer.Add | src/trend.rs:95-105 | A reading joins its accumulator, or opens one under the name and stack it came with. |
| Bucketer.Bucketer.Close | src/trend.rs:109-132 | Every accumulator becomes one row, in any order, and none is left. |
| BucketTrace.FoldedIs | src/trend.rs:71-105 | A key's accumulator holds exactly the values read for it, in order, under the name and stack of its first reading. |
| BucketTrace.FieldsRead | src/trend.rs:71-90 | Of a container, each of the six fields that is there is read once under the container's id, as its own metric, memory as a number of bytes. |
| BucketTrace.FirstOfIs | src/trend.rs:95-105 | The reading that names an accumulator is the first of its key. |
| BucketTrace.StateIsOpenBucket | src/trend.rs:56-93 | At every point of every run the bucketer holds the readings pushed while the open bucket was open, and nothing else. |
| BucketTrace.FlushIsClosedBucket | src/trend.rs:56-132 | A push that opens a later bucket emits the rows of all readings the closed one will ever have; any other push emits none. |
| BucketTrace.FlushesAscend | src/trend.rs:57-69 | Emitted bucket starts are aligned, and strictly increase from flush to flush. |
| BucketTimes.OpenBucketHoldsLatest | src/trend.rs:57-69 | For any clock, after any pushes the open bucket is the greatest multiple of the width at or below the latest timestamp pushed. |
| BucketTimes.BucketCollects | src/trend.rs:56-93 | For any clock, a bucket collects exactly the readings pushed while the latest timestamp lay in it, in order. |
| BucketTimes.CollectedIsPushed | src/trend.rs:56-93 | With a clock that does not step back, these are exactly the readings pushed at timestamps in the bucket. |
| BucketTimes.PushCollected | src/trend.rs:57-90 | A reading pushed when no earlier timestamp was larger is collected under the bucket its timestamp lies in. |
| BucketTimes.RowTimes | src/trend.rs:56-129 | A row starts at a multiple of the width, and its extremes are samples that go by its name among those collected while the latest timestamp lay in its bucket. |
| BucketTrace.OneRowPerKey | src/trend.rs:113-129 | Within a flush a container and metric has one row. |
| BucketTrace.Conservation | src/trend.rs:56-132 | At every point of every run, samples in emitted rows plus samples held equal the readings fed in. |
| BucketTrace.RowsSound | src/trend.rs:113-129 | Every emitted row has ordered statistics over at least one sample. |
| BucketTrace.RowExtremes | src/trend.rs:113-129 | A row's extremes are samples attributed to its name. |
| BucketTrace.SampleHasRow | src/trend.rs:113-129 | Every sample attributed to a name lies within a row for that name. |
| TrendTable.PivotTrends | src/store.rs:698-724 | The loop over a batch computes the pivot function. |
| TrendTable.PivotIs | src/store.rs:698-724 | Each metric of each wide row is the merge of exactly the batch's rows for that key and metric. |
| TrendTable.PivotKeys | src/store.rs:700-707 | A wide row exists if and only if some row of a known metric bears its key. |
| TrendTable.MergeAllMedian | src/store.rs:638-650 | Repeated pairwise merging gives the sample-weighted mean of the medians, or the first median when nothing was sampled. |
| TrendTable.MergeAllExtremes | src/store.rs:638-650 | Merged extremes bound every merged envelope and are attained. |
| TrendTable.MergeAllPermutes | src/store.rs:638-650 | With at least one sample, merging depends only on the multiset of envelopes. |
| TrendTable.PivotPermutes | src/store.rs:698-724 | The order in which accumulators drained does not reach any sampled envelope of the pivot. |
| TrendTable.TrendStore.InsertContainerTrends | src/store.rs:292-313 | Upserting the pivoted rows one by one, in any order, merges each key's row into the stored one and changes no other key. |
| TrendTable.TrendStore.PruneTrends | src/store.rs:333-342 | A row stays, unchanged, if and only if its bucket starts at or after the cutoff, and the number returned is that of the rows whose bucket starts before it. |
| TrendTable.PruneSplits | src/store.rs:333-342 | Pruning splits the table: what stays is unchanged and starts at or after the cutoff, what goes starts before it, and the sizes add up. |
| TableInvariants.MeanBetween | src/store.rs:762-764 | A weighted mean lies between any bounds of its parts, whatever the weights. |
| TableInvariants.MergeColsSound | src/store.rs:758-765 | The conflict clause keeps a metric's columns all NULL or ordered, although it weights by the row's samples. |
| TableInvariants.InsertBatchSound | src/store.rs:292-313 | Inserting ordered rows keeps every metric of the table all NULL or ordered. |
| TableInvariants.ReachableOrdered | src/store.rs:292-342 | After any sequence of inserts and prunes each metric's columns are all NULL or satisfy min ≤ median ≤ max. |
| TableInvariants.PivotExtremes | src/store.rs:698-724 | A pivoted metric has the least minimum and the greatest maximum of the batch's rows, NULL if there are none. |
| TableInvariants.TableExtremes | src/store.rs:753-781 | However rows are batched, the table has a row for a key if and only if some row bears it, with the least minimum and greatest maximum of all of them. |
| RowHeads.PivotHead | src/store.rs:706-722 | A pivoted row has the sample count of its most sampled metric, the stack of the first of its rows to name one, and the id and bucket width of the last. |
| RowHeads.TableHead | src/store.rs:753-781 | However rows are batched, a stored row has the id and bucket width of the last row of its key, the stack that the last batch to name one names first, and the sum of the batches' most sampled metrics as sample count. |
| Batching.MergedConcat | src/store.rs:638-650 | Merging two sampled lists of envelopes is merging what each of them merges to. |
| Batching.UpsertAgreesIff | src/store.rs:758-765 | An upsert of one metric gives what a merge by the metric's own counts gives if and only if the medians are equal or the rows and the metric are sampled in the same proportion. |
| Batching.BatchesStandFor | src/store.rs:292-313 | Where a metric is as sampled as its row in every batch, the table's row holds the merge of all rows of that key and metric and the number of their samples. |
| Batching.BatchingDoesNotMatter | src/store.rs:292-313 | There, minimum, median and maximum depend only on the multiset of rows inserted, however ordered and batched. |
| Migration.Database.Migrate | src/store.rs:894-960 | The chunk loop ends, no chunk's INSERT meets an existing key, and the table is that of one GROUP BY over all legacy rows; a wide table is left alone. |
| Migration.ChunkJoins | src/store.rs:855-875 | Adjoining chunks produce no common key, and their tables together are the table of the joined range. |
| Migration.OneChunkEach | src/store.rs:937-944 | Every bucket lies in exactly one chunk. |
| Migration.LoopEndsIff | src/store.rs:937-944 | The saturating loop gets past the last bucket if and only if that is below the largest 64-bit value. |
| Migration.MigrationMatchesPivot | src/store.rs:855-875 | The migrated columns of a metric are those a live insert of the same rows writes if and only if it has no rows or at least one sample. |
| Migration.MigrationKeys | src/store.rs:855-875 | The migration writes a row a live insert would not if and only if only unknown metrics bear its key. |
| Migration.UnknownHasNoValues | src/store.rs:855-875 | Such a row has no values. |
| Migration.HeadIs | src/store.rs:868-869 | Of any group of legacy rows, the id and stack that sort last and the greatest counts are taken, each of them attained. |
| Migration.GroupIs | src/store.rs:870-872 | A key's group holds exactly its legacy rows, whatever their metric. |
| Migration.MigratedHead | src/store.rs:868-872 | A migrated row's id, stack, sample count and bucket width are those of its key's group. |
| Migration.TextBelowAt | src/store.rs:868 | A text that sorts before another is a proper prefix of it or has the smaller character at the first difference. |
| Migration.SmallerIsBelow | src/store.rs:868 | A text for which that holds sorts before the other. |
| History.GroupsAscend | src/store.rs:816-825 | A history has one point for each group that has rows, strictly ascending, on multiples of the width. |
| History.GroupsPartition | src/store.rs:817-823 | Every row lies in exactly one of the groups returned. |
| History.PointExtremes | src/store.rs:816-825 | A point's extremes are those of exactly its group's rows, NULL if none has a value. |
| History.Coarsening | src/store.rs:816-848 | Regrouping a history of width g into k·g gives the groups, minima and maxima of querying at k·g, for container and stack rows alike. |
| History.HistoryOrdered | src/store.rs:816-848 | From an ordered table every point of a container or stack history is all NULL or ordered, through summing and downsampling. |
| History.SumsOrdered | src/store.rs:830-840 | Summing the members of a stack keeps the order of a metric's columns. |
| History.SumTakesOut | src/store.rs:830-840 | The sum does not depend on the order of the members: any of them may be added last. |
| History.RawHistoryIsReadings | src/store.rs:800-811 | Each raw point carries the least and greatest reading of the container in its group, NULL if there is none. |
| History.RawHistoryOrdered | src/store.rs:800-811 | Each raw point's columns are all NULL, or ordered. |
| Means.PointMean | src/store.rs:742-748 | The middle column of every point of every downsampled history is NULL if and only if no row of its group has a median; otherwise, times their number, it is the plain sum of the medians there are. |
| Means.RawMean | src/store.rs:800-811 | The middle column of every raw point is in the same way the mean of all readings of the container in its group. |
| Means.SumOverIsSum | src/store.rs:830-840 | A column summed over rows is the plain sum of the values present, and NULL if and only if there are none. |
| Means.SumOverAdds | src/store.rs:830-840 | One more row adds its value to the sum, and leaves it alone if NULL. |
| Means.StackPointMedian | src/store.rs:830-840 | A bucket of a stack has as middle column the sum of the stored medians of exactly the rows of the host filed under the stack at that bucket. |
| History.StackOfOne | src/store.rs:816-848 | A stack whose only member is one name has that name's history. |
| EndToEnd.RowIffSamples | src/trend.rs:56-132 | The table has a row for a name and bucket if and only if some run of the host closed that bucket with a sample attributed to the name. |
| EndToEnd.RowEnvelope | src/store.rs:753-781 | A stored row's extremes are the least and greatest sample of its name and bucket over all runs of the host, however the flushes were batched. |
| EndToEnd.HistoryIsSamples | src/store.rs:816-825 | Over any runs of a host, with any clock, bucket widths, recreations, batching and other hosts, each point of a container's history has as extremes the least and greatest of all samples attributed to the name in the group's closed buckets, NULL if there are none. |
| EndToEnd.HistoryHasEveryGroup | src/store.rs:816-825 | A group has a point if and only if it has a sample of some metric. |
| EndToEnd.FlushedRowsOrdered | src/trend.rs:109-132 | Every row any run emits is ordered and sampled. |
| EndToEnd.PruningKeepsWindow | src/store.rs:333-342 | A window at or above every cutoff has the history of a table that was never pruned. |
| EndToEnd.ChartIsSamples | src/collector.rs:150-171 | Whatever any hosts inserted and pruned, a chart at or above every cutoff has as extremes of each point the least and greatest of all samples of its group. |
| EndToEnd.ChartHasEveryGroup | src/collector.rs:150-171 | Such a chart has a point for a group if and only if it has a sample. |
| Medians.StoredMedianWithin | src/store.rs:753-781 | However rows are batched and merged, a stored median lies within any bounds of the medians of its key's and metric's rows. |
| Medians.MedianOfOneContainer | src/trend.rs:109-132 | Where a name stands for one container in a bucket, over all runs, the stored median is the median of that container's samples there. |
| Medians.RowStatistics | src/trend.rs:109-129 | An emitted row carries the statistics of all samples of one container in its bucket, that container's id, and the name and stack of its first reading. |
| RowHeads.StoredHead | src/store.rs:753-781 | Over any runs of a host, however batched, a stored row names a container that goes by its name in its bucket and the stack of one that does; it names none if and only if none of them was first read in a stack. |
| StackCharts.StackHistoryIsSamples | src/store.rs:830-848 | Each point of a stack's history has as minimum the least, over its group's buckets, of the plain sum of the least samples of those members that have samples, and as maximum the greatest of the sums of their greatest samples. |
| Window.ResolvedWindow | src/web.rs:1097-1143 | A resolved window is in order and has the bounds given, or ends now and reaches back an hour, six hours, a day, seven days or thirty days, or as far as time goes; raw samples serve it if and only if it starts within the seed window. |
| Window.ResolvesIff | src/web.rs:1127-1136 | A request is accepted if and only if it is one of the five named ranges alone, or two bounds alone that are in order. |
| Window.TrendGroupIs | src/web.rs:1148-1151 | The trend grouping is the least number of whole minutes, and at least one, that is no less than a 1440th of the window. |
| Window.RawGroupIs | src/web.rs:1160-1163 | The raw grouping is a 1440th of the window, rounded down, and at least a millisecond. |
| Window.PointsBounded | src/store.rs:800-825 | A window's history has no more points than groups its interval touches. |
| Window.TrendGroupsBounded | src/web.rs:1148-1151 | The trend grouping touches at most 1442 groups, for every window and alignment. |
| Window.RawGroupsBounded | src/web.rs:1160-1163 | The raw grouping touches at most 2880 groups, and at most 1442 from 1440² ms on. |
| Attainment.RawAttained | src/web.rs:1160-1163 | For every window and group width there are samples that give a raw point for each group the window touches. |
| Attainment.HitGroupsCount | src/web.rs:1148-1151 | For every bucket width, the number of groups that contain a bucket of the window is the closed form: groups touched between the first and last bucket, or one for each bucket if those are wider. |
| Attainment.AnswerExceedsIff | src/web.rs:1127-1223 | For every request, bucket width and number, some samples and some ordered table of such buckets make the answer exceed the number of points if and only if the closed form does. |
| Attainment.MinuteBucketsBounded | src/web.rs:1145-1151 | Buckets of whole minutes give at most 1441 points, for every window and alignment. |
| Attainment.CapsAreReached | src/web.rs:1145-1163 | Samples with 2880 raw points, a table of one-second buckets with 1442 points and one of one-minute buckets with 1441. |
| Attainment.SpacedAnswerBounded | src/web.rs:1153-1163 | Samples of a container at least a second apart give at most 1443 raw points, for every window. |
| Window.AnswerBounded | src/web.rs:1127-1223 | Whatever is asked and stored, an answer has at most 2880 points from raw samples and 1442 from trends. |
| FullResolution.UnchangedByDownsample | src/store.rs:816-825 | Where every row starts a group of its own, a history is the rows themselves, medians included. |
| FullResolution.DayIsFullResolution | src/web.rs:1145-1151 | A chart of up to a day shows each row of a table of whole minutes as it is stored. |
| Collector.Collector.constructor | src/collector.rs:61-66 | A collector starts unprimed with an empty bucketer and the prune cadence of its intervals. |
| Collector.Collector.Cycle | src/collector.rs:68-136 | A failed collection changes nothing, the first success only primes, and every later one notifies, steps the bucketer, publishes, persists and, when the cycle count says so, prunes; after a cycle that prunes no sample and no trend row is older than its retention. |
| Collector.PersistRawCounts | src/collector.rs:116-171 | A cycle that prunes leaves no sample older than the retention; otherwise its own samples join all that were there. |
| Collector.PersistTrendsKeeps | src/collector.rs:116-171 | A cycle that prunes leaves, of the table with its rows merged in, exactly the rows that start within the retention, unchanged. |
| CollectorRun.PrunesRecur | src/collector.rs:113-124 | The first published cycle prunes, and after one that does the next to do so comes exactly the cadence later. |
| Collector.SampleStore.InsertSamples | src/store.rs:249-287 | One sample a container is appended, in listing order, under the host and timestamp of the cycle. |
| Collector.SampleStore.PruneRaw | src/store.rs:318-327 | Every occurrence of a sample before the cutoff goes, every other stays, and the number gone is returned. |
| Collector.PruneCadence | src/collector.rs:190-196 | The number of cycles between prunes is how often the sample interval, taken as at least a second, goes into the prune interval, and one if it does not. |
| Collector.SharedDashboard.Publish | src/collector.rs:139-145 | The published dashboard is the one shown from then on. |
| Collector.RawIsSurviving | src/collector.rs:116-175 | For every run of any collectors with any clocks, the raw table holds exactly the cycles no prune from then on cut. |
| Collector.RawCompleteIff | src/collector.rs:116-175 | For any clock, a raw window is what it would be without pruning if and only if no cycle that was cut contributes to it. |
| Collector.RawAnswersComplete | src/web.rs:1127-1143 | While no cycle is later than now, a request served from raw samples is answered as if nothing had ever been pruned, whatever collectors share the store. |
| CollectorRun.Run | src/collector.rs:42-137 | Over any ticks, the successful collections other than the first are what is pushed, persisted and published, in order, and the last is shown; the trend table sees their flushes and prunes, the raw table continues any earlier run, an empty tracker sends what is due, and without one nothing is sent. |
| CollectorRun.SteppedBackClockLoses | src/collector.rs:119-124 | A schedule of the collector, with whole-second retention, after which a clock that steps back makes a raw answer empty that would have a sample. |
| CollectorRun.TableAfterConcat | src/collector.rs:42-66 | The next start of the program goes on from the table the earlier ones left. |
| CollectorRun.ChartsAreExact | src/collector.rs:68-136 | Over any number of starts of the program, a chart within the trend retention has as extremes of each point the least and greatest of all samples attributed to the name in the closed buckets of its group. |
| CollectorRun.ChartsAreComplete | src/collector.rs:68-136 | No group with a sample is missing from such a chart, and no group without one is in it. |
| CollectorRun.RunKeepsOrder | src/collector.rs:68-136 | A run keeps every metric's columns all NULL or ordered. |

## Left out

- TopoGraph.OrderIsDepthSort: assumes that replicas of a service depend on the same in-stack services; for those that do not, `TopoReplicas.PositionIff` decides the order.
- TopoReplicas.PositionIff: assumes that no member is listed twice, and `SettledIffPrecedes` and `StoppedIffPrecedes` that container ids are distinct, as Docker lists them.
- Scheduler.StartInOrder: the deadline is a number of failed passes that end before it, chosen freely; waits for a condition only return, without their polling and timeouts.
- Scheduler.StackAction: the ghost results for the half an action does not run are placeholders.
- SseStandard.FollowsStandard: stated for streams whose lines are all intended and without lone CR; the parser is not meant for others, and `AgreesIffIntended` says line by line where it differs.
- Sse.SseParser.Push: works on characters; decoding is lossy chunk by chunk, so a character split across chunks and a leading byte order mark are not modelled.
- Notify.SendsWhatIsDue: assumes distinct container ids in a snapshot, which Docker guarantees; `Evaluate` is modelled without it.
- Migration.Database.Migrate: requires the last legacy bucket to be below the largest 64-bit value, since the loop does not end otherwise; legacy buckets are not negative.
- TrendTable.PivotPermutes: claims envelopes only. A row's `id` and `stack` do depend on the order; `RowHeads.PivotHead` says how.
- Batching.BatchingDoesNotMatter: requires that the metric is always as sampled as its row. Otherwise medians of one batch and of several need not agree, because the upsert weights by the row's samples; `UpsertAgreesIff` says exactly when one upsert does.
- CollectorRun.ChartsAreExact: for a table this host alone wrote; with other hosts, `ChartIsSamples` says the same of any inserts and prunes. Samples of a bucket that is open when the program ends are never stored, in the code as in the model.
- Attainment.SpacedAnswerBounded: an upper bound only; the number such samples can reach is not determined.
- CollectorRun.Run: says what is sent for a tracker that starts empty, as the program creates it.
- Numbers: samples, medians and rates are reals without rounding or NaN; counts and timestamps are unbounded, so the saturation of sample counts at 32 bits, their overflow in a merge and the saturation of timestamps at 63 bits are not modelled. The saturating chunk bound of the migration is.
- Docker, HTTP, TLS and SQLite mechanics: connections, transactions, indexes, query plans and VACUUM; a statement is its effect on a table.
- Asynchrony: locks, sleeps and task scheduling. A persist that fails is not modelled.
- Listing a stack: reading labels, parsing `depends_on`, and dependencies through shared namespaces; a list of members is given.
- Container fields no kernel reads, such as image, ports and memory limit, and the rate computations that fill the readings.
- Resolving a container id to a name: the name is a parameter of an answer.
- The recent-points queries that seed live charts, which select without grouping.
- Federation beyond the stream parser, authentication, configuration, page rendering and browser scripts.
