# LABIOS verification model

LABIOS turns every I/O request into a *label*, batches and reorders labels,
buffers small writes, and hands the work to workers. This project models the
parts of LABIOS that carry real invariants and proves their main properties
with Dafny. `dafny verify dfyconfig.toml` checks the whole project. Nothing was
executed: every statement below is a theorem about the model.

## Reading order

| files | part of LABIOS |
|---|---|
| `Labels`, `FileStore`, `Aggregate`, `Schedule` | labels, an abstract byte-addressed device, and what each phase of the shuffler promises |
| `Shuffler`, `Hazards` | the shuffler itself: loops over lists, in-place dependency detection on an array, the class that holds its configuration |
| `Serializability`, `AggregationMeaning`, `Dispatcher` | conflict serializability of what enters dependency detection; what merged writes mean and how the dispatcher puts their chunks together |
| `Placement` | which labels go to supertasks, to a known worker, or to the scheduler |
| `Delivery`, `EndToEnd`, `Conservation` | shuffler and dispatcher together: which merged writes are put together, when the whole batch is executed as its clients sent it, what is lost otherwise, who gets a reply |
| `LabelManager`, `SplitAndMerge` | splitting into labels of bounded size and putting replies together; splitting and merging undo each other |
| `ContentManager`, `CacheAgreement`, `PosixAdapter` | the write-back buffer under the POSIX adapter, and the client that cannot tell it from a plain file |
| `Channel` | drain, unsubscribe, destroy and publish as interleaved atomic steps |
| `Workspace` | a versioned map in a flat string-keyed store |
| `WorkerManager`, `Elastic` | the score buckets and the scaling state machine |
| `Rle`, `PipelineText`, `Executor` | run-length codec, pipeline text form, pipeline execution |
| `LabelId`, `MinMax`, `Pack` | label ids, the MinMax solver, packed supertasks |
| `Basics`, `Decimal`, `Sorting` | sequence and multiset facts, decimal numbers, `std::sort` as some ordered permutation |

## Conventions

* The device is a map from (path, offset) to bytes; bytes never written read as
  zero. A label is executed in one step: a write moves its staged bytes to the
  destination, a read records the bytes it fetched.
* Well-formed labels are Read or Write labels with a file path that equals the
  file key, a length that equals the data size, a positive size, a range that
  ends below 2^64, no client-supplied dependencies, and unique ids. Label
  management builds labels like that.
* 64-bit and 32-bit wrap-around is written out where the code can reach it
  (label counts, end offsets, packed lengths, sequence numbers, decimal fields).
* Where the source sorts with a comparison that leaves ties open, the model
  allows every ordered permutation; where it walks over an unordered container,
  the model allows every order.
* Classes mirror the source's stateful objects. Their `Valid()` is the invariant
  that every method keeps, so it holds after any run of calls. The POSIX adapter
  always keeps `Ready()`, and `Valid()` as long as its writes fit.

## Where the code differs from its description

* `minmax.cpp` says a worker with profit above zero gets at least one label; the
  code does not look at the profit, so a worker with no profit gets one too
  (`MinMax.EachTakesOne`).
* A merged write that becomes a child of a supertask keeps only its first chunk:
  the dispatcher concatenates the chunks of independent labels alone. With
  disjoint writes that happens exactly if a read of the batch overlaps a run of
  more than one write (`Delivery.MergedIndependentReads`); the bytes of the other
  pieces then never reach the device (`EndToEnd.BytesLost`). `EndToEnd.BatchExact`
  gives the condition on the batch alone.
* Aggregation promises that every reply address survives. The shuffler does not
  record them all when the first label of a run has no address and exactly one
  other label has one: `Conservation.RunReplies` gives the exact condition and
  `Conservation.ReplyLost` the failing batches. The dispatcher reads the fanout
  table for independent labels only, so a merged write in a supertask answers to
  its first label's address alone: `Conservation.RunRepliesSent` is the exact
  condition for every address to get its completion.
* The buffer is not always transparent. A small write that stays buffered must not
  overlap a region that starts elsewhere nor replace a longer one: a region that
  starts later hides it, the tail of a longer one is forgotten, and inside a region
  that starts earlier bytes are counted twice, so that a read is answered with
  bytes the buffer does not hold. A small write that fills the buffer is published
  with it by offset, so overlapping an earlier region is harmless then. A large
  write must be clear of the buffer. `CacheAgreement.WriteExact` proves that these
  conditions are exactly when every read after the write is right.
* `label_count` wraps around for sizes within `max_label_size` of 2^64
  (`LabelManager.LabelCountExact`).
* Different entries of a workspace can share a store key: the data of key "a:v1"
  and version 1 of key "a", or version 1 of key "_meta" and the metadata of "v1".
  `Workspace.KeysCollide` lists exactly the pairs, `Workspace.ReservedExact` the
  keys that collide with keys that have no ':' and no leading '_'.
* Workspaces "x" and "x:y" share store keys; `Workspace.NamesCollideExact` says
  exactly which names do. The refinement below is for one workspace in a store.

* Cleanup of a destroyed channel does not catch every message: a publish that has
  passed the checks before the channel is drained stages its data after cleanup,
  where nothing removes it (`Channel.LeftBehind`); `Channel.StagedAfterCleanup`
  bounds how many.

## Model

| member | source | states |
|---|---|---|
| FileStore.ConflictSerializable | src/labios/shuffler.cpp:234-279 | any run that has the operations of a serial order, with unique ids, and keeps the order of every conflicting pair ends in the same device and the same read results |
| FileStore.Commute | src/labios/shuffler.cpp:254-266 | two operations with different ids and no hazard between them may be swapped: same device, same read results |
| Shuffler.MergeRun | src/labios/shuffler.cpp:165-222 | the label built for a run is the merge of the run, and the fanout table gets the replies of the run exactly if there is more than one |
| Shuffler.MergeRuns | src/labios/shuffler.cpp:148-226 | the cursor loop cuts sorted writes into exactly the maximal runs of touching ranges |
| Shuffler.Shuffler.Aggregate | src/labios/shuffler.cpp:103-228 | phase 1 returns an aggregation of the batch: one label per run, non-writes alone, files in order of first appearance, with its fanout table |
| Aggregate.RunsConserved | src/labios/shuffler.cpp:103-228 | the runs contain every label of the batch exactly once |
| Aggregate.MergedIdsUnique | src/labios/shuffler.cpp:186-199 | after merging, ids are still unique |
| Aggregate.KeyOrderExact | src/labios/shuffler.cpp:106-119 | groups come in order of first appearance: a group that first appears at some label comes after exactly the groups of the labels before it |
| EndToEnd.AggregationPreservesBytes | src/services/labios-dispatcher.cpp:426-452 | when the writes of a batch are disjoint and no read overlaps a run of more than one write, executing the output writes in any order on the warehouse the dispatcher leaves makes the device what executing the original writes in any order makes it |
| Delivery.EnteringWellFormed | src/labios/shuffler.cpp:186-222 | the labels that aggregation hands to dependency detection are well-formed and have unique ids |
| Delivery.MergedRecord | src/labios/shuffler.cpp:165-218 | a merged label covers from the start of the first piece to the end of the last, its aggregation record has that range and the ids of the pieces in order, and all else is the first piece's |
| Delivery.InvolvedExact | src/labios/shuffler.cpp:288-297 | the ids taken for supertasks are exactly those of labels that have a hazard with another label |
| Placement.RoutedExact | src/labios/shuffler.cpp:82-94 | a label goes directly to a worker if and only if it is a read without a hazard and the catalog says that this worker holds exactly the range it asks for |
| Placement.IndependentExact | src/labios/shuffler.cpp:82-97 | the scheduler is left with exactly the labels that have no hazard and no worker known to hold their bytes |
| Placement.CompositeRecord | src/labios/shuffler.cpp:325-352 | the composite of a supertask has the least id of its children, lists their ids in execution order, and is named on each child |
| Placement.SupertasksExact | src/labios/shuffler.cpp:311-352 | two children are in the same supertask if and only if they have the same file, or the same application when labels are grouped by application |
| Delivery.WriteRunHazard | src/labios/shuffler.cpp:254-272 | the label of a write run has a hazard exactly if a label of the batch outside the run overlaps it |
| Delivery.WriteIndependent | src/labios/shuffler.cpp:299-309 | the label of a write run is among the independents exactly if no other label of the batch overlaps the run; otherwise no independent label has its id |
| Delivery.MergedIndependentExact | src/labios/shuffler.cpp:285-358 | all merged writes are independents exactly if no label of the batch overlaps a run of several writes it is not part of |
| Delivery.MergedIndependentReads | src/labios/shuffler.cpp:285-358 | with disjoint writes, all merged writes are independents exactly if no read of the batch overlaps a run of more than one write |
| Delivery.MergedOverlappedExact | src/labios/shuffler.cpp:148-163 | with disjoint writes and aggregation on, exactly if no read overlaps one of two writes of which the second begins where the first ends |
| Delivery.RunDelivered | src/services/labios-dispatcher.cpp:399-452 | after the dispatcher, the chunks of a write run are concatenated under the id of its label, or, if another label of the batch overlaps the run, all still staged as they were |
| EndToEnd.StagedExact | src/services/labios-dispatcher.cpp:399-452 | every label that enters dependency detection finds all its bytes staged exactly if no merged run is overlapped |
| EndToEnd.ShuffleIsSerial | src/services/labios-dispatcher.cpp:399-452 | if no merged run is overlapped, every interleaving of the shuffled batch on the dispatcher's warehouse gives the reads and the device of the original labels run one by one in ascending id order; writes may overlap |
| EndToEnd.RunStagedExact | src/services/labios-worker.cpp:124 | the label of a write run finds exactly its bytes staged if the run is one write or not overlapped; otherwise it executes as the write of its first piece alone |
| EndToEnd.BytesLost | src/services/labios-worker.cpp:124 | if the writes are disjoint and a merged run is overlapped, the bytes of all its pieces but the first are never written, in any interleaving |
| EndToEnd.ShuffleExact | src/services/labios-dispatcher.cpp:399-452 | a batch with disjoint writes always ends as its labels run by ascending id if and only if no read overlaps a run of more than one write |
| EndToEnd.BatchExact | src/services/labios-dispatcher.cpp:399-452 | the same for what the shuffler returns, with a condition on the batch: aggregation is off, or no read overlaps one of two touching writes |
| AggregationMeaning.RunExec | src/labios/shuffler.cpp:148-222 | executing a run of touching writes one by one is one write of the concatenated chunks at the start of the run |
| AggregationMeaning.RunsExec | src/services/labios-dispatcher.cpp:440-452 | executing one label per run, with the bytes of write runs concatenated, is executing all the original labels, run by run |
| AggregationMeaning.CombineRuns | src/services/labios-dispatcher.cpp:436-452 | however many runs the dispatcher has handled, every handled run is staged as the concatenation of its original chunks and the chunks of the others are untouched |
| AggregationMeaning.NotAdjacent | src/labios/shuffler.cpp:148-163 | with disjoint writes no output write of a file ends where another begins |
| AggregationMeaning.AggregateTwice | src/labios/shuffler.cpp:103-228 | aggregating the output of an aggregation merges nothing and adds no fanout |
| Dispatcher.Dispatcher.CombineAggregates | src/services/labios-dispatcher.cpp:436-452 | the loop over aggregated labels leaves the warehouse as combining them one after the other |
| Dispatcher.GatherDistinct | src/services/labios-dispatcher.cpp:443-452 | for distinct child ids, reading and deleting chunk by chunk yields the concatenation of the chunks and deletes exactly the children |
| Hazards.RecordPair | src/labios/shuffler.cpp:254-272 | comparing two members of a group appends the dependency to the later one exactly if the ranges overlap and not both read, and touches nothing else |
| Hazards.AnnotateGroup | src/labios/shuffler.cpp:246-275 | after the pairwise loops every member carries its hazards with all earlier members, in id order, and labels outside the group are untouched |
| Hazards.GroupHazards | src/labios/shuffler.cpp:246-275 | the dependencies recorded for a label are exactly its hazards: one for each earlier label of its group with an overlapping range and not both reads, ascending by id |
| Shuffler.Shuffler.DetectDependencies | src/labios/shuffler.cpp:234-279 | phase 2 in place: every label keeps its fields and gains exactly its hazards; `Serializability.DependenciesMean` says what they mean |
| Serializability.DependenciesMean | src/labios/shuffler.cpp:254-272 | every recorded dependency names a label with a smaller id, as RAW, WAW or WAR exactly if that label writes and this one reads, both write, or that one reads and this one writes a common byte; and every such hazard with an earlier label of the group is recorded under its kind |
| Shuffler.Shuffler.BuildSupertasks | src/labios/shuffler.cpp:285-358 | phase 3: one supertask per group of involved labels, children sorted by id, and the rest in order |
| Shuffler.Shuffler.Shuffle | src/labios/shuffler.cpp:69-97 | the pipeline returns a schedule of the aggregated batch, with the fanout table of its runs |
| Schedule.InterleavingKeepsThreadOrder | src/labios/shuffler.cpp:299-345 | in every interleaving the operations of one activity keep their order |
| Serializability.Serializable | src/labios/shuffler.cpp:69-358 | for every well-formed batch with at most as many bytes staged as its ranges hold, and every interleaving of supertasks (children in list order), independents and direct routes, each read returns the same bytes and the device ends up the same as running all labels by ascending id |
| Serializability.HazardOrdered | src/labios/shuffler.cpp:285-345 | two labels with a hazard between them end up as children of one supertask, earlier id first |
| Serializability.ConflictOrdered | src/labios/shuffler.cpp:234-358 | in every interleaving no conflicting label runs before one with a smaller id |
| Serializability.PerFileCoversConflicts | src/labios/shuffler.cpp:48-56 | grouping by file puts any two conflicting labels into one group |
| Serializability.ScheduleComplete | src/labios/shuffler.cpp:69-97 | every label that enters phase 2 comes out in exactly one activity |
| Conservation.ShuffleConserves | src/labios/shuffler.cpp:69-97 | every input id appears exactly once across direct routes, independents and supertask children, a merged label standing for its original ids |
| Conservation.RunReplies | src/labios/shuffler.cpp:186-222 | every reply address of a run is recorded for its merged label, in it or in the fanout table, if and only if it is not the case that the first label has no address and exactly one other has one |
| Conservation.FanoutExact | src/labios/shuffler.cpp:200-209 | the fanout entry of a merged label lists each address as often as labels of its run ask for it |
| Conservation.RepliesConserved | src/labios/shuffler.cpp:69-222 | when every label has a reply address, the shuffler records each for the output label that carries it, in it or in the fanout table |
| Conservation.ReplyLost | src/labios/shuffler.cpp:186-222 | two touching writes of which only the second asks for a reply: aggregation merges them and the address is gone |
| Conservation.RunRepliesSent | src/services/labios-dispatcher.cpp:458-475 | every address of a run gets its completion if and only if the shuffler recorded all of them, or, when the run has several writes and another label overlaps it, there is none but the first label's |
| LabelManager.ChunksTile | src/labios/label_manager.cpp:29-56 | the chunks of a request cover its range from left to right without gap or overlap, none empty or longer than the maximum, all but the last full |
| LabelManager.LabelCountExact | src/labios/label_manager.cpp:16-19 | the label count is the number of chunks if and only if the 64-bit sum does not wrap around; then it is 0 |
| LabelManager.LabelManager.PublishWrite | src/labios/label_manager.cpp:21-58 | publishes one write label per chunk, with ascending fresh ids, each asking to write exactly its chunk; once each has been executed the device is as after one write of the data |
| LabelManager.LabelManager.PublishRead | src/labios/label_manager.cpp:60-94 | publishes one read label per chunk, with ascending fresh ids, each asking for exactly the range of its chunk and well-formed within 64 bits, answered with the bytes that executing it fetches |
| LabelManager.ReadLabelAsks | src/labios/label_manager.cpp:65-80 | executing the read label of a chunk reads the range of the chunk from its file |
| LabelManager.LabelManager.WaitRead | src/labios/label_manager.cpp:115-135 | the concatenation of all replies that arrived, in order, if none is an error; otherwise the first error |
| LabelManager.CollectMeans | src/labios/label_manager.cpp:115-135 | waiting fails if and only if some reply is an error, and then with the first one; otherwise it gives the data of the replies in order, nothing for one that never came |
| LabelManager.SplitReassemble | src/labios/label_manager.cpp:21-135 | executing the read labels of any sub-range of a written range, split from its own offset with its own boundaries, and concatenating the replies gives exactly that slice of the data |
| SplitAndMerge.SplitAnyOrder | src/labios/label_manager.cpp:21-58 | with the data staged piece by piece under the label ids, whatever distinct ids were drawn, executing the labels of a split write in any order is one write of the whole data |
| SplitAndMerge.AggregateRestores | src/labios/shuffler.cpp:103-228 | aggregating the labels of one split write, whatever their ids, gives one run whose label covers the original range |
| ContentManager.ReadRegions | src/labios/content_manager.cpp:113-146 | the scan over sorted regions; over disjoint ones it hits exactly when every requested byte is buffered, and then returns the buffered bytes |
| ContentManager.CopyOverlaps | src/labios/content_manager.cpp:125-143 | the copy loop, over any regions: each overlap is copied over what was copied before, and its length counted |
| ContentManager.ScanWhole | src/labios/content_manager.cpp:121-143 | over disjoint regions the copy loop counts exactly the buffered bytes of the range and places each of them |
| ContentManager.ContentManager.CacheWrite | src/labios/content_manager.cpp:81-103 | the new regions and flush list; the entry keeps the name and policy it was opened with; `total_bytes` stays the sum of the region sizes and below a positive minimum |
| ContentManager.ContentManager.CacheRead | src/labios/content_manager.cpp:105-147 | answers by the scan when the descriptor is open for cached reading; over disjoint regions a hit exactly when every byte is buffered |
| ContentManager.ContentManager.Flush | src/labios/content_manager.cpp:149-186 | hands over all regions in offset order and leaves none behind |
| CacheAgreement.SmallWriteAgrees | src/labios/content_manager.cpp:81-103 | a fitting small write keeps regions disjoint and keeps device plus buffer equal to the plain file |
| CacheAgreement.LargeWriteAgrees | src/labios/adapter/posix_adapter.cpp:49-85 | a fitting write that bypasses the buffer keeps the agreement |
| CacheAgreement.HitAgrees | src/labios/content_manager.cpp:105-147 | a cache hit returns what the plain file holds |
| CacheAgreement.FlushStep | src/labios/content_manager.cpp:178-186 | publishing flushed regions one by one keeps device plus remaining regions equal to the plain file |
| CacheAgreement.FlushAgrees | src/labios/content_manager.cpp:178-186 | a flush moves everything that was buffered to the device |
| CacheAgreement.FlushedTop | src/labios/content_manager.cpp:178-186 | of overlapping regions the one that starts last ends up on the device |
| CacheAgreement.OneByte | src/labios/content_manager.cpp:113-146 | a one-byte read of any regions, overlapping or not, returns what a flush would put on the device |
| CacheAgreement.OverflowAgrees | src/labios/content_manager.cpp:99-101 | a small write that fills the buffer and clears later and longer replaced regions leaves the plain file on the device |
| CacheAgreement.EarlierCountsTwice | src/labios/content_manager.cpp:125-146 | a small write that stays buffered inside an earlier region is unsafe: some read is answered for a byte that is not buffered |
| CacheAgreement.WriteExact | src/labios/adapter/posix_adapter.cpp:49-85 | for disjoint regions, a whole write (buffered, flushed with the buffer, or bypassing it) is safe, that is every read after it returns what a plain file would hold whatever file and device held before, if and only if it fits |
| PosixAdapter.Adapter.DoWrite | src/labios/adapter/posix_adapter.cpp:49-85 | a write of one descriptor: the new device, regions and plain file for any write, and agreement kept by a fitting one |
| PosixAdapter.Adapter.DoRead | src/labios/adapter/posix_adapter.cpp:102-136 | a read returns the buffer's answer or, after a flush, the device's; in agreement that is what the plain file holds |
| PosixAdapter.Replay | src/labios/adapter/posix_adapter.cpp:49-136 | over any run of fitting writes, reads and flushes, every read returns what a plain file would |
| Channel.DrainHandshake | src/labios/channel.cpp:97-204 | in every interleaving cleanup runs at most once and only for a destroyed channel; when all threads are idle a draining channel without subscribers is destroyed and cleanup ran exactly once if destroyed |
| Channel.DrainStep | src/labios/channel.cpp:153-197 | every atomic step keeps the drain invariant |
| Channel.SubscriberIds | src/labios/channel.cpp:97-167 | in every interleaving a subscriber gets an id nobody else has, an unsubscription removes that id alone, and only destruction removes others |
| Channel.DrainingRefuses | src/labios/channel.cpp:67-95 | once the channel is draining, at most the publishes that are already past that check draw a number |
| Channel.DestroyedRefuses | src/labios/channel.cpp:67-95 | once the channel is destroyed, at most the publishes already past that check stage anything more |
| Channel.StagedBeforeCleanup | src/labios/channel.cpp:67-95 | until cleanup runs, exactly the returned sequence numbers are staged |
| Channel.StagedAfterCleanup | src/labios/channel.cpp:185-204 | cleanup empties the warehouse, and later there is never more in it than there were publishes past the destroyed check when it ran |
| Channel.LateNumbers | src/labios/channel.cpp:67-95 | after the destroy flag is set, a number gets staged only if some publish already held it or draws it from then on |
| Channel.LeftBehind | src/labios/channel.cpp:67-204 | an interleaving of one publish and one drain after which the channel is destroyed, cleaned up and idle, with the message still staged |
| Channel.Backpressure | src/labios/channel.cpp:67-95 | with k publishers and a positive limit at most `max_pending + k - 1` numbers are drawn, and the returned numbers are distinct, in every interleaving |
| Channel.BackpressureTight | src/labios/channel.cpp:67-95 | some interleaving draws exactly that many |
| Workspace.KeysDistinct | src/labios/workspace.cpp:22-37 | for plain keys, different roles have different store keys |
| Workspace.KeysCollide | src/labios/workspace.cpp:22-37 | for any keys, two different roles of a workspace share a store key exactly in the listed cases: a data key that is a version, metadata or index suffix, or a version suffix that is a metadata suffix |
| Workspace.ReservedExact | src/labios/workspace.cpp:22-37 | a key collides with some plain key or the index exactly if it is "_index", "_meta", "_meta:" and a plain key, or a plain key followed by ":v" and a number |
| Workspace.NamesCollide | src/labios/workspace.cpp:22-37 | roles of two workspaces share a store key exactly if the longer name is the shorter, a ':' and a rest, and the first role's suffix is that rest, a ':' and the second's |
| Workspace.NamesCollideExact | src/labios/workspace.cpp:22-37 | two workspaces share a store key of plain roles exactly if the longer name is the shorter, a ':' and then a plain key or "_meta" |
| Workspace.PutRepresents | src/labios/workspace.cpp:63-97 | the update of a put represents the history with one more value |
| Workspace.DelRepresents | src/labios/workspace.cpp:124-149 | the update of a delete represents the history without the key, leaving no store key of the entry behind |
| Workspace.Workspace.PutData | src/labios/workspace.cpp:63-97 | appends the value and returns the new length; outside the ACL nothing changes |
| Workspace.Workspace.Get | src/labios/workspace.cpp:99-109 | the last value put since the last delete |
| Workspace.Workspace.GetVersion | src/labios/workspace.cpp:111-122 | the v-th value put since the last delete |
| Workspace.Workspace.Delete | src/labios/workspace.cpp:124-149 | forgets the key, and says whether it existed |
| Workspace.Workspace.List | src/labios/workspace.cpp:151-177 | one entry per key, with version, size and time of the last put |
| Workspace.Workspace.ListPrefix | src/labios/workspace.cpp:179-189 | exactly the entries whose key has the prefix |
| WorkerManager.ScoreInUnit | src/labios/worker_manager.cpp:7-24 | with documented ranges and weights that add up to at most one, scores lie in [0, 1] |
| WorkerManager.ScoreMonotone | src/labios/worker_manager.cpp:7-24 | with non-negative weights, a worker that is in nothing worse (available, more capacity, less load, faster, higher tier and so on) scores no less, and more if it is better in something with a positive weight |
| WorkerManager.ScoreScale | src/labios/worker_manager.cpp:7-24 | each variable at its documented best contributes exactly its own weight |
| WorkerManager.BucketRange | src/labios/worker_manager.cpp:26-30 | scores in [0, 1] fall into five buckets of width 1/5, the last one closed |
| WorkerManager.BucketGap | src/labios/worker_manager.cpp:26-30 | a score in the same or a higher bucket is at most 1/5 lower |
| WorkerManager.PickedAlmostBest | src/labios/worker_manager.cpp:54-92 | each returned worker scores at most 1/5 less than any omitted one |
| WorkerManager.InMemoryWorkerManager.RegisterWorker | src/labios/worker_manager.cpp:116-125 | registers the worker and keeps the index equal to the current scores |
| WorkerManager.InMemoryWorkerManager.UpdateScore | src/labios/worker_manager.cpp:94-114 | updates a known worker, its bucket and when it became suspended |
| WorkerManager.InMemoryWorkerManager.DeregisterWorker | src/labios/worker_manager.cpp:127-132 | removes every trace of the worker |
| WorkerManager.InMemoryWorkerManager.TopNWorkers | src/labios/worker_manager.cpp:54-92 | min(n, count) distinct workers, higher buckets first, none in a lower bucket than an omitted one; afterwards every worker sits in the bucket of its score under the profile |
| Elastic.Evaluate | src/labios/elastic/decision_engine.cpp:7-36 | the decision grows exactly under lasting pressure with room, cooldown over and budget kept, prefers resuming, and goes below the minimum only over an energy budget |
| Elastic.CommissionSpaced | include/labios/elastic/orchestrator.h:167-206 | a commission after the cooldown and enough trailing full reports keeps the history spaced: any two commissions more than the cooldown and at least `pressure_threshold` reports apart, the last of them all full |
| Elastic.Orchestrator.UpdateQueueDepth | include/labios/elastic/orchestrator.h:25-31 | the pressure count is the number of full reports since the last other event |
| Elastic.Orchestrator.EvaluateOnce | include/labios/elastic/orchestrator.h:41-83 | keeps the whole-run invariant (containers recorded or stopped exactly once, commissions spaced), and says exactly when it commissions, resumes or removes, and whom; a removed worker is a candidate and leaves registry and records, and its container alone is asked to stop; a commission records one fresh container |
| Elastic.Orchestrator.CommissionWorker | include/labios/elastic/orchestrator.h:167-206 | records a fresh container under a fresh worker id, or changes nothing if the start fails |
| Elastic.Orchestrator.DecommissionWorker | include/labios/elastic/orchestrator.h:208-229 | removes only a worker commissioned here and stops its container |
| Rle.Compress | src/labios/sds/builtins.cpp:19-37 | the nested loops produce the greedy encoding |
| Rle.RunEncoded | src/labios/sds/builtins.cpp:19-37 | up to 255 equal bytes become one pair, the byte and then how often |
| Rle.Decompress | src/labios/sds/builtins.cpp:40-52 | the loop yields what the pairs stand for, and odd lengths are refused |
| Rle.Lossless | src/labios/sds/builtins.cpp:19-52 | decompressing the compressed form gives back every input |
| Rle.Optimal | src/labios/sds/builtins.cpp:19-37 | no list of (byte, count) pairs that decompresses to the same input is shorter |
| PipelineText.Serialize | src/labios/sds/types.cpp:12-28 | prints one line per stage, separated by newlines |
| PipelineText.Deserialize | src/labios/sds/types.cpp:30-74 | the stages of all non-empty lines, or the error of the first malformed one |
| PipelineText.ParseExact | src/labios/sds/types.cpp:30-74 | a text is parsed if and only if each of its non-empty lines has three tabs, into the stages of these lines in order |
| PipelineText.ParseFirstError | src/labios/sds/types.cpp:30-74 | otherwise the error is that of the first line with fewer, named by how many tabs it has |
| PipelineText.ParseFields | src/labios/sds/types.cpp:45-71 | three tabs separate operation, arguments, input stage and output stage; later tabs belong to the last field |
| PipelineText.NumberIs | src/labios/sds/types.cpp:61-69 | a stage number is the leading number of its field, with an optional minus, and -1 without digits or outside 32 bits |
| PipelineText.PrintedNumber | src/labios/sds/types.cpp:12-69 | reading back a printed 32-bit number gives it |
| PipelineText.ParsedIsPlain | src/labios/sds/types.cpp:30-74 | no field of a parsed stage contains a separator |
| PipelineText.RoundTrip | src/labios/sds/types.cpp:12-76 | parsing a printed pipeline gives it back if and only if no operation and no argument contains a tab or newline |
| Executor.ExecutePipeline | src/labios/sds/executor.cpp:5-47 | succeeds exactly when every stage has a known function, a source or backward input and a successful call; the result is the recursive evaluation of the result stage, otherwise the error of the first failing stage |
| Executor.SolvesExact | src/labios/sds/executor.cpp:17-39 | a list of outputs satisfies the stage equations (each stage known, fed with the source data or an earlier output, and successful) if and only if it is the list of evaluated outputs |
| Executor.SucceedsExact | src/labios/sds/executor.cpp:5-47 | execution succeeds if and only if the stage equations have a solution |
| Executor.FailureExact | src/labios/sds/executor.cpp:17-37 | when it fails, the stages before the failing one have their outputs, and the result is the unknown function, the forward reference or the failed call on them |
| Executor.ChainComposes | src/labios/sds/executor.cpp:17-39 | a chain of stages computes the composition of its functions |
| Executor.OutputOfPrefix | src/labios/sds/executor.cpp:17-39 | the output of a stage does not depend on later stages |
| Executor.ResultStageUnique | src/labios/sds/executor.cpp:41-47 | the result stage is unique |
| Executor.CompressThenDecompress | src/labios/sds/executor.cpp:5-47 | compressing and then decompressing is a pipeline that succeeds and changes no input |
| LabelId.FieldsApart | src/labios/label.cpp:115-117 | shifting, masking and or-ing is the weighted sum of the fields: they never overlap |
| LabelId.FieldsReadBack | src/labios/label.cpp:62-70 | every field can be read back modulo its width, and the sign bit is never set |
| LabelId.PackedOrder | src/labios/label.cpp:115-117 | ids of one node are ordered by truncated timestamp, then truncated sequence number |
| LabelId.IssueKeeps | src/labios/label.cpp:72-118 | a later timestamp or the next sequence number extends a strictly increasing list of ids of one node |
| LabelId.IdGenerator.Draw | src/labios/label.cpp:84-113 | a clock that has advanced starts a new count; otherwise the next number is drawn at once, and when they are used up the first later clock reading is awaited |
| LabelId.IdGenerator.Generate | src/labios/label.cpp:72-118 | whatever the clock reads, even backwards, each call extends the strictly increasing list of issued ids, as long as timestamps fit 41 bits and the counter does not wrap; which id it gives, and that it waits exactly when the numbers of a millisecond are used up |
| MinMax.Assign | src/labios/solver/minmax.cpp:10-71 | every label goes to exactly one available worker, in order, by shares of the workers ranked by profit; nothing if there is no label or no available worker |
| MinMax.HeldAtMost | src/labios/solver/minmax.cpp:45-68 | no worker holds more than its part of all labels in proportion to profit, rounded, or one if that is none; the first at most half a label per worker more |
| MinMax.HeldAtLeast | src/labios/solver/minmax.cpp:45-63 | a worker that holds labels, but not the last one, holds at least its part minus a half |
| MinMax.FirstHeldAtLeast | src/labios/solver/minmax.cpp:45-68 | the first worker always holds at least its part minus a half |
| MinMax.ProfitMonotone | src/labios/solver/minmax.cpp:29-32 | a worker that is at least as fast, large and unloaded and needs no more energy has no smaller profit, and a larger one if it is better in one of these and can have any |
| MinMax.Spread | src/labios/solver/minmax.cpp:45-68 | each ranked worker receives exactly its share and the first also what is left |
| MinMax.LeftoverBound | src/labios/solver/minmax.cpp:45-68 | with m workers at most m/2 labels are left for the final loop, despite rounding and the at-least-one rule |
| MinMax.EachTakesOne | src/labios/solver/minmax.cpp:58-59 | while labels remain the next worker takes at least one, whatever its profit, so the first i workers together take at least i or all |
| MinMax.OwnersAvailable | src/labios/solver/minmax.cpp:31-37 | labels only go to available workers |
| Pack.PackLabels | src/labios/shuffler.cpp:364-391 | the buffer is filled in place with the count and each label after its length |
| Pack.BytesWeigh | src/labios/shuffler.cpp:376-384 | counts and lengths are written with the low byte first |
| Pack.UnpackLabels | src/labios/shuffler.cpp:393-420 | the loop stays in bounds on every buffer and reads labels until the count or the buffer ends |
| Pack.RoundTrip | src/labios/shuffler.cpp:364-420 | unpacking gives back what was packed if and only if the count and all lengths fit in 32 bits |
| Pack.UnpackedOfPrefix | src/labios/shuffler.cpp:393-420 | unpacking a prefix of any buffer gives a prefix of the list |
| Pack.UnpackedCut | src/labios/shuffler.cpp:393-420 | cutting off a packed list leaves exactly the labels that lie wholly before the cut |

## Left out

* File sizes and short reads at the end of a file; bytes never written read as zero.
* Open modes, truncation and other file handling behind the backend; files are byte maps.
* Delete, Flush, Composite and Observe labels, URI and pipeline labels without a file path, and the granularity "per-application" in the end-to-end theorems (the serializability theorem asks that groups cover all conflicts).
* An exact end-to-end condition for batches whose writes overlap each other: the condition of `EndToEnd.ShuffleIsSerial` is sufficient there, but a later write may cover the bytes that a merged write loses.
* Failing or partially executed labels: a label is executed in one step.
* Label fields that the shuffler neither reads nor writes (continuation, URIs, version and others).
* Buffers that are null and exceptions in the POSIX adapter, several descriptors on one file, changing the read policy, the flush timer thread and flushing all descriptors at once.
* Offsets so large that offset plus size wraps around in the buffer's comparisons.
* Delivery of channel messages and callbacks; the channel is a state machine on values, with each method's steps in the order of the code.
* TTL expiry, `destroy` and the registry of workspaces; 64-bit overflow of version counters; store values of the wrong type.
* Keys with ':' or a leading '_', and several workspaces in one store, in the workspace refinement; which keys and names then collide is proved.
* The bits of label ids in the label manager: it draws any id above the earlier ones, which `LabelId` proves of the id generator.
* Redis, NATS, SQLite, FlatBuffers and Docker: Redis is a map, the container runtime hands out fresh ids, the warehouse is a map from label id to bytes.
* Unnamed weight profiles: the bucket index is only guaranteed once a named profile is set.
* `evaluate_tiered`, `record_commissioned`, reports and calls that overlap an evaluation, and overflow of the pressure count.
* Overlapping calls of `generate_label_id`: its compare-and-swap and counter reset are separate steps, so only sequential calls are ordered.
* Floating-point rounding: scores, profits and fractions are exact reals.
* Stage counts above the range of a 32-bit index in pipeline execution, and functions that do not return.
* The wording of the parser's three error messages, which are constructors here.
* The weight that MinMax computes for a worker and never uses.
* Constraint, random and round-robin solvers, the other codecs, URI parsing, configuration, telemetry and bindings: easier than the members above.
