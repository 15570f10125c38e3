# Verification of coremon's block pipeline and RFQ statistics

A Dafny 4.11 model of the core of coremon, a monitor that follows an Injective chain block by
block and writes statistics about it to a time-series database. `dafny verify dfyconfig.toml`
checks everything.

## What is modelled

**Fetching.** A configurable number of jobs draw heights from a shared counter, fetch blocks
concurrently and put them into a shared map; one announcer drains the map strictly in order into a
bounded channel; a watch loop pairs adjacent blocks and calls the block handler. It runs forward
without end, or backward down to a stop height. `Pipeline` is a state machine whose steps are the
critical sections and channel operations of the goroutines, so a run is an arbitrary interleaving.
`PipelineInvariant` proves the invariant, `PipelineRuns` the results over whole runs,
`PipelineObjects` the objects with the code of each critical section and of the watch loop, each
method proved to perform its step. `FetchJoin` is the fetch of a single block: three retrying
workers and a joiner; `FetchResults` tells from the steps of a run how often they try and what is
returned.

**RFQ blocks missed.** For a tx at height H with a client timestamp, the monitor reports
H - (N + 1), N being the latest block at or before the timestamp. It only keeps a sliding window of
3600 block times (`BlockTimes`). A live run goes forward, drops the low end of the window and
answers at once. A backfill goes backward, drops the high end and completes a point only when a
block old enough arrives. `Tracker` holds the tracker, as functions on values and as classes that
compact their slices in place while iterating over them. `Handler` is the loop over a pair of
blocks, for both the RFQ-only and the full handler. `Conservation` shows that no point is lost,
duplicated or set twice over any run. `Backfill` and `BackfillRun` give the exact state and output of a backward
run, `LiveRun` those of a forward run, `Directions` the comparison of the two, and `OneTx` runs over chains
with a single RFQ tx, as inputs on which they differ. `Written` says what a run writes for a transaction, told
from the transaction itself. The only assumption about the
chain is that block times do not decrease (`Monotonic`; CometBFT, BFT Time, Time Monotonicity) and
that the node answers a request with the block of that height (`Faithful`).

**The whole.** `EndToEnd` puts the pipeline in front of the handler: whatever the number of jobs and
their interleaving, what is written is determined by the chain. `Completion` lets the handler fail on the
blocks it cannot read, and shows where a run then ends and what it has written.

**Smaller parts.** `CommitTiming`, `SignatureStats` and `Deviation` (delays of the signatures of the last
commit, over the reals), `ErrorLog` (cutting the embedded message out of a failed tx log before classifying
it), `JsonSearch` (bounded key search), `Layout` (the 24-column dashboard packer). `Chain` holds
the shared data, `Rearrange` facts about multisets.

## Where the code does less than its documentation or its other direction

- `--reverse <height>` does not handle the given height: that block is fetched and stays in the
  map; the first block handled is the one below it (`PipelineRuns.FirstHeightIsNotAnnounced`).
- With no stop height, or a stop height of 1, the tracker still expects blocks below block 1, so
  points whose timestamp is before block 1 are never written (`BackfillRun.NothingLostIff` for the
  exact condition, `OneTx.GenesisLosesPoint` for an input).
- Live and backfill do not always agree. A backfill knows blocks after the tx, so a timestamp later
  than the next block gives -1 live and a smaller number in a backfill; and it looks one block deeper
  than the live window (`LiveRun.AnswersAgreeIff` and `Directions.SameNumbersIff` for the exact condition,
  `OneTx.LateTimestampsDisagree` and `OneTx.OldestTimestampsDisagree` for inputs). The comment on
  `Flush` says that in forward direction a timestamp too old is left unset, which is what happens.
- With times out of order, `FloorHeight` can answer for a timestamp that `Covers` rejects, against its
  comment (`BlockTimes.CoversIffFloorExactly` for the exact condition, `BlockTimes.FloorWithoutCoverage`
  for an input). No chain with non-decreasing times gets there.
- Signatures with an unknown flag enter the commit timing as if they were commit signatures, while
  `blockSignaturesStats` does not count them (`CommitTiming.BlockSignaturesStats` for the exact
  condition, `CommitTiming.UnknownFlagIsTimed` for an input).
- Without a signature that enters the timing, `lastCommitMetrics` returns an empty map, not the active
  set (`CommitTiming.LastCommitMetrics`).

## Model

| member | source | states |
|---|---|---|
| `PipelineRuns.ChannelIsInOrder` | pkg/coremon/block_watcher.go:398-541 | in every interleaving of any number of jobs, what was ever sent on the channel is a prefix of init, init+1, ... (forward) or of init-1, ..., lowestHeight (backward), each with the block the node serves for that height |
| `PipelineRuns.HeightsAreConserved` | pkg/coremon/block_watcher.go:413-431 | each dispensed height is in exactly one place: being fetched by exactly one job, in the map, or taken by the announcer; no other height is anywhere |
| `PipelineRuns.FirstHeightIsNotAnnounced` | pkg/coremon/block_watcher.go:398-403 | backward, the height the sync is given is fetched and stored but never announced |
| `PipelineRuns.BacklogBound` | pkg/coremon/block_watcher.go:513-531 | the map never holds more than 1024 blocks per job plus one per sleeping job, because the decision to sleep is taken in the critical section of the insert |
| `PipelineRuns.SleepsIffTooMany` | pkg/coremon/block_watcher.go:515-537 | in every run, a job goes on at once after its insert exactly if the map then holds at most 1024 blocks per job, and sleeps exactly if it holds more |
| `PipelineRuns.SleepHasACause` | pkg/coremon/block_watcher.go:519-531 | in every run, a sleeping job went to sleep after an insert of its own that left more than 1024 blocks per job in the map, and has slept since |
| `PipelineRuns.WakesIffFew` | pkg/coremon/block_watcher.go:524-531 | a sleeping job may wake exactly while the map holds at most 1024 blocks per job, and waking changes nothing else |
| `PipelineRuns.SendBlocksIff` | pkg/coremon/block_watcher.go:358-358 | the announcer's send is held back exactly while the channel holds 100 blocks per job |
| `PipelineRuns.WakeupsAreNotLost` | pkg/coremon/block_watcher.go:411-429 | while the announcer is parked in Wait with no signal outstanding, the block it waits for is not in the map |
| `PipelineRuns.HeightsDoNotUnderflow` | pkg/coremon/block_watcher.go:433-484 | the shared counter, the announcer's wanted and taken heights, the fetched and stored heights and, with a faithful node, the last synced height are never negative, so no uint64 height wraps below zero |
| `PipelineRuns.HandledPairs` | pkg/coremon/block_watcher.go:219-301 | the handler is called with exactly the adjacent pairs of the stream, in order, each once; with a faithful node the last synced height after k >= 1 calls is init+k or init-k |
| `PipelineRuns.MismatchBlamesNode` | pkg/coremon/block_watcher.go:242-245 | the height-mismatch exit is only reached when the node served a block of a wrong height; with a faithful node it is unreachable |
| `PipelineRuns.StuckIffComplete` | pkg/coremon/block_watcher.go:398-541 | with at least one job, a pipeline that has not failed has no step but retries exactly if it is a completed backward sync: no deadlock, even with every job asleep in the throttle |
| `PipelineRuns.StepConsumesWork` | pkg/coremon/block_watcher.go:398-541 | in both directions, a measure over undrawn heights, job phases, map, announcer and channel strictly falls on every step that is not a retry; backward it is never negative |
| `PipelineRuns.BackwardRunIsBounded` | pkg/coremon/block_watcher.go:436-442 | a backward run makes at most 7 (init - lowestHeight + 1) + jobs + 1 steps besides retries |
| `PipelineRuns.RunKeepsCounts` | pkg/coremon/block_watcher.go:413-522 | in number too, heights are conserved: as many have been drawn as are being fetched, stored or taken |
| `PipelineRuns.DrawnIsBounded` | pkg/coremon/block_watcher.go:513-531 | at most 1126 heights per job, plus one, are drawn ahead of what the watch loop has received |
| `PipelineRuns.ForwardRunIsBounded` | pkg/coremon/block_watcher.go:398-541 | a forward run cannot go on without delivering: its steps besides retries are bounded by 7 times the blocks received plus a multiple of the jobs |
| `PipelineRuns.FinishedRunIsExact` | pkg/coremon/block_watcher.go:398-541 | a run that can no longer move has announced exactly init-1 down to lowestHeight and handled exactly their adjacent pairs |
| `PipelineInvariant.StepKeepsInv` | pkg/coremon/block_watcher.go:398-541 | every step of every goroutine keeps the joint invariant behind the results above |
| `PipelineInvariant.WatchStepFollowsStream` | pkg/coremon/block_watcher.go:232-258 | one received block moves the watch loop along the stream: it holds the last block, has handled all pairs before it, or has stopped with the right exit |
| `Pipeline.InitHeight` | pkg/coremon/block_watcher.go:177-205 | the height a getter starts from: the rewind height if one is given, else one above the chain head; never 0 |
| `PipelineObjects.BlockGetter.constructor` | pkg/coremon/block_watcher.go:342-376 | a new getter represents the initial state, with lowestHeight = StopHeight - 1 above 1 and else 1 |
| `PipelineObjects.BlockGetter.GetHeightToFetch` | pkg/coremon/block_watcher.go:465-484 | performs the drawing step on the shared counter and returns the drawn height, or that none is left |
| `PipelineObjects.BlockGetter.Publish` | pkg/coremon/block_watcher.go:513-522 | performs the insert step on the shared map and decides in the same section whether the job sleeps: exactly if more than 1024 blocks per job are stored |
| `PipelineObjects.BlockGetter.TooFarFromHead` | pkg/coremon/block_watcher.go:524-531 | the look of a sleeping job tells whether more than 1024 blocks per job are stored, and so enables exactly waking or staying asleep |
| `PipelineObjects.BlockGetter.TakeBlock` | pkg/coremon/block_watcher.go:411-429 | performs the announcer's look: removes the wanted block and hands it to the send, or parks |
| `PipelineObjects.BlockGetter.NextHeight` | pkg/coremon/block_watcher.go:433-447 | the height the announcer wants after a send, or that a backward sync is done |
| `PipelineObjects.Watcher.HandleNewBlockData` | pkg/coremon/block_watcher.go:321-339 | moves the last synced height to the handled block's, only if the handler succeeded |
| `PipelineObjects.Watcher.StartWatching` | pkg/coremon/block_watcher.go:221-301 | both loops, over any list of received blocks and any handler, do what folding the watch step over the list does, stopping at the first exit |
| `PipelineObjects.WatchAllStops` | pkg/coremon/block_watcher.go:242-254 | once that fold has stopped, further blocks change nothing |
| `PipelineObjects.WatchAllStopsAtCause` | pkg/coremon/block_watcher.go:242-257 | one more block stops the fold with a height mismatch exactly if it does not fit, and with the handler's failure exactly if it fits and the handler fails; else its pair, and only then, is handled |
| `PipelineObjects.WatchAllHandlesPairs` | pkg/coremon/block_watcher.go:221-301 | over the stream of a faithful node and a handler that succeeds, that fold never exits and handles exactly the adjacent pairs |
| `FetchJoin.JoinIsSound` | pkg/coremon/block_watcher.go:618-633 | in every interleaving the call fails exactly if some worker has given up; a success carries block and results, and validators unless skipped |
| `FetchResults.GivesUpAfterTen` | pkg/coremon/block_watcher.go:549-571 | in every run a worker gives up exactly when its tenth attempt has failed, and never fails more often |
| `FetchResults.FailsAfterTen` | pkg/coremon/block_watcher.go:618-627 | a call returns an error exactly if ten attempts of some worker have failed |
| `FetchResults.ReturnsWhatWasFetched` | pkg/coremon/block_watcher.go:618-633 | the block, the results and the validator set a call returns are, each at its place, the value its own worker fetched, if and only if that worker fetched it; each worker fetches at most one |
| `FetchJoin.SendsNeverBlock` | pkg/coremon/block_watcher.go:544-616 | a worker that has a value or an error to send can always send it, and nothing is sent on the closed error channel |
| `FetchJoin.JoinTerminates` | pkg/coremon/block_watcher.go:549-552 | no run is longer than forty steps, and while the joiner waits somebody can move, so the call always returns |
| `FetchJoin.StepKeepsInv` | pkg/coremon/block_watcher.go:554-627 | every attempt, send, close and receive keeps the invariant relating each worker, its channel and the error channel to what the joiner has taken |
| `BlockTimes.BlockTimeCache.Add` | pkg/coremon/rfq.go:75-107 | the new heights and times are those of the addition on values, for every branch, and stay contiguous, paired and within size |
| `BlockTimes.AddKeepsRange` | pkg/coremon/rfq.go:75-107 | whatever block is added to a contiguous cache, it stays contiguous and contains the block; a known block keeps its time, a neighbouring block extends the range by one unless full, any other block starts the range over, and no other time changes |
| `BlockTimes.BlockTimeCache.Covers` | pkg/coremon/rfq.go:110-112 | whether the lowest cached time is at or before the timestamp |
| `BlockTimes.BlockTimeCache.FloorHeight` | pkg/coremon/rfq.go:125-134 | sort.Search as its loop returns the height before the boundary that bisection defines, or nothing at boundary 0 |
| `BlockTimes.SearchFindsBoundary` | pkg/coremon/rfq.go:126-128 | over times in order, bisection returns the one boundary between times at or before the timestamp and times after it |
| `BlockTimes.CoversIffFloor` | pkg/coremon/rfq.go:110-134 | a covered timestamp always has a floor, whatever the times; with times in order the two are equivalent |
| `BlockTimes.FloorIff` | pkg/coremon/rfq.go:110-134 | whatever the times, a timestamp has a floor exactly if a probe of the bisection on its way to the low end is at or before it, so floor and coverage differ exactly for an uncovered timestamp with such a probe |
| `BlockTimes.CoversIffFloorExactly` | pkg/coremon/rfq.go:110-134 | the two coincide for every timestamp if and only if those probes are at or after the low end |
| `BlockTimes.FloorWithoutCoverage` | pkg/coremon/rfq.go:110-134 | an input that fails it: a cache with a floor for a timestamp it does not cover |
| `BlockTimes.WindowKnown` | pkg/coremon/rfq.go:82-84 | observing a block of the window again changes nothing |
| `BlockTimes.WindowForward` | pkg/coremon/rfq.go:85-93 | going forward, the cache holds exactly the latest min(n, size) observed blocks with their own times |
| `BlockTimes.WindowBackward` | pkg/coremon/rfq.go:94-101 | going backward, the cache holds exactly the lowest min(n, size) observed blocks with their own times |
| `BlockTimes.FloorOfWindow` | pkg/coremon/rfq.go:110-134 | over a window of a chain with non-decreasing times, the lookup is the linear scan of the history for the last block at or before the timestamp, and coverage is decided by the lowest block |
| `Tracker.PendingPoint.Resolve` | pkg/coremon/rfq_points.go:81-96 | the loop that compacts the missing fields in the array it iterates over does to the point what settling does to its value |
| `Tracker.RfqTracker.ObserveBlocks` | pkg/coremon/rfq_points.go:52-61 | observes both blocks in the order of the direction and changes nothing else |
| `Tracker.RfqTracker.Defer` | pkg/coremon/rfq_points.go:201-221 | the deferred point waits for exactly the client timestamps the tx has, as the fields that MissingFields gives |
| `Written.CreatedFrom` | pkg/coremon/rfq_points.go:201-221 | the point created for an RFQ tx waits for the request time of its first RFQ action as rfq_id_blocks_missed and for its memo time as memo_blocks_missed, each exactly if present |
| `Tracker.FindRfqIsFirst` | pkg/coremon/rfq.go:217-219 | the request time of a tx is that of the first RFQ action among its messages, whatever follows |
| `Tracker.FindRfqIff` | pkg/coremon/rfq.go:217-282 | a tx counts as RFQ exactly if some message is an RFQ action |
| `Tracker.RfqTracker.AddPending` | pkg/coremon/rfq_points.go:312-316 | appends to the slice, growing its backing array when full, and keeps all other points |
| `Tracker.RfqTracker.TxPoints` | pkg/coremon/rfq_points.go:110-319 | returns the WASM error and quote points of the tx at once and defers its RFQ point |
| `Tracker.RfqTracker.Flush` | pkg/coremon/rfq_points.go:65-107 | although pending points are resolved and compacted in the array being iterated, the points returned and those kept are exactly the completed and the uncompleted ones, in order |
| `Handler.FlattenMsgs` | pkg/coremon/rfq_handler.go:45-66 | the nested loops compute the one-level flattening, failing at the first message that does not unpack |
| `Handler.FlattenOpensOneLevel` | pkg/coremon/rfq_handler.go:48-66 | flattening keeps the order of messages and replaces a wrapper by exactly what it carries, nested wrappers untouched |
| `Handler.FlattenAppend` | pkg/coremon/rfq_handler.go:48-66 | flattening a list is flattening its parts, and fails exactly if a part fails |
| `Handler.FlattenKeepsPlain` | pkg/coremon/rfq_handler.go:48-53 | messages that are not wrappers stay as they are, all of them and in order |
| `Handler.FlattenSucceedsIff` | pkg/coremon/rfq_handler.go:55-61 | flattening fails exactly if something in a wrapper does not unpack |
| `Handler.RfqOnlyHandle` | pkg/coremon/rfq_handler.go:36-101 | one call does to the tracker, and writes, what the handler function says: observe, each tx in order, flush; on a failed tx it stops |
| `Handler.FullHandle` | pkg/coremon/block_handler.go:77-661 | whatever else the full handler measures, it succeeds exactly if its own computations and the RFQ-only handler do, and then keeps the same tracker as the RFQ-only handler and its RFQ and WASM error points are exactly those of that handler, in the same order |
| `Handler.FullTx` | pkg/coremon/block_handler.go:393-508 | one tx of the full handler: the RFQ points of the tx, in order, among its own measurements, and the same change to the tracker |
| `Handler.FullTxs` | pkg/coremon/block_handler.go:393-508 | the loop over the transactions of a block succeeds exactly if its own computations and the RFQ part of each tx do, with the same projection and tracker |
| `Handler.ProjectAround` | pkg/coremon/block_handler.go:498-505 | other measurements before and after RFQ points do not show in the projection to RFQ points |
| `Conservation.FlushConserves` | pkg/coremon/rfq_points.go:78-102 | a flush splits the pending points into returned and kept ones without losing, adding or renaming any |
| `Conservation.SettleSetsOnce` | pkg/coremon/rfq_points.go:81-93 | one flush: a set field keeps its value and is not missing afterwards, and only missing fields are set |
| `Conservation.RunIsConsistent` | pkg/coremon/rfq_points.go:65-107 | over any run, no pending point has a field that is both set and missing, or missing twice |
| `Conservation.FieldsAreSetOnce` | pkg/coremon/rfq_points.go:65-107 | over all flushes of a run each missing field is set at most once: a point pending at any moment of the run ends as a pending or returned point of the same tx in which every field set by then has kept its value, and no other field than those missing has been set |
| `Conservation.NothingWaitsWithoutLowerBlocks` | pkg/coremon/rfq_points.go:72-93 | when no lower block is to come, a flush keeps nothing |
| `Conservation.ForwardLeavesNothing` | pkg/coremon/rfq_points.go:63-107 | forward, nothing is pending after any handled pair |
| `Conservation.RunConserves` | pkg/coremon/rfq_points.go:65-107 | over any run, the points created by transactions are as a multiset the points returned plus those still pending |
| `Conservation.RunSucceedsIff` | pkg/coremon/rfq_handler.go:42-66 | a run of the handler succeeds exactly if every transaction of every handled block decodes and unpacks |
| `Conservation.ReadableIff` | pkg/coremon/rfq_handler.go:42-66 | readable means that every tx decodes and everything in its wrappers unpacks |
| `Conservation.HandleEffect` | pkg/coremon/rfq_handler.go:36-101 | a handled pair adds the block's new points to pending, then returns the completed ones and keeps the others, judged by the cache after both blocks |
| `Backfill.JudgedAtFirst` | pkg/coremon/rfq_points.go:81-93 | backward, at its own pair a timestamp is set, postponed or dropped exactly as the chain says |
| `Backfill.WaitingIsJudged` | pkg/coremon/rfq_points.go:81-93 | deferred resolution is exact despite trimming: a postponed timestamp is set at the first lowest height at or before it, to H - (L + 1), however much of the high end the cache has dropped, or given up once no deeper block will be looked at |
| `Backfill.AnswerIsStable` | pkg/coremon/rfq_points.go:78-102 | once decided, the value does not depend on how much further down the run goes |
| `Backfill.SettleMakesProgress` | pkg/coremon/rfq_points.go:81-96 | settling a point at height L brings it from what the chain determines at L+1 to what it determines at L |
| `BackfillRun.BackwardRunIsExact` | pkg/coremon/rfq_points.go:52-107 | over blocks whose transactions decode and unpack, a backward run of any length succeeds, and its whole state and output are known: the cache is the window, the points written and kept, with their fields, are those the chain determines |
| `BackfillRun.CreatedAreAliveOrFinished` | pkg/coremon/rfq_points.go:78-102 | each created point is, exactly once, either returned or still kept |
| `BackfillRun.KeptPointsWaitBelow` | pkg/coremon/rfq_points.go:90-101 | every kept point is less than a window above the lowest height and waits only for timestamps before its block |
| `BackfillRun.NothingLeftIff` | pkg/coremon/rfq_points.go:70-101 | nothing is pending at height L exactly if no created point has a timestamp that still waits there |
| `BackfillRun.NothingLostIff` | pkg/coremon/rfq_points.go:72-73 | at the bottom nothing is lost exactly if StopHeight >= 2, or no point within a window of block 1 has a timestamp before it |
| `LiveRun.ForwardRunIsExact` | pkg/coremon/rfq_points.go:52-107 | over blocks whose transactions decode and unpack, a forward run of any length succeeds, and its whole state and output are known: the cache is the window, nothing is pending, the points written are those the chain determines |
| `LiveRun.AnswerRanges` | pkg/coremon/rfq_points.go:83-85 | all values lie in [-1, 3598] forward and in [-3599, 3599] backward |
| `LiveRun.AnswersAgreeIff` | pkg/coremon/rfq_points.go:78-93 | for one timestamp, a forward and a backward run give the same answer if and only if the two low ends are on the same side of it and the next block, if the backward run knows it, is later |
| `LiveRun.DirectionIndependence` | pkg/coremon/rfq_points.go:65-107 | the point a forward run writes equals the point a backward run writes for the same tx if and only if they agree on each of its timestamps |
| `LiveRun.DirectionsAgreeInsideWindow` | pkg/coremon/rfq_points.go:52-107 | for time(H-3599) <= ts < time(H+1), the answer a forward run started at or below H-3599 looks up and the one a backward run allowed down to the floor looks up are both H - (floor + 1), the floor being taken over the whole history |
| `Directions.BothRunsWrite` | pkg/coremon/rfq_points.go:52-107 | direction independence of what is written: for a tx at H with time(H-3599) <= ts < time(H+1), every forward run that starts at or below H-3599 and goes to H or beyond, and every backward run that starts at or above H and is allowed down to the floor, write the same point, with H - (floor + 1) for each of its timestamps |
| `Directions.SameNumbersIff` | pkg/coremon/rfq_points.go:65-107 | a forward run over any range that contains the blocks of a completed backward run writes for those blocks the same multiset of RFQ points if and only if the two agree on every timestamp |
| `Written.LiveWritesTx` | pkg/coremon/rfq_points.go:110-319 | from the tx itself: for each RFQ tx of its range a forward run has written one point and no other, with rfq_id_blocks_missed from the request time of the first RFQ action alone and memo_blocks_missed from the memo time alone, each absent without its timestamp or without an answer |
| `Written.BackfillWritesTx` | pkg/coremon/rfq_points.go:110-319 | the same for a backward run that no longer waits for the tx's timestamps |
| `Written.NoActionNoPoint` | pkg/coremon/rfq_points.go:181-183 | a tx without an RFQ action has no RFQ point in either direction |
| `Written.RunCount` | pkg/coremon/rfq_points.go:154-178 | over any run, each WASM error point is written as often as its tx, failed in wasm, is handled, and each quote point as often as its RFQ tx with that many quotes is handled |
| `Written.LiveWritesOnce` | pkg/coremon/rfq_points.go:154-310 | a forward run writes one WASM error point for each failed tx of its range and one quote point for each quote of each RFQ tx, and no other such point |
| `Written.BackfillWritesOnce` | pkg/coremon/rfq_points.go:154-310 | so does a backward run |
| `Written.BlockInOrder` | pkg/coremon/rfq_points.go:110-319 | the points a block's transactions write at once are in the order of the transactions, the WASM error first and then the quotes in order |
| `OneTx.LateTimestampsDisagree` | pkg/coremon/rfq_points.go:83-85 | an input: over a chain with one RFQ tx at height 5 stamped after block 6, a forward run writes -1 and a backward run -3 |
| `OneTx.OldestTimestampsDisagree` | pkg/coremon/rfq_points.go:90-93 | an input: over a chain with one RFQ tx at height 4000 stamped at block 400, one below the forward window, a forward run writes no value and a backward run 3599 |
| `EndToEnd.StopHeightsAgree` | pkg/coremon/rfq_points.go:70-73 | configured by the same options, the tracker expects earlier blocks at every height above the watcher's lowest; at the lowest height it expects none exactly if StopHeight >= 2 |
| `EndToEnd.LastPairIsAtStopHeight` | pkg/coremon/block_watcher.go:436-442 | for StopHeight >= 2 the last handled pair of a finished backfill is (StopHeight - 1, StopHeight) |
| `EndToEnd.BackfillIsExact` | cmd/coremon/cmd_process.go:118-145 | whatever the number of jobs and their interleaving, a finished backfill has written exactly the points the chain determines |
| `EndToEnd.BackfillLosesNothingIff` | pkg/coremon/rfq_points.go:72-101 | a finished backfill leaves no point behind exactly if StopHeight >= 2 or no early point has a timestamp before block 1; with StopHeight >= 2 every created point is written once |
| `EndToEnd.LiveIsExact` | cmd/coremon/cmd_process.go:118-145 | at every moment of every interleaving of a live run, the points written are those the chain determines and none is pending |
| `Completion.BackfillCompletesOrStops` | pkg/coremon/block_watcher.go:262-301 | with a handler that fails exactly on blocks it cannot read: a backfill that can no longer move has handled everything down to its lowest height, or has stopped at the first unreadable block from above; it completes if and only if it can read all of them |
| `Completion.BackfillWritesToItsEnd` | pkg/coremon/block_watcher.go:288-298 | at every moment, and also after it has stopped early, a backfill has written exactly the points the chain determines above the height it has come to |
| `Completion.LiveRunStopsAtUnreadable` | pkg/coremon/block_watcher.go:221-260 | a live run has handled readable blocks only, never sees a height mismatch, and stops only at a block that cannot be read |
| `Completion.LiveRunWritesToItsEnd` | pkg/coremon/block_watcher.go:221-260 | at every moment, and also after it has stopped, a live run has written exactly the points the chain determines up to its height |
| `OneTx.GenesisLosesPoint` | pkg/coremon/rfq_points.go:72-73 | an input: without a stop height, a two-block backfill ends with its only RFQ point never written |
| `EndToEnd.HandleAll` | pkg/coremon/rfq_handler.go:36-101 | a fresh tracker object driven over a list of pairs ends in the state, and has written the points, of the run function, up to the first failure |
| `EndToEnd.FullHandleAll` | pkg/coremon/block_handler.go:41-661 | over a whole run the full handler succeeds exactly if its own computations and the RFQ-only handler do, and then has kept the same tracker and written the RFQ-only points, in the same order |
| `ErrorLog.QuotedIff` | pkg/coremon/rfq.go:468-468 | the scanner stops at exactly the first quote that ends a well-escaped body |
| `ErrorLog.WellEscapedUnits` | pkg/coremon/rfq.go:468-468 | a well-escaped body is a sequence of units: a character other than quote and backslash, or a backslash and any character but a newline |
| `ErrorLog.StripRemovesPayload` | pkg/coremon/rfq.go:477-479 | after a prefix without a marker, a well-escaped payload becomes the placeholder and the rest is stripped on its own |
| `ErrorLog.PayloadHiddenIff` | pkg/coremon/rfq.go:477-479 | after a prefix without a marker and before any rest, a payload is replaced as a whole if and only if it is well escaped |
| `ErrorLog.StripTellsEndsApart` | pkg/coremon/rfq.go:477-479 | two different ends of a text never become equal by stripping |
| `ErrorLog.StripIsIdempotent` | pkg/coremon/rfq.go:477-479 | stripping leaves nothing to strip, for every text |
| `ErrorLog.FirstMatchDecides` | pkg/coremon/rfq.go:534-538 | patterns are tried in order: the first that matches decides |
| `ErrorLog.NoMatchIsUnknown` | pkg/coremon/rfq.go:540-540 | without a matching pattern the class is other and the key unknown |
| `ErrorLog.ClassifyRfqError` | pkg/coremon/rfq.go:531-541 | the loop returns the error of the first pattern that matches the stripped text, else other/unknown |
| `ErrorLog.PayloadCannotChangeClass` | pkg/coremon/rfq.go:531-541 | two well-escaped payloads in the same surroundings get the same class, for any patterns |
| `JsonSearch.FindJSONKey` | pkg/coremon/rfq.go:309-336 | succeeds if and only if some path of fewer than maxDepth nested members reaches an object with the key, and returns the value at the first such path in sorted-key preorder |
| `JsonSearch.FirstHitIsUnique` | pkg/coremon/rfq.go:323-333 | there is only one such first path, so the result is determined |
| `JsonSearch.BeforeMeans` | pkg/coremon/rfq.go:327-327 | of two keys that part after a common beginning the one with the smaller character comes first, and a key comes before its extensions |
| `JsonSearch.PrecedesMeans` | pkg/coremon/rfq.go:309-336 | of two paths that part after a common beginning the one with the smaller key comes first, and an object comes before what it contains |
| `JsonSearch.NestedIsReached` | pkg/coremon/rfq.go:314-333 | a value put under the key inside objects nested along a path is reached, and returned, along that path |
| `CommitTiming.LastCommitRoundDuration` | pkg/coremon/block_handler.go:697-733 | the one-pass loop returns the largest distance in time between two signatures that are neither absent nor nil, and 0 without any |
| `CommitTiming.BlockSignaturesStats` | pkg/coremon/block_handler.go:736-753 | the numbers of commit, nil and absent signatures; the signatures that enter the timing are the commit ones plus those with an unknown flag, so ok counts them if and only if no flag is unknown |
| `CommitTiming.UnknownFlagIsTimed` | pkg/coremon/block_handler.go:703-706 | an input: a signature with an unknown flag enters the timing and is counted nowhere |
| `CommitTiming.ComputeSortedValidatorSigs` | pkg/coremon/block_handler.go:813-839 | a time-sorted rearrangement of exactly the signatures that are neither absent nor nil |
| `CommitTiming.ComputeRelativeDelays` | pkg/coremon/block_handler.go:843-857 | the delay of each address from the first entry; the last entry of an address wins |
| `CommitTiming.LastEntryWins` | pkg/coremon/block_handler.go:850-854 | of several entries with one address, the last one's delay is kept |
| `CommitTiming.RelativeDelayOf` | pkg/coremon/block_handler.go:850-854 | with distinct addresses, each entry's delay is its time minus the first time |
| `CommitTiming.LastCommitMetrics` | pkg/coremon/block_handler.go:927-1016 | for any tie-breaking of the sort: nil without signatures, empty without a commit signature, else keyed by exactly the non-absent signers and the active set (so these are the keys if and only if a signature enters the timing, or there is nobody to report); with distinct addresses every field of every signer is the stated function of the signatures, and the others are absent |
| `CommitTiming.RoundDurationAgrees` | pkg/coremon/block_handler.go:697-857 | the round duration equals last minus first of every sorted rearrangement and is the largest relative delay |
| `CommitTiming.CommitDelays` | pkg/coremon/block_handler.go:968-982 | for a commit signature, relative and absolute delay coincide and lie between 0 and the round duration |
| `CommitTiming.RoundDurationIsReported` | pkg/coremon/block_handler.go:968-982 | some reported relative delay is the round duration |
| `CommitTiming.ReactionTimes` | pkg/coremon/block_handler.go:985-1000 | the reaction time of a commit signer other than the proposer is the largest of its distances behind such signers, reached by one of them, and never negative |
| `CommitTiming.ProposerDelays` | pkg/coremon/block_handler.go:985-990 | the proposer has a delay exactly if somebody else signed the commit; it is the largest of its distances behind them, negative exactly if it signed before all of them |
| `CommitTiming.ReportedDistanceIsBounded` | pkg/coremon/block_handler.go:971-982 | the squared reported distance of a delayed commit signer is at most the number of delayed signers less one |
| `SignatureStats.NonZeroDelays` | pkg/coremon/block_handler.go:866-872 | the non-zero delays in milliseconds, in some order of the map |
| `SignatureStats.ComputeStdDevOfDelays` | pkg/coremon/block_handler.go:861-895 | the population deviation of the non-zero delays, 0 for fewer than two, the same for every order of the map |
| `SignatureStats.ComputeStdDevDistance` | pkg/coremon/block_handler.go:899-925 | the distance from the mean of the non-zero delays in deviations, 0 without deviation or such delays, the same for every order |
| `Deviation.StdDevIs` | pkg/coremon/block_handler.go:861-895 | for n >= 2 non-zero delays d, the deviation is not negative and (n s)^2 = n sum(d^2) - sum(d)^2, the sums over the delays themselves; it is 0 exactly if all non-zero delays are equal, and for fewer than two |
| `Deviation.DistanceIs` | pkg/coremon/block_handler.go:899-925 | the distance times the deviation is the value less the mean of the non-zero delays, with its sign; it is 0 without deviation or without such delays |
| `Deviation.NonZeroElements` | pkg/coremon/block_handler.go:866-872 | the list of non-zero delays holds the milliseconds of exactly the non-zero delays |
| `Deviation.DelayedCount` | pkg/coremon/block_handler.go:866-872 | and is as long as there are keys with a non-zero delay |
| `SignatureStats.StdDevIgnoresOrder` | pkg/coremon/block_handler.go:866-894 | the deviation does not depend on the order of the map iteration |
| `SignatureStats.DispersionIsBounded` | pkg/coremon/block_handler.go:861-925 | for two or more non-zero delays with non-zero deviation, their distances sum to 0, the squares sum to n, and each square is at most n-1, for any two iteration orders |
| `SignatureStats.DistanceIsBounded` | pkg/coremon/block_handler.go:861-925 | for every map and every square root, the squared distance of a non-zero delay is at most the number of non-zero delays less one |
| `Layout.Pack` | templates/rfq_dashboards.py:325-351 | ids are 1..n, sizes are kept, no later panel overlaps an earlier one, each stays within 24 columns exactly if its width does, the bottom is at most the sum of heights; with no zero width, each panel stands right of the previous one if it fits and else starts a line below everything before it |
| `Layout.NoCellIsCoveredTwice` | templates/rfq_dashboards.py:325-351 | no grid cell belongs to two panels, and none lies below the sum of the heights |
| `Layout.StandsBesideIff` | templates/rfq_dashboards.py:333-350 | with no zero width, a panel stands right of the panel before it exactly if the 24 columns have room for it, and a row takes one line across all of them |

## Left out

- Closing: the `closeC` branches of the announcer and the jobs, `blockGetter.Close`, `isClosing`, `isDone` and
  `ErrShuttingDown`. Nothing closes a getter, and the model covers runs without shutdown.
- Time: the one-second retry delay, the 200 ms sleep of the throttle and the retry back-off are
  steps that may happen at any moment; a failed fetch and a look at a long backlog are retries.
- Fairness of the scheduler: progress is stated as the existence of a step and a measure that falls, not as
  eventual termination under a fairness assumption.
- The upper end of uint64 and int64 heights and times: numbers are unbounded; only underflow is excluded.
  Durations do not saturate at 292 years.
- The goroutine bodies around the critical sections (loops of `announceBlocks` and `pullBlocks`) are steps
  of the state machine, not methods; the channel between announcer and watch loop is part of its state.
- `sync.Cond.Signal` has one possible waiter here, so waking it is waking the announcer.
- RPC, InfluxDB, statsd, logging, command line, environment, the system watcher: a fetch is a step that
  yields the block of its height or fails.
- Decoding of transactions, protobuf, JSON text, and every regular expression but the quoted-message one:
  transactions are data with a decodable flag, error patterns are arbitrary predicates on texts, and a JSON
  document is an object (`null` counts as one without members) or not one.
- Tracker.RfqTracker.TxPoints: does not model tags and fields other than the two blocks-missed fields, which transactions count as RFQ
  actions, and which results carry quotes (`findRFQTx`, `parseRFQMemo`, `latencyBucket`,
  `wasmErrorTemplate`, `staleLateBy`, `firstWasmExec` and the arity tables), because they do not depend on the
  tracker; the points it creates, and when, are modelled.
- The measurements of the full handler that are not about RFQ: they are arbitrary texts around the RFQ calls,
  and it may fail where those are computed. They are computed from the blocks alone, not from the tracker.
- `BlockTimeCache`: the two slices are sequence fields that the methods reassign, so the reuse of their
  backing arrays is not captured.
- Floating-point rounding: the statistics are over the reals, with any function for the square root where
  its value does not matter.
- `SignatureStats`: an iteration over a map picks keys in any order, the same keys being enumerated each time.
- CommitTiming.LastCommitMetrics: with two signatures of one address, only the key set is stated; consensus excludes such commits.
- `sort.Slice` and `sort.Strings` are any sorted rearrangement of their input.
- `Layout`: panels are values; a panel listed twice, which the program would place twice in one dictionary, is
  two panels. Titles, queries and the rest of the dashboards are text.
