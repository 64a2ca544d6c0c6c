# Verified model of the gap-free time-series archives

This project models how the service keeps its archives of klines, open interest and
long/short ratios free of gaps although its sources are unreliable, and proves that the
models do what the design promises. The exchange, ClickHouse and Redis appear as
sequences, sets and lists with the contracts the code relies on; every fault the code
reacts to (a rejected symbol, a failed request, a refused row, a dropped batch, a full
queue, a shutdown) is an input, and the theorems hold for all of them.

Times are whole milliseconds, a bar is named by its opening time, or by its number on
the grid in the repair tools and the sweep. Concurrent components are state machines whose
events are the atomic actions of the code (a locked section, a channel operation, a call
out); a run is any sequence of them. Components that one goroutine owns are classes and
loops, proved against functions that say what they compute.

| file | what it models |
|---|---|
| Align.dfy | the bar grid; options, multiples and set sizes used everywhere |
| HistSource.dfy, BackwardPaging.dfy | the history endpoints and backwards paging, its exact result and its page bound |
| OpenInterestFetch.dfy, PlanJobs.dfy, Pacing.dfy | one symbol's fetch, the plan of a pass, and its timing |
| BatchWriter.dfy, WatermarkRun.dfy, DelistedRun.dfy | the batching writer with its flush barrier, whole runs of the reconciler with it, and a run that leaves a hole |
| RatioMerge.dfy, RatioRun.dfy | the three-series merge of the ratio reconciler, and its whole runs |
| WindowGate.dfy, RepairJobs.dfy, Ownership.dfy, RepairProgress.dfy | the gate, the jobs of a repair request, who owns which key in every interleaving, and that every request ends |
| Aggregator.dfy, SectionRuns.dfy, Cascade.dfy, Dispatcher.dfy | sections, how often they are published, derived ready events, and routing |
| RedisWindow.dfy | the rolling window and the seam after a rebuild |
| ForwardPaging.dfy, Sweep.dfy, SweepRounds.dfy, ArchiveWriter.dfy | kline paging, the integrity sweep and its passes, the kline writer |
| DataPool.dfy, LiveSchedule.dfy | request admission, and the schedule of live rounds |
| Ranges.dfy, SpanPlan.dfy, RequestPlan.dfy, RepairSymbol.dfy, MinuteRepair.dfy, RepairPacer.dfy | the repair tools |

## Where the code does not keep what its documentation says

- A symbol rejected on a later page of its fetch is treated as a finished fetch
  (`internal/openinterest/hist.go:435-438`): the newest page moves the watermark and what
  lies below it is not asked for again by an incremental pass. `DelistedRun.SilentHole` and
  `DelistedRun.HoleBelowWatermark` are such a run, and `OpenInterestFetch.DelistedIsWholeExactly`
  says exactly when a row is lost.
- `internal/windowgate/gate.go:10-11` promises that a rebuild picks up the live bars that
  were suppressed. A bar that closes between the read-back and the release is in neither:
  `RedisWindow.SeamIsCleanExactly` gives the exact condition.
- `cmd/test-tools/backfill_missing_oi.py:32` promises as few requests as fit one page. The
  plan is least among divisions of its pieces, not among all ways to ask:
  `SpanPlan.OneRequestTooMany`. It is least unless a range straddles the end of a page
  (`SpanPlan.LeastUnlessStraddled`), its excess is read off the missing bars
  (`SpanPlan.ExcessExactly`, `SpanPlan.LeastExactly`), and it never asks for more than about
  twice the least (`SpanPlan.AtMostTwiceTheLeast`).
- `internal/backfill/backfill.go:603` flushes the kline writer "to guarantee" that all rows
  are stored. A batch lost before that flush goes unnoticed: `ArchiveWriter.FlushMissesEarlierLoss`
  and `ArchiveWriter.NilIsWholeExactly`.
- "Exactly one kline_ready per cross-section" (`internal/dispatcher/aggregator.go:31-33`)
  holds per instance of a section. A section is published again exactly when a bar of it
  comes after its eviction: `SectionRuns.TwiceExactly`, with such runs in
  `SectionRuns.StragglerPublishesAgain`.
- A submit that races with shutdown keeps its keys held (`Ownership.LateSubmitIsStuck`,
  reached in `Ownership.LateSubmitHappens`), and nothing else does
  (`Ownership.ShutdownLeaksOnlyLate`).

## Model

| member | source | states |
|---|---|---|
| Align.HistBarStart | internal/openinterest/align.go:30-36 | a label belongs to a bar exactly if it lies on the 5-minute grid, and then to the bar that ends there |
| Align.NewestPublishedStart | internal/openinterest/align.go:44-46 | the newest bar whose label is at least the publication lag old: a bar is at or before it exactly if its label has had that long |
| HistSource.Request | internal/openinterest/client.go:40-45 | the interface contract every paging proof rests on: the newest `limit` points of [start, end] |
| HistSource.BetweenIsFilter | internal/openinterest/lsratio_hist.go:224-226 | the target of paging is exactly the set of points with a label in the window, in order |
| BackwardPaging.PageBack | internal/openinterest/lsratio_hist.go:227-268 | the loop returns exactly the history of [label(since), now], once each, ascending, when it completes, and nothing otherwise |
| BackwardPaging.GapEndsWhen | internal/openinterest/lsratio_hist.go:227-262 | completes if and only if the page allowance covers the pages of the gap and all of them are answered; is cut off if and only if the allowance runs out; ends with an unknown symbol if and only if the first request not answered is rejected, inside the allowance and before the last page |
| BackwardPaging.PageSplits | internal/openinterest/lsratio_hist.go:233-258 | one page either ends the paging with nothing left below it, or leaves exactly the points below it for the next request |
| BackwardPaging.PageBoundHolds | internal/openinterest/hist.go:429-464 | on an on-grid history, with at most two full pages of bars elapsed since planning, the pages needed never exceed needed/max(MaxLimit-LimitMargin,1)+3 |
| BackwardPaging.WellFormedGapCompletes | internal/openinterest/hist.go:422-466 | under those conditions a gap whose requests are answered is always read whole |
| OpenInterestFetch.FetchSymbol | internal/openinterest/hist.go:422-466 | a fetch without an error has pushed exactly the rows of the points paged through, each once, off-grid labels left out, which is the whole gap unless a request that would still have brought a row was rejected; the result says how it ended and its newest bar |
| OpenInterestFetch.Emit | internal/openinterest/hist.go:468-494 | one page: a row per point on the grid and not in the future, up to the first row the writer refuses, which is named |
| OpenInterestFetch.RowsOfExact | internal/openinterest/hist.go:472-486 | a stretch of history has exactly the rows of its kept points |
| OpenInterestFetch.NewestStartIsMax | internal/openinterest/hist.go:488-490 | the newest bar of a fetch is the maximum of the bars it pushed |
| OpenInterestFetch.DelistedIsWholeExactly | internal/openinterest/hist.go:435-438 | when the first request that is not answered is the k-th and is rejected, before the gap is read, the fetch reports a success; it has pushed the whole gap if and only if k is not below the number of requests that still bring a row, a number of the inputs alone |
| DelistedRun.SilentHole | internal/openinterest/hist.go:435-438 | a fetch of a gap that is planned, its second request rejected: one row is pushed, the row below it is not, and no error is reported |
| DelistedRun.HoleBelowWatermark | internal/openinterest/hist.go:301-345 | a reachable state of the reconciler after such a fetch: the barrier answered nil, the watermark stands above a published bar that is not in the store |
| DelistedRun.AskedOnce | internal/openinterest/hist.go:262-271 | the gap is planned for a symbol without a watermark, and once the watermark is past it no incremental pass asks for it |
| PlanJobs.Plan | internal/openinterest/hist.go:248-286 | a job spans the whole bars from its start to the current bar; it starts at the newest calibrated bar or the cold-start window, no further back than the reach of the tool; a full pass asks for at least one page, or for all that is in reach, and for no more than the gap or the page |
| PlanJobs.PlansExact | internal/openinterest/hist.go:255-286 | a job is listed exactly for the symbols that need one |
| PlanJobs.SkipLosesNothing | internal/openinterest/hist.go:262-283 | a symbol with a watermark that is skipped already has every bar that can be expected to be published, except exactly when it is not up to date and the reach of the tool ends in the current bar |
| PlanJobs.SkippedExactly | internal/openinterest/hist.go:262-283 | a symbol is skipped exactly if it has every bar that can be published, if the reach of the tool ends in the current bar, or if its gap begins in it |
| PlanJobs.MakePlan | internal/openinterest/hist.go:248-289 | the planning loop yields the plan of every symbol that needs one and no other, biggest gap first; skipped plus planned symbols are all symbols, and the symbols without a watermark and those whose gap reaches past the cap are counted |
| PlanJobs.SortedByNeed | internal/openinterest/hist.go:288 | the sort is by falling need, loses and adds nothing, and leaves jobs of one size in their order |
| Pacing.NextReconcileTime | internal/openinterest/hist.go:199-206 | the next pass starts after now and at most one interval later |
| Pacing.NextReconcileIsFirst | internal/openinterest/hist.go:199-206 | it is the first instant after now that lies the offset past a whole interval |
| Pacing.Pacer.Wait | internal/openinterest/hist.go:523-539 | each call gets the next slot, never before now, never before the slot a step after the last one; the slots are those `SlotOf` gives for the callers' clocks; without a step nobody waits |
| Pacing.SpreadOut | internal/openinterest/hist.go:514-539 | any two slots are their distance in steps apart, whoever asked |
| Pacing.InsideSpread | internal/openinterest/hist.go:378-394 | the slots of workers that keep up are the even timeline, the last one inside the spread |
| Ledger.FlushKeeps | internal/openinterest/writer.go:192-203 | settling a batch, landed or dropped, loses, repeats and reorders no accepted row |
| Ledger.BarrierIsHonest | internal/openinterest/writer.go:221-230 | the barrier answers nil if and only if every batch settled since the previous barrier landed; all accepted rows are settled then |
| Ledger.ReceiveFillsBatch | internal/openinterest/writer.go:215-219 | a batch is settled when it is full and only then |
| BatchWriters.FlushWithRetry | internal/openinterest/writer.go:243-275 | a batch lands exactly if one of at most 1+MaxRetries attempts succeeds before the context ends |
| BatchWriters.BatchWriter.Push | internal/openinterest/writer.go:129-145 | a row is queued exactly if it is acceptable, the writer is open and there is room |
| BatchWriters.BatchWriter.ReceiveOne | internal/openinterest/writer.go:215-219 | the loop moves one row and flushes a full batch |
| BatchWriters.BatchWriter.ServeBarrier | internal/openinterest/writer.go:221-230 | serving a barrier empties queue and batch and answers for every batch since the last barrier |
| BatchWriters.BatchWriter.Close | internal/openinterest/writer.go:169-179 | closing settles everything queued; nothing leaves the ledger |
| WatermarkRun.WatermarkSafety | internal/openinterest/hist.go:301-362 | in every reachable state a step moves a watermark only by committing a pass whose barrier answered nil, only for a symbol that did not fail, only upwards, and only when every row that fetch pushed is in the store |
| WatermarkRun.GapFree | internal/openinterest/hist.go:315-345 | in every run, every on-grid point from the covered label up to the watermark has its row in the store |
| WatermarkRun.LedgerIsWhole | internal/openinterest/writer.go:129-241 | over a whole run the ledger, settled then batched then queued, is exactly the rows pushed, live and history, in the order of the pushes |
| WatermarkRun.WatermarkMonotone | internal/openinterest/hist.go:343-345 | no watermark ever goes back |
| WatermarkRun.PlanJoins | internal/openinterest/hist.go:262-283 | a planned gap starts at or below the watermark exactly if the watermark is within the reach of the tool |
| WatermarkRun.CoverageOnlyGrows | internal/openinterest/hist.go:301-362 | if fetches start at or below the watermark, as PlanJoins says they do within reach, and are not cut short by a rejection, the covered stretch only grows |
| WatermarkRun.BarrierRepliesKeeps | internal/openinterest/writer.go:221-230 | the barrier keeps the invariant that links pushed rows to the store |
| WatermarkRun.CommitKeeps | internal/openinterest/hist.go:334-346 | the commit keeps coverage |
| WatermarkRun.FetchIsEvent | internal/openinterest/hist.go:422-466 | what FetchSymbol returns is what the fetch event of the run asks for: the run is about this code |
| WatermarkRun.CommitPass | internal/openinterest/hist.go:325-342 | the commit loop moves the watermark of every symbol that did not fail to the newest of the old one and the rows its fetch pushed, if the flush answered nil, and no other watermark; that is what the commit of the run does |
| WatermarkRun.CommitAdvances | internal/openinterest/hist.go:316-342 | after a nil answer every watermark reaches the rows of a fetch that succeeded, and what it covers begins no later than that fetch; after any other answer nothing moves |
| WatermarkRun.PassCompletes | internal/openinterest/hist.go:316-342 | a pass whose fetches have ended can always be flushed and committed: if the last write lands and none was lost since the barrier before, all its rows are in the store and all its watermarks move; if one was lost, none does |
| WatermarkRun.FetchesEnd | internal/openinterest/hist.go:301-314 | whatever fetches are under way or still to start, they can end one after the other, each listed as failed if it fails |
| WatermarkRun.LiveAnytime | internal/openinterest/writer.go:129-145 | a live row may be pushed at any time and joins the same ledger |
| WatermarkRun.StopSettles | internal/openinterest/writer.go:169-203 | stopping the writer settles all it holds, and a barrier asked for afterwards is answered with an error |
| WatermarkRun.RetriesFailed | internal/openinterest/hist.go:306-311 | exactly the symbols that failed are tried once more, and none a third time |
| RatioMerge.Emit | internal/openinterest/lsratio_hist.go:278-345 | nothing is written while one series is empty; otherwise the rows are the merge up to the slowest series, and a refused row leaves a prefix |
| RatioMerge.MergeSeries | internal/openinterest/lsratio_hist.go:305-327 | the map filled in place holds one row per on-grid label some series has, each cell the value of its series |
| RatioMerge.CommonLabel | internal/openinterest/lsratio_hist.go:279-303 | the common label is the smallest of the newest labels, and there is none while a series is empty |
| RatioMerge.FetchSymbol | internal/openinterest/lsratio_hist.go:201-222 | rows are written only after all three endpoints were read to the end; a rejection or a failure writes nothing |
| RatioMerge.SoundIsAccepted | internal/openinterest/lsratio.go:132-155 | a merged row is accepted with one cell or more, whichever are missing, if its numbers are sound |
| RatioMerge.CellIsPoint | internal/openinterest/lsratio_hist.go:325 | a cell holds a value exactly if the series has that point |
| RatioMerge.MissingIsPast | internal/openinterest/lsratio_hist.go:270-277 | a missing cell implies that its series already has a strictly later label |
| RatioMerge.RowsAreFinal | internal/openinterest/lsratio_hist.go:21-26 | no column stays NULL for good: the rows of a pass are exactly those the complete histories give up to the common label |
| RatioRun.HistoryExists | internal/openinterest/lsratio_hist.go:305-327 | any three complete histories have a merged one: a point per on-grid label some endpoint gives |
| RatioRun.RatioFetchIsEvent | internal/openinterest/lsratio_hist.go:201-222 | what a fetch without an error has pushed is the stretch of the merged history from the start of its gap to the common label, or nothing: an event of the same runs |
| RatioRun.RatioGapFree | internal/openinterest/lsratio_hist.go:145-186 | in every run every bar some endpoint ever gives, from the covered label up to the watermark, is in the store with its final columns |
| RatioRun.PushedAreFinal | internal/openinterest/lsratio_hist.go:21-26 | however a fetch ends, each row it has pushed has the columns the complete histories give |
| RatioRun.RatioExact | internal/openinterest/lsratio_hist.go:21-26 | in every run a row from the covered label up to the watermark is in the store if and only if some endpoint ever gives its bar and it has the columns the complete histories give |
| WindowGate.Gate.Hold | internal/windowgate/gate.go:60-73 | each listed key has one hold more, per-interval counters included |
| WindowGate.Gate.Release | internal/windowgate/gate.go:77-100 | each listed key has one hold less, a key that is not held stays as it is, and the interval counters still count the held keys |
| WindowGate.Gate.HeldWindow | internal/windowgate/gate.go:103-108 | a key is suppressed exactly if it has a hold |
| WindowGate.Gate.HeldInterval | internal/windowgate/gate.go:112-116 | an interval is suppressed exactly if some key of it has a hold |
| WindowGate.HoldThenRelease | internal/windowgate/gate.go:57-100 | holding and releasing the same keys leaves every count as it was |
| WindowGate.SameUpper | internal/windowgate/gate.go:57-100 | two symbols are one key exactly if they differ at most in the case of letters |
| Ownership.FreshKeys | internal/backfill/backfill.go:344-356 | the keys admitted are the named ones not in flight, each once |
| Ownership.Reserve | internal/backfill/backfill.go:344-356 | the locked section computes them and adds exactly them to the in-flight set |
| Ownership.StepKeeps | internal/backfill/backfill.go:339-394 | every atomic action of submitters and runner keeps the ownership invariant |
| Ownership.Exclusive | internal/backfill/backfill.go:344-358 | a key is in flight for at most one request |
| Ownership.HeldThroughout | internal/backfill/backfill.go:455-462 | the gate count of a key is the number of requests that have held and not released it, and every key stays held and in flight while its request is worked on |
| Ownership.QuietIsClean | internal/backfill/backfill.go:708-722 | once every request is done nothing is in flight and nothing is held |
| Ownership.OneReply | internal/backfill/backfill.go:339-394 | every repair request gets one reply and never two; skipped and worked keys add up, outcomes are of requested ranges of worked keys, no range twice, and every range is reported unless the context ended |
| Ownership.ShutdownLeaksOnlyLate | internal/backfill/backfill.go:426-453 | once the runner has exited and every submitter has returned, nothing is in flight and nothing is held if and only if no request was queued behind the runner's back |
| Ownership.RunnerLeavesNothing | internal/backfill/backfill.go:426-453 | a runner that has exited is done with every request it ever took off the queue |
| Ownership.LateSubmitIsStuck | internal/backfill/backfill.go:339-394 | a request queued after the runner is gone is stuck: in every later state it is queued and its keys are in flight and held |
| Ownership.LateSubmitHappens | internal/backfill/backfill.go:339-394 | a reachable state in which that can happen: the submitter has passed the closed check and holds its key, the process is closed, the runner is gone |
| RepairProgress.NeverStuck | internal/backfill/backfill.go:426-477 | while a request is not done, some request can take a step, unless it was queued behind the runner's back |
| RepairProgress.AllEnd | internal/backfill/backfill.go:339-477 | from every reachable state the steps of the requests alone lead to a state in which each is done, but for those queued behind the runner's back |
| RepairProgress.StepsAreBounded | internal/backfill/backfill.go:339-477 | no run takes more of them, without a new request, than a bound read off the state |
| RepairProgress.WithinCapacity | internal/backfill/backfill.go:382-393 | the queue never exceeds its capacity, and what the runner has in hand is worked on or leaving |
| RepairJobs.PlanJobs | internal/backfill/backfill.go:473-491 | the jobs of a request, interval by interval, are exactly the ranges asked for on its keys, each once |
| RepairJobs.GroupByInterval | internal/backfill/backfill.go:473-476 | the keys of a request by interval, each interval with its symbols in order |
| RepairJobs.PlanInterval | internal/backfill/backfill.go:557-565 | the jobs of one interval are the ranges of its symbols, each once |
| RepairJobs.Launch | internal/backfill/backfill.go:579-597 | jobs are started in order; one is left out only by a context that has ended |
| Aggregator.AtMostOnce | internal/dispatcher/aggregator.go:87-136 | no section instance is published twice under any interleaving of marks, timeouts, retention and eviction |
| Aggregator.CountedAreWritten | internal/dispatcher/dispatcher.go:301-321 | the published count is the number of distinct symbols marked, and the window push of each had returned |
| Aggregator.NoneLost | internal/dispatcher/aggregator.go:94-98 | an undecided instance stays current with a timeout that can fire; a decided one is published unless the process shuts down |
| Aggregator.StepKeeps | internal/dispatcher/aggregator.go:87-176 | every locked section, callback and publish keeps the section invariant |
| Aggregator.PushedMayMark | internal/dispatcher/dispatcher.go:301-321 | a worker whose window push for a bar has returned may mark in every later state until it does, and not again after: the mark waits for nothing but the worker's own calls |
| Aggregator.NothingAfterClose | internal/dispatcher/aggregator.go:138-141 | once the process shuts down nothing more is published, whatever still comes |
| Aggregator.StopTimersStops | internal/dispatcher/aggregator.go:228-237 | at shutdown, and not before, every timer can be stopped, and none fires after |
| Aggregator.MarkDecides | internal/dispatcher/aggregator.go:87-122 | the mark of a member opens the section with a timer if there is none, counts the symbol unless the section was decided, and decides it exactly if it then has all of its universe, stopping the timer |
| Aggregator.TimeoutDecides | internal/dispatcher/aggregator.go:124-136 | a timeout decides the section it finds undecided, with what it has |
| Aggregator.CompleteIsPublished | internal/dispatcher/aggregator.go:85-122 | in every run from a state in which a section is not open, without its timeout, it is decided exactly when as many distinct members have marked it as the universe has, and is then published or about to be, with that count |
| SectionRuns.TwiceNeedsStraggler | internal/dispatcher/aggregator.go:31-33 | in every run two emissions are of one section only if a bar of the section came after its eviction |
| SectionRuns.TwiceExactly | internal/dispatcher/aggregator.go:221-226 | before shutdown the section is published twice, or will be by the timeouts and publish calls under way, if and only if a bar of it came after its eviction |
| SectionRuns.StragglerPublishesAgain | internal/dispatcher/aggregator.go:221-226 | for any distinct symbols of a universe of at least that many, a run in which each brings its own bar of the section after the previous eviction, marks it once, and the section is published once for each |
| SectionRuns.SecondPublish | internal/dispatcher/aggregator.go:221-226 | in particular a run of two publishes of one section, by two symbols |
| Cascade.PublishDerived | internal/dispatcher/aggregator.go:182-209 | the loop attempts the derived events of one base bar in order, all of them unless shutdown stops it |
| Cascade.CascadeHas | internal/dispatcher/aggregator.go:178-186 | a base bar carries the event of an interval exactly if it closes a bucket, which began on a multiple of the length |
| Cascade.CascadeIsExact | internal/dispatcher/aggregator.go:157-165 | over the whole log the derived events are exactly those of base sections published with an id |
| Cascade.CascadeIsOnce | internal/dispatcher/aggregator.go:182-209 | each once, as long as no base section was published twice |
| Cascade.CoarserCoincides | internal/dispatcher/aggregator.go:182-209 | where one length divides another, every event of the longer comes with one of the shorter |
| Cascade.FilterIntervals | internal/dispatcher/dispatcher.go:183-192 | the derived intervals are exactly those that parse, are longer than the base and are made of whole base bars |
| Dispatcher.Dispatcher.HandleKlineEvent | internal/dispatcher/dispatcher.go:205-260 | every answer and every change of guard and queue; jobs of one stream are queued in strictly rising order |
| Dispatcher.Dispatcher.AcceptClosed | internal/dispatcher/dispatcher.go:262-271 | a bar passes exactly if it is newer than the last one that passed |
| Dispatcher.HandleClosed | internal/dispatcher/dispatcher.go:301-321 | a worker's calls for one bar: one window push first, the archive if there is a row, the section mark once and last |
| Dispatcher.GuardKeyIsUnique | internal/dispatcher/dispatcher.go:263 | streams do not share a guard key |
| Dispatcher.BusyBarIsLost | internal/dispatcher/dispatcher.go:231-258 | a bar that met a full queue is not handed to a worker, whatever is offered, taken or shut down later: the guard has moved past it |
| Dispatcher.HandedOnce | internal/dispatcher/dispatcher.go:262-271 | no bar of a symbol and interval is handed to the workers twice |
| RedisWindow.Window.Push | internal/rediswin/writer.go:27-41 | a bar is prepended exactly if it is newer than the head, then the list is trimmed |
| RedisWindow.Window.Rebuild | internal/rediswin/writer.go:45-57 | the list is replaced by the newest bars given |
| RedisWindow.Window.RebuildAndPush | internal/rediswin/writer.go:222-247 | after a rebuild and any pushes the window is the first W entries of the unlimited reference, and strictly descending if the rebuilt list was |
| RedisWindow.StaysDescending | internal/rediswin/writer.go:22-26 | the unlimited reference is strictly descending, whatever is pushed |
| RedisWindow.AcceptedIsRecord | internal/rediswin/writer.go:33-38 | a push is accepted exactly if it is newer than everything listed or pushed before |
| RedisWindow.KeptAreRecords | internal/rediswin/writer.go:27-41 | the reference holds the rebuilt bars and the records among the pushes, nothing else |
| RedisWindow.RepushIsNoop | internal/rediswin/writer.go:22-26 | pushing a bar again changes nothing |
| RedisWindow.SeamIsCleanExactly | internal/windowgate/gate.go:10-11 | after a release the window holds the newest bars if and only if no bar closed between the read-back and the release, or a whole window of bars has closed since |
| ForwardPaging.FetchStream | internal/backfill/rest.go:111-153 | a finished stream delivered exactly the closed bars of [since, until), any other a prefix, in batches that hold a bar and that the consumer took; it ends at the first request that fails or batch that is refused; every request but the last is a full page, and one request is enough whenever the bars needed fit a page |
| ForwardPaging.RowsExact | internal/backfill/rest.go:124-135 | the bars delivered are exactly the wanted ones |
| ForwardPaging.RowsAscend | internal/backfill/rest.go:155-157 | in ascending order, without duplicates |
| ForwardPaging.SizedIsLast | internal/backfill/rest.go:255-271 | a full page was cut to the page size: a request for all that is needed asks for more bars than can be there |
| ForwardPaging.LimitFits | internal/backfill/rest.go:253-271 | a request asks for a page, or for at most two bars more than fit the window, and for less than a page only if all that fits is asked for |
| Sweep.SuppressedIsBarren | internal/backfill/sweep.go:247-258 | over any number of sweeps, a suppressed hole holds no bar of the exchange, although the memory is keyed by symbol and first bar only |
| Sweep.OneSweepFills | internal/backfill/sweep.go:154-228 | after a sweep as `SweepRounds.SweepClean` describes it no hole inside its window holds a bar of the exchange |
| Sweep.TwoSweepsSettle | internal/backfill/sweep.go:154-228 | for one symbol: after two such sweeps every hole below the newest bar of the first window is filled or remembered |
| SweepRounds.PassIsRun | internal/backfill/sweep.go:154-234 | every pass of the sweeper is a run of the events over which the memory is sound, whatever fails in it |
| SweepRounds.SweepClean | internal/backfill/sweep.go:154-234 | a pass with a right scan, below the cap and fully answered changes archive and memory, for every symbol, exactly as the convergence results assume |
| SweepRounds.TwoRoundsSettle | internal/backfill/sweep.go:154-234 | two such passes leave every hole below a bar of the first window filled or remembered |
| SweepRounds.SweepTwice | internal/backfill/sweep.go:154-234 | two calls of the sweeper do so, starting from any sound memory |
| Sweep.Sweeper.SweepOnce | internal/backfill/sweep.go:154-234 | the whole pass: a hole remembered as empty and not expired is not sent, below the cap every other one is, what came back empty is remembered until its expiry, and the outcomes are counted; also when the scan or the reply is missing |
| Sweep.SweepAgain | internal/backfill/sweep.go:154-268 | a range that came back empty is not sent again by a sweep before its entry expires |
| Sweep.InsideOldHole | internal/backfill/clickhouse.go:140-144 | a hole that is left between two bars after a sweep is part of an interior hole from before it |
| Sweep.ChosenExactly | internal/backfill/sweep.go:184-197 | what is sent is not suppressed, and below the cap everything not suppressed is sent |
| Sweep.Sweeper.Select | internal/backfill/sweep.go:170-199 | the selection loop: found, skipped and submitted add up below the cap, each symbol is listed once with its ranges in order |
| Sweep.Sweeper.Settle | internal/backfill/sweep.go:218-228 | outcomes: exactly the ranges that came back empty without an error are remembered, and repaired bars, empty ranges and failures are counted |
| Sweep.RepairsAdd | internal/backfill/sweep.go:215-224 | the bars written back are those of the outcomes that did not fail, added up |
| Sweep.Sweeper.PruneEmpty | internal/backfill/sweep.go:260-268 | exactly the entries whose expiry has come are forgotten, the others keep theirs |
| DataPool.AtMostCap | internal/openinterest/limiter.go:191-200 | no half-open window holds more than cap admissions |
| DataPool.Pool.Record | internal/openinterest/limiter.go:178-189 | an admission is refused exactly if the window is full; admissions cap places apart are a window apart |
| DataPool.Pool.WindowWait | internal/openinterest/limiter.go:163-175 | the delay is 0 exactly if there is room, and long enough otherwise |
| DataPool.SleepMakesRoom | internal/openinterest/limiter.go:163-175 | after that delay there is room, if nobody else was admitted |
| DataPool.Pool.PauseFor | internal/openinterest/limiter.go:129-144 | after it requests may go exactly when both the pause in force and the new one are over |
| DataPool.Pool.Wait | internal/openinterest/limiter.go:87-125 | a request is counted once, last and outside any pause, in the first turn in which no pause and no full window holds it up; if it is not admitted every turn met one, and it is not counted; others may count requests at any time |
| LiveSchedule.NextRound | internal/openinterest/live.go:110-123 | the first boundary not taken that leaves MinRemaining; its round starts a lead ahead of it, or at once when that is past |
| LiveSchedule.MissedBoundary | internal/openinterest/live.go:128-134 | the boundary to catch up is the latest one, if it is recent and not taken |
| LiveSchedule.NoneSkippedExactly | internal/openinterest/live.go:110-117 | the next bar is not skipped if and only if the round before it ended MinRemaining before its boundary |
| LiveSchedule.Live.Run | internal/openinterest/live.go:145-168 | whole runs: a boundary just missed is caught up, boundaries rise strictly, each is the first with MinRemaining left and starts a lead ahead or at once, and none is skipped while rounds end within the accept window |
| Ranges.MergeRanges | cmd/test-tools/backfill_missing_1m.py:102-110 | merging keeps exactly the bars, and the result is sorted and separated |
| Ranges.MergedIsCanonical | cmd/test-tools/backfill_missing_1m.py:102-110 | the merged form depends on the bars alone: equal bars give the same list |
| Ranges.SubtractPresent | cmd/test-tools/backfill_missing_oi.py:120-135 | exactly the bars that are not present remain |
| Ranges.ClipToRetention | cmd/test-tools/backfill_missing_oi.py:138-150 | exactly the bars from the limit on remain, and the others are counted |
| Ranges.CountIs | cmd/test-tools/backfill_missing_oi.py:350-361 | the bar counts that are reported count each bar once |
| SpanPlan.CutPages | cmd/test-tools/backfill_missing_oi.py:159-164 | ranges are cut into pages that hold the same bars, each beginning with its range or right after a whole page of it |
| SpanPlan.PlanSpans | cmd/test-tools/backfill_missing_oi.py:153-171 | spans are disjoint, a page at most, cover every missing bar, each needed, and begin where a walk over the missing bars says; no division of the pieces into consecutive one-page groups is smaller |
| SpanPlan.GreedyIsOptimal | cmd/test-tools/backfill_missing_oi.py:165-170 | the greedy grouping has the least number of groups |
| SpanPlan.StaysAhead | cmd/test-tools/backfill_missing_oi.py:165-170 | at every piece the greedy grouping is ahead of any other |
| SpanPlan.PagesAreLeast | cmd/test-tools/backfill_missing_oi.py:32 | asking for a whole page at the first bar still missing, again and again, takes the least number of requests of all ways to ask |
| SpanPlan.LeastUnlessStraddled | cmd/test-tools/backfill_missing_oi.py:153-171 | the plan is least whenever no range begins inside one of these pages and ends past it |
| SpanPlan.StartsArePages | cmd/test-tools/backfill_missing_oi.py:153-171 | the plan asks exactly where these pages begin if and only if none of them is so straddled |
| SpanPlan.ExcessExactly | cmd/test-tools/backfill_missing_oi.py:153-171 | the spans are as many as the steps of a walk over the missing bars, never fewer than the least pages: both numbers are read off the input |
| SpanPlan.LeastExactly | cmd/test-tools/backfill_missing_oi.py:32 | the plan is least of all ways to ask if and only if the two walks over the missing bars take equally many steps |
| SpanPlan.StraddledYetLeast | cmd/test-tools/backfill_missing_oi.py:153-171 | a list that is straddled and whose plan is least all the same, so the condition cannot be turned round |
| SpanPlan.AtMostTwiceTheLeast | cmd/test-tools/backfill_missing_oi.py:32 | however the bars are asked for, at least half as many requests and one more than that are needed |
| SpanPlan.OneRequestTooMany | cmd/test-tools/backfill_missing_oi.py:32 | missing bars for which PlanSpans returns three spans while two pages hold every bar |
| RequestPlan.PlanRequests | cmd/test-tools/backfill_missing_1m.py:129-156 | spans cover every missing bar, a page at most, never weigh more than the pieces, and no neighbour could have been shared |
| RequestPlan.WeightRises | cmd/test-tools/backfill_missing_1m.py:60-68 | a larger request is never cheaper; the weight rises at 100, at 500 and above 1000 bars, from 1 to 10 |
| RepairSymbol.Repair | cmd/test-tools/backfill_missing_oi.py:346-382 | whatever is fetched, only target bars are written, each once; with an honest fetcher and no failure the bars written are exactly the target bars the exchange has |
| RepairSymbol.FetchSpans | cmd/test-tools/backfill_missing_oi.py:366-386 | the fetch loop over the planned spans and its counters |
| RepairSymbol.FindMissing | cmd/test-tools/backfill_missing_oi.py:347-363 | the bars still missing, and the numbers beyond retention and already present |
| RepairSymbol.PlanFetch | cmd/test-tools/backfill_missing_oi.py:364-366 | the spans cover missing bars and live rows alike |
| RepairPacer.DataPacer.Try | cmd/test-tools/backfill_missing_oi.py:222-234 | a request is let through exactly if no block is in force, the minimum gap has passed and the window has room; requests stay a gap apart and at most cap per window |
| RepairPacer.DataPacer.PauseFor | cmd/test-tools/backfill_missing_oi.py:236-237 | after it a request may go exactly when both the block in force and the new one are over |
| RepairPacer.BlockHolds | cmd/test-tools/backfill_missing_oi.py:222-237 | until a block is over no turn lets a request through, whenever it comes |
| MinuteRepair.Repair | cmd/test-tools/backfill_missing_1m.py:272-318 | whatever is fetched, only missing minutes are written; with a fetcher that honours its span and no failure exactly the requested, elapsed, absent minutes of which the exchange has a closed bar, each once |
| MinuteRepair.FetchSpans | cmd/test-tools/backfill_missing_1m.py:297-310 | every wanted minute is written exactly as often as the replies hold a closed bar of it |
| MinuteRepair.FindMissing | cmd/test-tools/backfill_missing_1m.py:285-296 | the minutes still missing, with the numbers reported |
| MinuteRepair.HonestReturns | cmd/test-tools/backfill_missing_1m.py:297-305 | disjoint spans of an honest fetcher return every available bar once |
| MinuteRepair.OverIsClosed | cmd/test-tools/backfill_missing_1m.py:276-301 | a bar of the usual length has closed once its minute is over, so for such bars the closing test drops nothing |
| MinuteRepair.TwiceNeedsStray | cmd/test-tools/backfill_missing_1m.py:297-305 | a bar is written twice only through a reply that repeats it, or that holds it outside its span |
| MinuteRepair.StrayIsWrittenTwice | cmd/test-tools/backfill_missing_1m.py:297-305 | such a reply, and the bar written twice |
| ArchiveWriter.KlineWriter.FlushNow | internal/chwriter/writer.go:218-244 | a manual flush settles everything queued in order, answers nil exactly if every batch it wrote landed, and after nil the archive has every accepted row if and only if no batch was lost before |
| ArchiveWriter.KlineWriter.ReceiveOne | internal/chwriter/writer.go:207-213 | one row moves into the batch, and a full batch is flushed |
| ArchiveWriter.KlineWriter.TryPush | internal/chwriter/writer.go:117-128 | a row is queued exactly if the writer is open and there is room |
| ArchiveWriter.KlineWriter.Close | internal/chwriter/writer.go:134-144 | closing settles everything queued |
| ArchiveWriter.NilIsWholeExactly | internal/chwriter/writer.go:218-244 | after batches that all landed the archive has every row if and only if no batch before them was lost |
| ArchiveWriter.FlushMissesEarlierLoss | internal/chwriter/writer.go:207-213 | a batch lost in the background is not reported by the next flush |

## Left out

- Watermarks after a restart: coverage is claimed for one process; `LoadState` takes the newest row of the database (internal/openinterest/hist.go:137-170), so a hole left below a partly written newest page by an earlier process is not visible to it.
- The ratio reconciler's pass: its commit and barrier are those of the open-interest reconciler, so one state machine serves both, over the rows of either; it has no live rows, which the runs allow for but do not need.
- An endpoint that publishes a label behind a newer one of its own: each series is taken to appear in the order of its labels, as internal/openinterest/lsratio_hist.go:21-26 relies on; what a fetch reads of a series is what was published when it began.
- Live snapshots themselves: their requests, weights and cache; live rows enter the runs as pushes into the same writer.
- The exchange client: malformed items are dropped before page lengths are compared (internal/openinterest/client.go:187-193), so paging is exact at the source interface, not at the wire.
- BackwardPaging.PageBoundHolds: states the bound for labels on the grid, because off-grid labels can fill pages without using up bars.
- Numbers: a reading is a real number or not finite; no floating-point rounding, and not-a-number and infinity are not told apart.
- Upper-casing of symbols: ASCII letters only.
- Token buckets, jitter, backoff times and timeouts: arbitrary delays and arbitrary cancellation.
- Backfill planning: resume points, cold start, shard-gap debounce and readiness flags (internal/backfill/backfill.go:398-424, 538-582); only ownership, replies, the gate and the window rebuild are modelled.
- Window reads by consumers, and the non-atomic check of the gate before a push (internal/windowgate/gate.go:140-146): the order of the window comes from the push script alone.
- The window gate's effect on ready events: an empty id is the outcome Suppressed in the aggregator.
- Truncation to intervals: counted from the Unix epoch, which is the same grid for intervals that divide a day.
- BatchWriters.BatchWriter.Push: whether a row is sound and whether a full queue gets room in time are inputs; a push that races with Close is not one step of this class, but in WatermarkRun pushes may follow the stop.
- Batches of inserted rows: both repair tools insert what they collected in batches; the models stop at the rows collected.
- Fetches of requests that are no repair: they report no outcome, so their jobs are not listed (Ownership.OneReply speaks of repairs).
- The one-minute tool's weight budget (cmd/test-tools/backfill_missing_1m.py:192-223).
- RepairPacer.DataPacer.Try: a gap longer than the window is enforced only up to the window, as in the code, which forgets the last request with the window; times are whole ticks of one unit.
- Reading the gap files, printing reports, configuration, metrics, HTTP, SQL and JSON.
