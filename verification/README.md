# Block layer and direct I/O: a Dafny model

This project models the hardest algorithms of a Linux 3.10-era block layer and proves what they are
for. It covers direct I/O (`fs/direct-io.c`), segment counting and scatterlists
(`block/blk-merge_957_27.c`, `block/blk-integrity.c`), multi-queue dispatch, tags and software queues
(`block/blk-mq*.c`), io_contexts (`block/blk-ioc.c`), the AIO completion ring (`fs/aio.c`) and discard
splitting (`block/blk-lib.c`). `dafny verify dfyconfig.toml` checks all of it.

| file | what it models |
|---|---|
| `DirectIo.dfy`, `DioSubmit.dfy`, `DioCoverage.dfy` | direct I/O submission, as classes, and what a direct write puts on disk |
| `DioCompletion.dfy` | the reference-count protocol between a direct I/O's submitter and its completions, as a state machine |
| `Segments.dfy`, `SegmentMerge.dfy` | the theory of segment cuts; counting, merging and mapping |
| `Integrity.dfy` | integrity segments and their running total |
| `Restart.dfy` | the RESTART protocol between dispatchers, completions and requeue workers, as a state machine |
| `Conservation.dfy` | where requests are, as a state machine over list operations |
| `Tags.dfy`, `TagSet.dfy` | driver tags, fair sharing, shared tag sets |
| `SwQueues.dfy` | software queues: mapping, pending bits, round robin, unplugging |
| `AllocRqs.dfy` | carving requests out of pages |
| `IoContext.dfy` | io_contexts, io_cqs and the lookup hint, as a state machine |
| `AioRing.dfy`, `Discard.dfy` | the AIO event ring; discard splitting |
| `Common.dfy` | options, guarded facts and division, which several modules use |

Conventions:

- Code that updates fields step by step is a class or a method with loops. Code whose difficulty is
  interleaving is a state machine: an action is one critical section or one access to shared state, a
  run is any sequence of enabled actions, and theorems speak about every reachable state.
- What the environment decides is an explicit input wherever a contract depends on it: what get_block
  answers, how much of a user buffer is writable, which allocations succeed, when a driver refuses.
  Where only the freedom matters (which clear bit a bitmap search finds, whether `bio_add_page` accepts
  a page) it is a nondeterministic choice.
- Products, quotients and large invariants are sometimes written as
  `forall open: bool {:trigger Open(open)} :: Open(open) ==> P`. This is just `P`; the trigger keeps the
  solver from unfolding it except where `assert Open(true)` asks for it.
- `Transfers`, `Run`, `Span` and the like extend a given log, so that no associativity is ever needed.

Where a promised property is false of the code, the code is kept, a lemma gives a concrete case and
another says exactly when the property holds: `Integrity.CounterBound`
(the integrity counter covers neither the first bio nor a merged request; `Integrity.MergedBioOverflows`
is a case), `AioRing.Ring.Complete` (a full ring;
`AioRing.Overflow` fills one), `AllocRqs.Alloc` (requests larger than the largest
block). `TagSet.Set.AddQueue` as written fails on a queue that returns to a tag set
(`TagSet.AddedTwice`); no caller does that, and `TagSet.Set.InitQueue` is right for the one that there is.

Where code and documentation disagree, the model follows the code. `blk_rq_map_integrity_sg` is
documented as needing a list sized by `blk_rq_count_integrity_sg`, and `Integrity.Map` shows that this
is enough; the request's own `nr_integrity_segments` is not such a size. The check in `blk_mq_put_tag`
compares a normal tag with `nr_tags`; the tags are in fact below the smaller depth of their bitmap.

## Model

| member | source | states |
|---|---|---|
| `DioCoverage.DirectWrite` | linux-3.10.96/fs/direct-io.c:1045-1278 | end to end: over any layout of whole filesystem blocks and any answers of get_block, the submitted bios, each contiguous on disk and in the file, write one contiguous file range, each block once, in order, at its own disk block, user data inside and zeroes around; the range leaves the request in front just if get_block gave the first filesystem block as new, and behind just if the extent it gave last is new; if get_block provides every block this is the whole request without error |
| `DioCoverage.WriteCoverage` | linux-3.10.96/fs/direct-io.c:617-995 | head zeroes, data and tail zeroes of a write without holes are exactly the blocks from First to Last, once and in order, where get_block's answers decide First and Last |
| `DioCoverage.WrittenOnce` | linux-3.10.96/fs/direct-io.c:617-995 | if the layout is injective no disk block is written twice, not even by padding |
| `DioCoverage.ReadCovers` | linux-3.10.96/fs/direct-io.c:915-982 | every block of a read's walked memory is either transferred from its disk block or zeroed, never both |
| `DioCoverage.DirectRead` | linux-3.10.96/fs/direct-io.c:1045-1278 | end to end: the bios of a read move exactly the mapped blocks of the file, each to its own memory, the holes are zeroed, and it stops short without an error only at the end of the file |
| `DioCoverage.ReadSubmits` | linux-3.10.96/fs/direct-io.c:847-995 | a read is never given new blocks, so it submits just its transfers and never zeroes on disk |
| `DioCoverage.HeadExactly` | linux-3.10.96/fs/direct-io.c:950-951 | zeroes are written in front of a request iff it walked something, the first answer of get_block is new and the request starts inside a filesystem block; they fill that block |
| `DioCoverage.TailExactly` | linux-3.10.96/fs/direct-io.c:1221-1225 | zeroes are written behind it iff it walked something, the answer that get_block gave last is new and the request ends inside a filesystem block; they fill that block |
| `DioWalk.Dio.DirectIO` | linux-3.10.96/fs/direct-io.c:1181-1237 | the bios submitted, each non-empty and contiguous, move exactly head zeroes if the first answer of get_block is new, the walked blocks, and tail zeroes if its last one is; holes are zeroed; a run without error walks everything, stopping early only for buffered fallback or end of file; an error is get_block's answer at the cursor |
| `DioWalk.Dio.DoDirectIO` | linux-3.10.96/fs/direct-io.c:847-995 | walking one segment over its pages keeps the log equal to what the blocks before the cursor call for, and stops short only at an error or the end of file |
| `DioWalk.Dio.WalkPage` | linux-3.10.96/fs/direct-io.c:866-987 | one pass consumes at least one block of a page (the BUG_ON on an empty chunk never fires), or stops at an error, a hole under a write, or the end of file |
| `DioWalk.Dio.MapBlocks` | linux-3.10.96/fs/direct-io.c:872-914 | after mapping, the blocks available lie on consecutive disk blocks from the cursor on and reach to where get_block is asked next, a new filesystem block's head included in the offset |
| `DioWalk.Answer` | linux-3.10.96/fs/direct-io.c:536-585 | an answer is an error, an unmapped block, or a whole, non-empty extent that agrees with the layout, new only for a write; a read finds unmapped only holes |
| `DioWalk.AskedLast` | linux-3.10.96/fs/direct-io.c:872-914 | the point whose extent holds the end of the walk is where get_block was asked last |
| `DioWalk.Dio.ZeroBlock` | linux-3.10.96/fs/direct-io.c:796-829 | pads the head or tail of a new, partly written filesystem block with the right number of zero blocks |
| `DioSpec.ExtentFrom` | linux-3.10.96/fs/direct-io.c:887-913 | an extent cut in the middle of a filesystem block still maps block for block and ends on a boundary |
| `DioSpec.ScaledExtent` | linux-3.10.96/fs/direct-io.c:536-585 | a filesystem that answers from a block map meets the get_block contract at dio-block scale |
| `DioSpec.TransfersRun` | linux-3.10.96/fs/direct-io.c:967-982 | walking mapped blocks of one page is one run of consecutive disk blocks |
| `DioSections.Sections.SubmitPageSection` | linux-3.10.96/fs/direct-io.c:714-767 | accepting a section extends the log by exactly that section, however it is coalesced, deferred or split over bios; a section accepted at a boundary leaves nothing open when it is the first deferred or continues the deferred one, and the boundary is never carried over |
| `DioSections.Sections.SendCurPage` | linux-3.10.96/fs/direct-io.c:649-694 | the deferred section ends up in the open bio exactly where it belongs on disk, with a new bio when it is not contiguous or the old one is full |
| `DioSections.Sections.BioAddPage` | linux-3.10.96/fs/direct-io.c:617-637 | an accepted page moves the bio's end by the section; a refusal changes nothing and only a non-empty bio refuses |
| `DioSections.Sections.Finish` | linux-3.10.96/fs/direct-io.c:1227-1237 | at the end all that was accepted is in submitted bios, none empty, each contiguous on disk and in the file by the offsets its sections were begun with |
| `DioCompletion.CompletedOnce` | linux-3.10.96/fs/direct-io.c:277-316 | in every reachable state, synchronous or not, dio_complete and the free happen at most once and in order, only with all bios processed and no reference left, and nothing can touch a freed dio |
| `DioCompletion.NeverStuck` | linux-3.10.96/fs/direct-io.c:409-481 | no lost wake-up: unless the request is over some real action is possible, so the submitter never sleeps with all bios finished |
| `DioCompletion.EndsWithin` | linux-3.10.96/fs/direct-io.c:473-481 | after the last bio is built only boundedly many actions remain, spurious wake-ups aside |
| `DioCompletion.BugOnNeverFires` | linux-3.10.96/fs/direct-io.c:1262-1274 | whenever the submitter is not the last to drop its reference it has queued the request |
| `DioCompletion.LeadsInv` | linux-3.10.96/fs/direct-io.c:369-392 | the reference count is the number of references, and each bio is in one stage, over every run |
| `DioCompletion.StepProgress` | linux-3.10.96/fs/direct-io.c:997-1017 | every action but building a bio or waking for nothing lowers the rank |
| `SegmentMerge.Request.Map` | linux-3.10.96/block/blk-merge_957_27.c:179-228 | after any merges the scatterlist has at most nr_phys_segments entries, describes the request's bytes, and cuts its vectors into consecutive groups of which only single vectors may exceed the limits |
| `SegmentMerge.MapSg` | linux-3.10.96/block/blk-merge_957_27.c:179-228 | the list describes exactly the bytes in order; each entry covers a consecutive group of vectors, being that vector alone or else within the size limit and one boundary window; and the number of entries is the greedy one |
| `SegmentMerge.MapVec` | linux-3.10.96/block/blk-merge_957_27.c:133-173 | adding one vector keeps all that, although only adjacent vectors are compared |
| `SegmentMerge.Request.BackMerge` | linux-3.10.96/block/blk-merge_957_27.c:268-308 | appends a bio iff the counts fit and nothing else refuses, and keeps the request countable either way |
| `SegmentMerge.Request.FrontMerge` | linux-3.10.96/block/blk-merge_957_27.c:310-326 | prepends a bio under the same condition and keeps the request countable |
| `SegmentMerge.Request.MergeRequest` | linux-3.10.96/block/blk-merge_957_27.c:339-381 | merges two requests iff their segments together fit, melting the middle one; a refusal leaves both countable although front and back sizes were rewritten |
| `SegmentMerge.Request.RecalcSegments` | linux-3.10.96/block/blk-merge_957_27.c:80-87 | a recount leaves the request countable with the same vectors; without high pages its count is exactly what mapping needs |
| `SegmentMerge.Recalc` | linux-3.10.96/block/blk-merge_957_27.c:12-78 | the count is that of an admissible cut bounded by the new front and back sizes, which never shrink; without high pages it is exactly what mapping needs |
| `SegmentMerge.Recount` | linux-3.10.96/block/blk-merge_957_27.c:89-103 | a recounted bio is valid, with the same vectors and sizes that did not shrink |
| `SegmentMerge.ContiguousExact` | linux-3.10.96/block/blk-merge_957_27.c:106-130 | with exact sizes, blk_phys_contig_segment answers exactly whether the two neighbouring segments may be melted into one |
| `SegmentMerge.MeltOk` | linux-3.10.96/block/blk-merge_957_27.c:106-130 | when two chains are contiguous, one segment less than the sum suffices with the sizes the code assigns |
| `SegmentMerge.FrontSetOk` | linux-3.10.96/block/blk-merge_957_27.c:363-369 | rewriting the front size of a one-segment request is sound even if the merge is refused |
| `SegmentTheory.GreedyMinimal` | linux-3.10.96/block/blk-merge_957_27.c:132-173 | no admissible cut has fewer segments than the greedy one, nor as few with a smaller last segment |
| `SegmentTheory.GreedyAdmissible` | linux-3.10.96/block/blk-merge_957_27.c:132-173 | the greedy cut is admissible, so the greedy count is the exact minimum |
| `SegmentTheory.BackwardMinimal` | linux-3.10.96/block/blk-merge_957_27.c:29-77 | cutting from the back is optimal too, with the smallest first segment |
| `SegmentTheory.MeltsExactly` | linux-3.10.96/block/blk-merge_957_27.c:106-130 | the number of segments of a concatenation is the sum, less one exactly if the last segment of one and the first of the other, both at their smallest, fit together |
| `SegmentTheory.ConcatJoin` | linux-3.10.96/block/blk-merge_957_27.c:363-370 | joining two cuts melts two segments into one, with the exact first and last sizes |
| `SegmentTheory.CountedAppend` | linux-3.10.96/block/blk-merge_957_27.c:268-290 | counts of parts add up when the second starts a new segment |
| `Integrity.Count` | linux-3.10.96/block/blk-integrity.c:44-74 | the count is the greedy number of entries |
| `Integrity.Map` | linux-3.10.96/block/blk-integrity.c:87-127 | the mapping writes exactly as many entries as counted, for the same bytes, each entry one vector or a consecutive group within the limits |
| `Integrity.SubAdditive` | linux-3.10.96/block/blk-integrity.c:44-74 | the count of a concatenation is at most the sum of the counts |
| `Integrity.IntegrityRequest.MergeBio` | linux-3.10.96/block/blk-integrity.c:199-216 | accepts iff the total fits, and then adds the bio and its count to what the request holds |
| `Integrity.IntegrityRequest.MergeRequest` | linux-3.10.96/block/blk-integrity.c:185-197 | accepts iff the sum fits, and then takes the vectors over without adding to the counter |
| `Integrity.FreshRequestBound` | linux-3.10.96/block/blk-mq.c:304 | the counter of a request never merged bounds its mapping iff it has no integrity vectors |
| `Integrity.FreshRequestOverflows` | linux-3.10.96/block/blk-mq.c:304 | a one-vector request needs one entry while its counter says zero |
| `Integrity.CounterBound` | linux-3.10.96/block/blk-integrity.c:185-216 | over every history of bio and request merges: the counter bounds the mapping iff at least as many merges melted two segments as there are entries nobody counted |
| `Integrity.MergedBioBound` | linux-3.10.96/block/blk-integrity.c:199-216 | after one bio merge the counter bounds the mapping iff the first bio has no integrity vectors, or one entry that melts with the merged bio |
| `Integrity.MergedBioOverflows` | linux-3.10.96/block/blk-integrity.c:199-216 | two distant one-vector bios need two entries while the counter says one |
| `Integrity.MergedRequestBound` | linux-3.10.96/block/blk-integrity.c:185-197 | after a request merge any total bounds the mapping iff what it had to spare covers the other request's entries, less one if the two segments in the middle melt |
| `Integrity.AbsorbsExactly` | linux-3.10.96/block/blk-integrity.c:44-74 | appending vectors costs no entry iff they are one segment, adjacent, and fit into the last one |
| `Restart.NothingStranded` | linux-3.10.96/block/blk-mq.c:1340-1389 | in every reachable state a non-empty hctx->dispatch has RESTART set, a run scheduled, or an agent that has yet to look |
| `Restart.SomebodyWillCome` | linux-3.10.96/block/blk-mq.c:1111-1131 | when all is at rest with requests on hctx->dispatch, RESTART is set and the driver holds a request, or has given one back whose work will run the queue |
| `Restart.WorkIsTaken` | linux-3.10.96/block/blk-mq.c:1209-1403 | progress: from every reachable state, with no new request and no run but scheduled ones, the agents, completions and runs already promised can take all of a non-empty hctx->dispatch |
| `Restart.AgentsFinish` | linux-3.10.96/block/blk-mq.c:1209-1403 | dispatchers, completions, inserters and requeue workers left to themselves take a bounded number of actions, over every interleaving |
| `Restart.NoAgentStuck` | linux-3.10.96/block/blk-mq.c:1209-1403 | an agent can act iff it is not done |
| `Restart.CompletionRuns` | linux-3.10.96/block/blk-mq-sched.c:89-103 | the completion of such a request schedules a run |
| `Restart.RequestsConserved` | linux-3.10.96/block/blk-mq.c:1209-1403 | requests on hctx->dispatch, queued, being requeued, in agents' hands and in the driver change in number only by an insertion, a completion or an error |
| `Restart.TagsConserved` | linux-3.10.96/block/blk-mq.c:1050-1091 | a driver tag passes from dispatcher to driver to completion; free tags change only where one is looked for, put by a completion, or given back by a refused dispatcher or by the driver with its request |
| `Restart.TagWaiterSleeps` | linux-3.10.96/block/blk-mq.c:1111-1131 | over every interleaving: a dispatcher that marked RESTART and gives up counting on it schedules no run when it looks, unless the mark was cleared meanwhile |
| `Restart.TagLoserCounts` | linux-3.10.96/block/blk-mq.c:1111-1131 | over every interleaving: one whose second attempt at a tag fails does count on it |
| `Restart.DeviceWaiterSleeps` | linux-3.10.96/block/blk-mq.c:1340-1380 | so does one told DEV_BUSY while RESTART was set |
| `Restart.BusyRunsAgain` | linux-3.10.96/block/blk-mq.c:1340-1380 | over every interleaving: when one told BUSY is done, a run is scheduled, or others have taken all of hctx->dispatch |
| `Restart.PromiseKept` | linux-3.10.96/block/blk-mq.c:1209-1403 | as long as RESTART stays set, whoever can be counted on keeps or passes on the promise |
| `Restart.TagFailure` | linux-3.10.96/block/blk-mq.c:1111-1131 | a failed retry for a tag proves that somebody else will come back |
| `Restart.StepTags` | linux-3.10.96/block/blk-mq.c:1050-1091 | tags in use never exceed the depth, and refused dispatchers alone never hold all of them |
| `Restart.LeadsInv` | linux-3.10.96/block/blk-mq-sched.c:307-393 | the protocol's invariant holds over every interleaving of dispatchers, also those that go on to the software queues, completions, inserters and requeue workers |
| `Conservation.ExactlyOnePlace` | linux-3.10.96/block/blk-mq.c:1209-1403 | in every reachable state a request is live iff it stands on a list, then at exactly one position of exactly one list, of its own software or hardware queue |
| `Conservation.ListsUniform` | linux-3.10.96/block/blk-mq.c:1678-1699 | the BUG_ON of blk_mq_insert_requests never fires, and one hardware queue serves for all that a dispatcher gives back |
| `Conservation.RequeuedOffLists` | linux-3.10.96/block/blk-mq.c:704-713 | the BUG_ON of blk_mq_requeue_request never fires |
| `Conservation.NeverStuck` | linux-3.10.96/block/blk-mq.c:1209-1403 | from every reachable state every live request can still be brought to its end, wherever it stands, with no new request or bio and no error |
| `Conservation.NoOvertaking` | linux-3.10.96/block/blk-mq.c:963-1034 | FIFO over every run: as long as a request waits on a software queue, dispatch list, local list or requeue list, those behind it stay behind it |
| `Conservation.FifoStep` | linux-3.10.96/block/blk-mq.c:1209-1403 | no step lets a request overtake another on such a list; who leaves with another still follows it |
| `Conservation.ArrivalOrder` | linux-3.10.96/block/blk-mq.c:1340-1347 | arrivals go behind, except for head insertions and what a dispatcher gives back |
| `Conservation.OpApart` | linux-3.10.96/block/blk-mq.c:963-975 | no list operation loses, duplicates or resurrects a request: afterwards a list holds exactly what it held, less what leaves, with what arrives |
| `Conservation.ArrivesHome` | linux-3.10.96/block/blk-mq.c:1663-1784 | whatever a step puts on a list belongs to that list's queue |
| `Tags.TagMap.AllocStatic` | linux-3.10.96/block/blk-mq.c:331-372 | a request is allocated iff the tag is not refused, and holds a tag nobody held, reserved iff asked for |
| `Tags.TagMap.AllocSched` | linux-3.10.96/block/blk-mq.c:331-372 | with an elevator it gets an internal tag only, reserved iff asked for, and fails iff that bitmap is full |
| `Tags.TagMap.GetDriverTag` | linux-3.10.96/block/blk-mq.c:1050-1091 | a request without a tag gets one iff its queue is not refused by the bitmap that its internal tag selects; one that has a tag keeps it; rqs[] and nr_active follow |
| `Tags.TagMap.PutDriverTag` | linux-3.10.96/block/blk-mq.h:204-237 | gives the tag back unless there is none or it is the request's own |
| `Tags.TagMap.FinishRequest` | linux-3.10.96/block/blk-mq.c:453-470 | ends the request and keeps every index exact |
| `Tags.TagMap.GetTag` | linux-3.10.96/block/blk-mq-tag.c:94-193 | fails iff the queue has had its share or all tags of the bitmap are taken |
| `Tags.TagMap.TagBusy` | linux-3.10.96/block/blk-mq-tag.c:27-34 | active_queues counts the active hardware queues |
| `Tags.TagMap.TagIdle` | linux-3.10.96/block/blk-mq-tag.c:50-60 | so does it after one goes idle |
| `Tags.Bits.Set` | linux-3.10.96/block/blk-mq-tag.c:159-267 | the offset encoding: setting a bit makes exactly one more tag in use, reserved tags below nr_reserved_tags |
| `Tags.Bits.Clear` | linux-3.10.96/block/blk-mq-tag.c:271-284 | clearing it undoes exactly that |
| `Tags.TagsDistinct` | linux-3.10.96/block/blk-mq.c:1073-1081 | live requests hold pairwise distinct tags below nr_tags |
| `Tags.AssignCounts` | linux-3.10.96/block/blk-mq.c:353-361 | nr_active stays the number of in-flight requests when a tag is given |
| `Tags.ReleaseCounts` | linux-3.10.96/block/blk-mq.h:204-216 | and when one is taken away |
| `Tags.FairShare` | linux-3.10.96/block/blk-mq-tag.c:66-91 | hctx_may_queue lets an active queue of a shared map take another tag iff it has fewer than four or fewer than its exact share of the depth; nobody else is held back |
| `Tags.NoTagIdle` | linux-3.10.96/block/blk-mq-tag.c:66-91 | without reserved tags, if every active hardware queue is refused then every tag is in use |
| `TagSet.Set.AddQueue` | linux-3.10.96/block/blk-mq.c:2730-2749 | for any queue: shared marks and counters are right afterwards iff the queue brought no stale mark or count with it |
| `TagSet.Set.InitQueue` | linux-3.10.96/block/blk-mq.c:2936 | the one caller of it, with a queue whose hardware queues are not marked shared: marks and counters are right afterwards |
| `TagSet.Set.DelQueue` | linux-3.10.96/block/blk-mq.c:2713-2728 | the set and its listed queues are marked shared iff two are left, with exact counters |
| `TagSet.Set.SetRestart` | linux-3.10.96/block/blk-mq-sched.c:75-103 | marking or clearing RESTART keeps shared_hctx_restart exact |
| `TagSet.SetShared` | linux-3.10.96/block/blk-mq.c:2681-2697 | the counter moves by the number of marked hardware queues |
| `TagSet.SharedCount` | linux-3.10.96/block/blk-mq.c:2681-2697 | that leaves it exact iff nothing had been counted before |
| `TagSet.AddedTwice` | linux-3.10.96/block/blk-mq.c:2730-2749 | two queues set up, one marked and taken off the shared set, then added again: the set is no longer right |
| `SwMapping.Mapping.MapSwqueue` | linux-3.10.96/block/blk-mq.c:2581-2674 | every online CPU's queue is the entry index_hw of exactly one hardware queue, the mapped one unless it can get no tags; unmapped hardware queues lose theirs |
| `SwMapping.Mapping.PlacesDistinct` | linux-3.10.96/block/blk-mq.c:2625-2633 | no two online CPUs share a place |
| `SwQueues.Hctx.Insert` | linux-3.10.96/block/blk-mq.c:1634-1699 | inserts at head or tail and keeps the pending bit equal to non-emptiness |
| `SwQueues.Hctx.FlushBusy` | linux-3.10.96/block/blk-mq.c:963-990 | takes every queued request, queue by queue in order, and leaves all empty |
| `SwQueues.Hctx.Dequeue` | linux-3.10.96/block/blk-mq.c:999-1034 | takes the first request of the nearest non-empty queue going round, nothing only if all are empty |
| `SwQueues.Hctx.DispatchCtx` | linux-3.10.96/block/blk-mq-sched.c:251-301 | a call is a run of such dequeues from where the last stopped, delivering each time the first request of the queue served, ended by emptiness, budget or refusal |
| `SwQueues.BoundedWaiting` | linux-3.10.96/block/blk-mq-sched.c:230-301 | a queue that stays non-empty is passed over fewer than nr_ctx times, across calls and insertions |
| `SwQueues.Nearer` | linux-3.10.96/block/blk-mq-sched.c:230-238 | serving another queue brings a waiting one strictly nearer |
| `SwQueues.Hctx.PendingExactly` | linux-3.10.96/block/blk-mq.c:45-67 | no bit is set iff nothing is queued |
| `Unplug.FlushPlugList` | linux-3.10.96/block/blk-mq.c:1715-1784 | splitting the list into runs appends to every software queue exactly its own requests in order |
| `AllocRqs.Alloc` | linux-3.10.96/block/blk-mq.c:2237-2322 | on success all requests are distinct slices inside allocated blocks; fails only where no block can be had or an initialiser fails; requests that fit the largest block need at most one block each whatever allocations fail, and larger ones consume every block without being placed |
| `AllocRqs.SlicesDisjoint` | linux-3.10.96/block/blk-mq.c:2293-2315 | different slices of one block do not overlap |
| `AllocRqs.AllocPages` | linux-3.10.96/block/blk-mq.c:2263-2277 | gets the largest order that can be satisfied, trying orders below the first only if they hold a request |
| `AllocRqs.TooLargeNeverPlaced` | linux-3.10.96/block/blk-mq.c:2293-2297 | a request larger than the largest block is placed by no iteration, so the loop would not advance |
| `IoContext.IndexesAgree` | linux-3.10.96/block/blk-ioc.c:54-83 | in every reachable state the tree, the io_context's list and the queue's list hold the same icqs, at most one per io_context and queue |
| `IoContext.HintIsLookup` | linux-3.10.96/block/blk-ioc.c:317-343 | under the queue lock a hint for that queue is exactly what the tree gives |
| `IoContext.CreateLinks` | linux-3.10.96/block/blk-ioc.c:357-399 | what ioc_create_icq returns is linked; its error message is never printed |
| `IoContext.ExitedOnce` | linux-3.10.96/block/blk-ioc.c:40-52 | the exit callback runs at most once, once by the time of freeing, and a freed icq is found nowhere |
| `IoContext.FreedIsFinal` | linux-3.10.96/block/blk-ioc.c:89-153 | a freed io_context has nothing linked to it and no action concerns it |
| `IoContext.CanBeFreed` | linux-3.10.96/block/blk-ioc.c:89-153 | from every reachable state an io_context without references can be freed, whatever lookups and destructions are under way, with every icq it ever had freed and exited exactly once |
| `IoContext.LivesWhileReferenced` | linux-3.10.96/block/blk-ioc.c:127-153 | over every run, an io_context is live iff more references were taken than given back |
| `IoContext.LookupSetsHint` | linux-3.10.96/block/blk-ioc.c:317-343 | a lookup that misses the hint finds the linked icq and leaves it as the hint |
| `IoContext.ActiveExits` | linux-3.10.96/block/blk-ioc.c:165-195 | when put_io_context_active reaches the end of the list, however often it had to start again and whatever others did meanwhile, every icq on the list has been exited exactly once |
| `IoContext.WalkCanEnd` | linux-3.10.96/block/blk-ioc.c:165-195 | from every reachable state a walk in progress can reach the end of the list |
| `IoContext.StepInv` | linux-3.10.96/block/blk-ioc.c:165-232 | every action of lookups, creations, destructions, exits and reference drops keeps the invariant |
| `AioRing.Ring.ReadEvents` | linux-3.10.96/fs/aio.c:701-764 | reads the oldest events, as many as asked for and available, and removes exactly those; faults iff they do not fit the user buffer, leaving the head |
| `AioRing.Ring.CopyOut` | linux-3.10.96/fs/aio.c:720-752 | the page-wise copying loop delivers consecutive slots going round, for any head |
| `AioRing.Ring.Complete` | linux-3.10.96/fs/aio.c:630-663 | appends the event iff fewer than nr_events - 1 are unread; otherwise the ring reads as empty |
| `AioRing.Overflow` | linux-3.10.96/fs/aio.c:630-663 | a ring of nr_events - 1 unread events reads as empty after one more completion |
| `AioRing.RingBigEnough` | linux-3.10.96/fs/aio.c:156-166 | the ring has room for the header and two more events than asked for |
| `AioRing.SlotsDistinct` | linux-3.10.96/fs/aio.c:219-221 | slots map to different positions past the header |
| `AioRing.CopiedSlots` | linux-3.10.96/fs/aio.c:727-741 | copying within one page copies the next slots |
| `Discard.IssueDiscard` | linux-3.10.96/block/blk-lib.c:40-143 | the bios tile the range, positive, at most the rounded maximum, aligned at every inner boundary, exactly the maximum except first and last; every error return is characterised |
| `Discard.NextSize` | linux-3.10.96/block/blk-lib.c:97-111 | the next size makes progress and ends aligned if more is to come, at full size from an aligned start |
| `Discard.MaxSectors` | linux-3.10.96/block/blk-lib.c:60-74 | the maximum is rounded down to the granularity and within both limits |
| `Discard.AlignedEnd` | linux-3.10.96/block/blk-lib.c:103-111 | the detour through a division finds the last aligned sector |
| `Discard.InnerAligned` | linux-3.10.96/block/blk-lib.c:97-111 | at every boundary inside a split one bio ends where the next begins, at the device's alignment offset modulo the granularity |
| `Discard.BytesFit` | linux-3.10.96/block/blk-lib.c:118 | every bio's size in bytes fits 32 bits |

## Left out

- Direct I/O is counted in dio blocks, with a filesystem block and a page as whole numbers of them; byte offsets and alignment checks are not modelled.
- Direct I/O page faults, batching of user pages, page pinning and release, and the size of a bio's vector table: `bio_add_page` may refuse any page except into an empty bio.
- Errors of I/O that has already completed, as seen by `dio_bio_reap` during submission, and the error exit at a boundary.
- DioWalk.Answer: get_block answers by filesystem block. How many blocks it is asked for, and whether it may create them, follow from the request and the block, so that an arbitrary answer for each block covers any use it makes of them; that it should give no more than asked for, and errors in user pages, are not modelled. An answer that breaks the contract counts as an I/O error.
- The file size is constant during a direct read.
- DioSections.Sections.Finish: contiguity in the file is by the offset recorded when a section is begun; growing the deferred section compares disk blocks only, and padding records the cursor's offset, as the code does.
- `bio_list` of a direct I/O is a set of bios: nothing depends on its order.
- Segment counting is for bios with data and queues that merge; a segment boundary mask is one less than a window size that divides the address space into windows. Data-less bios, QUEUE_FLAG_NO_SG_MERGE, DMA padding and draining, and 32-bit overflow of sizes are not modelled.
- SegmentMerge.Request.BackMerge: sector limits, gaps and flags appear as a refusal that may come at any time; positions and data length are not modelled.
- Restart is one hardware queue with unshared tags, neither stopped nor quiesced, with the dispatch budget always granted; lists are represented by their lengths, and a scheduler that has work gives some of it out. Requeue work is always scheduled. DEV_BUSY is answered only while the driver holds a request of this queue, as its documentation demands.
- Conservation is for devices without an elevator, and without merging of requests or CPUs going offline.
- Tags.TagMap.GetTag: one attempt; waiting for a tag, which repeats it, is not modelled.
- Tags does not model flush requests that borrow a tag, or changes of depth; TAG_SHARED is fixed for a tag map.
- IoContext treats list order as immaterial and RCU-delayed freeing as freeing; task pointers and the count of active references are not modelled.
- AioRing.Ring.ReadEvents: the tail is fixed during a call; cancellation and the count of active requests are not modelled.
- Memory ordering: atomic operations and locked sections are single steps.
- sysfs, debugfs, ioctls, I/O schedulers, timeouts, the bitmap's internals and the rest of the tree would only add easy members or rest on code that is not here.
