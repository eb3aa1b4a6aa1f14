# Verified models of the pager, the MapReduce framework and the user-level scheduler

Three independent models, each proved against a specification that a caller of the library would recognise.

**Demand-paged virtual memory** (`Project-Ex4`). Page tables and pages share one RAM array; a page fault takes an
empty table, the next untouched frame, or the frame of the page at the greatest cyclic distance. The pager is a class
over RAM and a swap file (`VirtualMemory.dfy`, `PhysicalMemory.dfy`), with the recursive scans and the walk written as
the original writes them. The main result is refinement: whatever faults, evictions and restores happen inside the
calls, a client sees a flat memory in which a read returns the last value written (`MemoryRuns.dfy`). The faults of
each call are accounted for one by one (`PageFaultRuns.dfy`): which frame each takes, and that a page leaves RAM only
as the victim of a fault with every frame in use. It rests on an invariant about the tree in RAM (`PageTable.dfy`,
`PageScan.dfy`), on the abstract memory (`AbstractMemory.dfy`: the contents of the mapped pages and of the swap file)
and on the moves a fault is made of (`PageFaults.dfy`). The three address widths stay symbolic
(`MemoryConstants.dfy`); a configuration is supported when the offset width is at least 1, at least one table level
exists, RAM has more frames than there are table levels, and the page size and the frame and page counts fit a signed
32-bit integer. The build's widths (4, 10, 20) are one instance.

**MapReduce framework** (`Project-Ex3/src`). Worker threads are a step system (`MapReduceSteps.dfy`): one step is one
atomic action of one thread, and any thread may step at any time. The state holds the program counters, the barrier,
the claim counter, the packed progress word, the per-thread vectors, the groups and the output. Main results hold for
every schedule: each input is mapped exactly once, each key class is reduced exactly once with all its pairs, nothing
overlaps the shuffle, the job cannot get stuck and finishes whichever steps are taken, the progress word only moves
forward, and the output is an interleaving of what the reduces emit (`MapReduceOutput.dfy`). The shuffle, the barrier
and the shared counters are also given as imperative code (`Shuffle.dfy`, `Barrier.dfy`, `JobState.dfy`); the steps
use the same specification functions. Assumed: a strict weak order on keys, a client whose `map` and `reduce` only
emit, `std::sort` as sortedness plus permutation, and no spurious wake-ups of the condition variable (a run of the
barrier is safe if and only if there is none, `Barrier.SafeIffNoSpuriousWakeUp`).

**User-level round-robin scheduler** (`Project-Ex2/submission`). The state and the effect of each library call are
functions (`SchedulerState.dfy`), the objects are classes proved equal to them (`Scheduler.dfy`), what each call does
to everything a caller can observe is stated apart from those functions (`SchedulerEffects.dfy`), and the whole-run
results are about any sequence of calls and timer ticks (`SchedulerInvariant.dfy`, `SchedulerRuns.dfy`, with two
example runs in `SchedulerWitnesses.dfy`). Every call is atomic, as the signal mask makes it; a context switch is the
change of the running thread's id.

Where code and documentation disagree, the model follows the code:

- `uthreads.h:66` says that resuming a blocked thread moves it to the READY state, and `uthreads.h:83-84` that a thread
  still inside its sleep has to wait for the end of it as well. The code makes the thread ready exactly if it has not
  slept since it was spawned (`SchedulerRuns.ResumeByHistory`). So code and header part exactly when the thread's last
  sleep is over: it keeps its old deadline, resuming it puts it among the sleepers, and the next timer tick makes it
  ready. `SchedulerWitnesses.ResumeNotReady` is a run of six calls in which this happens.
- `uthreads.h:79-80` says that a sleeper goes back to the READY threads when its quanta are over, counting new quanta
  regardless of the reason they start for. In the code only the timer tick wakes sleepers: a sleeper is still asleep
  exactly if no tick has come at or after its deadline (`SchedulerRuns.AsleepIffNoDueTick`).
  `SchedulerWitnesses.SleeperNotWoken` is a run in which quanta start and no sleeper is woken.
- `job_context.h` describes the progress word as 2 + 31 + 31 bits with the total in it. The code keeps the stage in the
  low two bits and decodes a 32-bit count above them; the total is not stored.

A fault's three helpers `HandleFault`, `ReadWord` and `WriteWord`, and `DropThread`, `EnterSleep`, `InsertSleeper`,
`TakeKey` and `PopKey`, are parts of the original's functions under names of their own. Products, quotients and
remainders by symbolic sizes are recursive functions; `TimesIsProduct` and `DivModMeaning` say that they are the
operators.

## Model

| member | source | states |
|---|---|---|
| MemoryConstants.SizesFactor | Project-Ex4/MemoryConstants.h:11-33 | NUM_FRAMES, NUM_PAGES and TABLES_DEPTH are the quotients (the last one rounded up) of the build's widths, and every page number has TABLES_DEPTH digits |
| MemoryConstants.AddressesFit | Project-Ex4/MemoryConstants.h:11-24 | in a supported configuration the sizes, computed as 64-bit signed shifts, do not overflow: the address widths are at most 60 |
| MemoryConstants.DivModMeaning | Project-Ex4/VirtualMemory.cpp:30-42 | the recursive quotient and remainder used for shifts and masks are `/` and `%` |
| PagePaths.RadixRoundTrip | Project-Ex4/VirtualMemory.cpp:50-56 | folding the rows fetchDepthOffset extracts, shifting left and adding, gives the page number back, also when the page bits are not a multiple of OFFSET_WIDTH |
| PagePaths.AddressParts | Project-Ex4/VirtualMemory.cpp:30-42 | the page is the address divided by PAGE_SIZE and the offset is the remainder |
| PagePaths.PathRoundTrip | Project-Ex4/VirtualMemory.cpp:106-108 | the page number accumulated along a full path is walked to along that very path |
| PagePaths.PageOfInjective | Project-Ex4/VirtualMemory.cpp:106-108 | different paths accumulate different page numbers |
| PagePaths.BeforeIsPageOrder | Project-Ex4/VirtualMemory.cpp:99-110 | the depth-first scan meets pages in ascending order |
| PageTable.AddressSplits | Project-Ex4/VirtualMemory.cpp:236 | frame * PAGE_SIZE + offset is in range and splits back into the frame and the word, so no PMread or PMwrite assertion fails |
| PageTable.PositionsUnique | Project-Ex4/VirtualMemory.cpp:233-247 | no two frames stand at the same position of the tree |
| PageTable.LabelsUnique | Project-Ex4/VirtualMemory.cpp:233-247 | a frame's path and its parent are determined by RAM alone: every linked frame is referenced by exactly one table row |
| PageTable.WalkFollowsLabels | Project-Ex4/VirtualMemory.cpp:233-247 | following a page's rows through RAM arrives at exactly the frame whose label is the page's path |
| PageTable.PageMapListsLeaves | Project-Ex4/VirtualMemory.cpp:233-247 | the pages that translate are exactly the leaves of the tree, one frame each |
| PageTable.DetachKeepsTree | Project-Ex4/VirtualMemory.cpp:174 | removing the edge to a childless frame leaves a tree without it |
| PageTable.AttachKeepsTree | Project-Ex4/VirtualMemory.cpp:243 | writing a fresh frame into a row that holds 0 leaves a tree with it, provided a frame linked as a table is all zero |
| PageScan.CyclicDistanceMeaning | Project-Ex4/VirtualMemory.cpp:73-74 | the cast of the unsigned difference loses nothing: the distance is min(NUM_PAGES - abs d, abs d), symmetric, and at least 1 for different pages |
| PageScan.VictimExists | Project-Ex4/VirtualMemory.cpp:162-184 | with RAM full, no empty table and more frames than table levels, some frame holds a page |
| PageScan.WayIsNotCandidate | Project-Ex4/VirtualMemory.cpp:150-154 | no table on the way from the root to the current one can be taken as unused, although only the current one is passed as protected |
| PageScan.FarthestNextRow | Project-Ex4/VirtualMemory.cpp:99-110 | one more row of the victim search keeps the first page at the greatest distance, with its page number and parent slot |
| PageScan.CandidatesNextRow | Project-Ex4/VirtualMemory.cpp:135-148 | one more row of the table search keeps the last empty table in depth-first order |
| PhysicalMemory.Backing.constructor | Project-Ex4/PhysicalMemory.cpp:9-14 | RAM counts as zero before its first use, and the swap file is empty |
| PhysicalMemory.Backing.PMread | Project-Ex4/PhysicalMemory.cpp:16-26 | the word at the address; lazily filling RAM with zeroes is invisible |
| PhysicalMemory.Backing.PMwrite | Project-Ex4/PhysicalMemory.cpp:28-38 | exactly one word of RAM changes |
| PhysicalMemory.Backing.PMevict | Project-Ex4/PhysicalMemory.cpp:40-50 | the frame's contents are in the swap file under the page; RAM is unchanged; the three assertions are preconditions |
| PhysicalMemory.Backing.PMrestore | Project-Ex4/PhysicalMemory.cpp:52-68 | the page's saved contents move from the swap file to the frame; nothing happens if there are none |
| AbstractMemory.EvictionInvisible | Project-Ex4/VirtualMemory.cpp:199-202 | moving a page from RAM to the swap file changes no page's contents, and keeps every page in one of the two places |
| AbstractMemory.TableChangeInvisible | Project-Ex4/VirtualMemory.cpp:162-184 | changes to tables and unlinked frames change no page's mapping or contents |
| AbstractMemory.LinkPage | Project-Ex4/VirtualMemory.cpp:243 | linking a frame as a page adds that page's mapping and changes no other page |
| AbstractMemory.RestorePage | Project-Ex4/VirtualMemory.cpp:249-250 | restoring brings back the page's old contents; a page never touched keeps what its frame held |
| AbstractMemory.StorePage | Project-Ex4/VirtualMemory.cpp:310 | storing into the page's frame changes that page and no other |
| PageFaults.FarthestIsVictim | Project-Ex4/VirtualMemory.cpp:86-111 | the search finds a leaf with its true page number and true parent slot, at maximal cyclic distance over all mapped pages, the smallest page number among the equally far |
| PageFaults.VictimUnique | Project-Ex4/VirtualMemory.cpp:76 | the victim is determined by the set of mapped pages |
| PageFaults.TakesTableHolds | Project-Ex4/VirtualMemory.cpp:172-176 | the first source of a frame hands over the last empty table in depth-first order, unlinked and all zero, with no page affected |
| PageFaults.TakesFreshHolds | Project-Ex4/VirtualMemory.cpp:178-181 | maxFrame + 1 is the first frame never used and all zero: the used frames are a prefix of RAM |
| PageFaults.EvictsHolds | Project-Ex4/VirtualMemory.cpp:192-210 | the third source hands over the victim's frame, cleared if it is to become a table and left as it is if it is to be a page, with the page's contents in the swap file |
| PageFaults.WayKept | Project-Ex4/VirtualMemory.cpp:233-247 | whichever source gave the frame, every table on the way to the faulting row is still linked where it was, and its zero rows are still zero |
| PageFaults.CanEvict | Project-Ex4/VirtualMemory.cpp:215-220 | evictFrame is called only when there is a page to evict |
| PageFaults.FaultWalks | Project-Ex4/VirtualMemory.cpp:240-244 | a fault leaves the walk one level deeper on a tree that again satisfies the invariant |
| PageFaults.WalkEnds | Project-Ex4/VirtualMemory.cpp:249-250 | after PMrestore a mapped page is untouched and an unmapped one is in, with its old contents if it had any, and no other page changed |
| PageFaults.PageInRange | Project-Ex4/VirtualMemory.cpp:276-281 | addresses below VIRTUAL_MEMORY_SIZE are exactly those whose page is below NUM_PAGES |
| PageFaultRuns.FaultPages | Project-Ex4/VirtualMemory.cpp:240-244 | a fault takes from RAM at most one page, the victim, and only when every frame is in use and no table is free; all other pages keep their frames |
| PageFaultRuns.FaultsSpare | Project-Ex4/VirtualMemory.cpp:227-252 | over all faults of a call: a page that leaves RAM was the victim of one of them, with every frame in use; a page that stays keeps its frame; only the page asked for comes in |
| PageFaultRuns.MappedPageNeverFaults | Project-Ex4/VirtualMemory.cpp:233-247 | a call for a mapped page has no fault |
| PageFaultRuns.RowAfterFault | Project-Ex4/VirtualMemory.cpp:240-244 | below a fault every further level faults too: the new tables are empty |
| PageFaultRuns.FirstTouch | Project-Ex4/PhysicalMemory.cpp:59-64 | a page never touched before shows zeroes, unless its frame had to be taken from a page; then it shows that page's words |
| VirtualMemory.Pager.ClearTable | Project-Ex4/VirtualMemory.cpp:15-23 | the frame is all zero, no other frame changed |
| VirtualMemory.Pager.ComputeAndUpdateMaxCycDist | Project-Ex4/VirtualMemory.cpp:69-84 | the leaf replaces the choice exactly if it is strictly farther |
| VirtualMemory.Pager.FindFrameToEvict | Project-Ex4/VirtualMemory.cpp:86-111 | the first farthest page under the current frame in depth-first order, if farther than what came in; RAM is unchanged |
| VirtualMemory.Pager.GetUnusedOrMaxFrame | Project-Ex4/VirtualMemory.cpp:123-155 | the last empty table under the current frame other than the protected one, and the greatest frame below it |
| VirtualMemory.Pager.CreateUnusedOrMaxFrame | Project-Ex4/VirtualMemory.cpp:162-184 | an empty table, else the next fresh frame, else 0 exactly if neither exists |
| VirtualMemory.Pager.EvictFrame | Project-Ex4/VirtualMemory.cpp:192-210 | the frame of the unique victim page, which is now in the swap file and unlinked |
| VirtualMemory.Pager.CreateFrame | Project-Ex4/VirtualMemory.cpp:215-220 | a frame from the three sources in their order |
| VirtualMemory.Pager.HandleFault | Project-Ex4/VirtualMemory.cpp:240-244 | one fault: a frame from the three sources in their order, linked into the row that was zero, and nothing else |
| VirtualMemory.Pager.FindFrame | Project-Ex4/VirtualMemory.cpp:227-252 | the page is in the returned frame; a mapped page is found without any change; for an unmapped one the new state is that of the call's faults, level by level, and the restore: pages leave RAM only as victims with every frame in use, the others keep their frames, and no other page's contents change |
| VirtualMemory.Pager.VMinitialize | Project-Ex4/VirtualMemory.cpp:259-265 | no page is mapped; the swap file is as it was |
| VirtualMemory.Pager.VMread | Project-Ex4/VirtualMemory.cpp:274-289 | 0 and no effect out of range; otherwise the word of the page, which is touched, with no other page's contents changed; the new state is that of the faults and the restore, and pages leave RAM only as victims with every frame in use |
| VirtualMemory.Pager.VMwrite | Project-Ex4/VirtualMemory.cpp:298-313 | 0 and no effect out of range; otherwise exactly one word of one touched page is replaced, in the state after the faults and the restore; pages leave RAM only as victims with every frame in use |
| MemoryRuns.StepKeepsOtherWords | Project-Ex4/VirtualMemory.cpp:227-313 | a call changes no word but the one it writes |
| MemoryRuns.ValueStays | Project-Ex4/PhysicalMemory.cpp:59-64 | a word, written or found at the page's first touch, stays until its address is written |
| MemoryRuns.ReadsReturnLastWrite | Project-Ex4/VirtualMemory.cpp:267-313 | over any run a read returns the last value written to its address |
| MemoryRuns.ReadsRepeat | Project-Ex4/PhysicalMemory.cpp:59-64 | two reads of an address without a write in between agree, also for a never-written address |
| MemoryRuns.ContentsWhereTouched | Project-Ex4/VirtualMemory.cpp:227-313 | over any run the pages with contents are those that had some before and those a call touched: no call loses a page and none adds another one |
| MemoryRuns.Session | Project-Ex4/VirtualMemory.cpp:274-313 | whatever calls a client makes, in range or not, the answers form a run of the flat memory from the memory before to the memory after, and afterwards exactly the pages it touched, and those that had contents before, are mapped in RAM or kept in the swap file, one of the two |
| MapReduceClient.LessThrough | Project-Ex3/src/thread_context.cpp:96-100 | an order on keys composes with its equivalence |
| Shuffle.GetMaxKey | Project-Ex3/src/thread_context.cpp:116-125 | no key exactly if all vectors are empty, otherwise the key at the back of the first vector that has a greatest one there; no remaining key exceeds it |
| Shuffle.TakeKey | Project-Ex3/src/thread_context.cpp:131-143 | every pair with a key equivalent to the maximum is popped and no other, as many are counted, and they stand in the order of the vectors, each from its back |
| Shuffle.PopKey | Project-Ex3/src/thread_context.cpp:133-139 | the pairs at the back of one vector with an equivalent key are moved, back first, and no other |
| Shuffle.ShuffleVecs | Project-Ex3/src/thread_context.cpp:103-148 | for sorted vectors the loop ends with non-empty groups of equivalent keys, keys strictly descending, together a permutation of all pairs, each pair counted once; each group holds the vectors' pairs in the order of the vectors, each from its back |
| Shuffle.GatheredBag | Project-Ex3/src/thread_context.cpp:131-143 | what a group gathers is its key class with full multiplicities |
| Shuffle.ShuffleExists | Project-Ex3/src/thread_context.cpp:127-146 | the promise can be kept for any vectors |
| Shuffle.GroupsDiffer | Project-Ex3/src/thread_context.cpp:129-146 | pairs of two groups have equivalent keys exactly if the groups are the same |
| Shuffle.GroupIsWholeClass | Project-Ex3/src/thread_context.cpp:129-146 | a group holds every pair of its key class as often as it was emitted |
| Shuffle.ClassHasGroup | Project-Ex3/src/thread_context.cpp:129-146 | every emitted pair is in some group |
| Barrier.LastArrival | Project-Ex3/src/Barrier.cpp:29-38 | the thread that does not wait finds all others waiting |
| Barrier.ArriveKeepsInv | Project-Ex3/src/Barrier.cpp:29-38 | arriving keeps count equal to the number of threads waiting, also when released threads have not left yet |
| Barrier.NobodyLeavesEarly | Project-Ex3/src/Barrier.cpp:24-42 | a thread that has left its k-th barrier left it after every thread had arrived at its k-th |
| Barrier.RunSafe | Project-Ex3/src/Barrier.cpp:24-42 | this holds in every state of every run up to the first spurious wake-up, however early fast threads come back |
| Barrier.SomebodyMoves | Project-Ex3/src/Barrier.cpp:29-30 | not all threads are waiting |
| Barrier.SpuriousWakeUpBreaksBarrier | Project-Ex3/src/Barrier.cpp:29-30 | the wait is not in a loop: in every state reached without one, for any number of threads, waking any waiting thread without a broadcast lets it out before some thread has arrived |
| Barrier.SafeIffNoSpuriousWakeUp | Project-Ex3/src/Barrier.cpp:24-42 | a run is safe in every state if and only if no thread is woken spuriously in it |
| Barrier.UnsafeRunExists | Project-Ex3/src/Barrier.cpp:29-30 | such a run exists: two threads, one arrives and is woken |
| Barrier.BarrierObject.Arrive | Project-Ex3/src/Barrier.cpp:24-38 | the counter follows the protocol; exactly the last to arrive does not wait |
| JobState.Unpacks | Project-Ex3/src/job_context.cpp:99-106 | decoding gives back the stage and the count, for counts below 2^32 |
| JobState.NextPhasePacked | Project-Ex3/src/job_context.cpp:68-77 | the next stage, with the count cleared |
| JobState.WithStagePacked | Project-Ex3/src/job_context.cpp:128-136 | setting the current stage again keeps its count, setting another one clears it |
| JobState.WithProcessedPacked | Project-Ex3/src/job_context.cpp:84-92 | the count grows by the amount if the stage is current, and nothing changes otherwise |
| JobState.JobContext.GetNextItemToProcess | Project-Ex3/src/job_context.cpp:79-82 | fetch-and-add |
| JobState.JobContext.SetNextPhase | Project-Ex3/src/job_context.cpp:68-77 | the decoded stage advances by one, wrapping after the last, and the decoded count is 0 |
| JobState.JobContext.SetJobStage | Project-Ex3/src/job_context.cpp:128-136 | the decoded stage is the one set; the decoded count is kept if it was the stage already and is 0 otherwise |
| JobState.JobContext.AddNumberOfProcessedItems | Project-Ex3/src/job_context.cpp:84-92 | while the sum fits 32 bits, the decoded stage is kept and the decoded count grows by the amount exactly if the stage is current |
| JobState.JobContext.GetJobState | Project-Ex3/src/job_context.cpp:94-106 | the stage and count a client is shown are those that were packed, whichever they were |
| MapReduceInvariant.PhasesDisjoint | Project-Ex3/src/thread_context.cpp:21-74 | while a thread maps or sorts none shuffles or reduces; while thread 0 shuffles all others are at a barrier |
| MapReduceInvariant.ClaimsNext | Project-Ex3/src/thread_context.cpp:84 | a claim adds the next index, and only it, to the indexes handed out |
| MapReduceInvariant.ClaimsComplete | Project-Ex3/src/thread_context.cpp:83-91 | once the counter has passed n and no call is in flight, each index below n was called exactly once |
| MapReducePhases.MapStepKeeps | Project-Ex3/src/thread_context.cpp:76-101 | the map and sort steps keep claims, calls and emitted pairs in balance |
| MapReducePhases.FirstBarrierOpens | Project-Ex3/src/thread_context.cpp:34 | when all threads are at the first barrier every input has been mapped once and every vector is sorted |
| MapReducePhases.ShuffleStepKeeps | Project-Ex3/src/thread_context.cpp:36-40 | thread 0's steps keep the pairs and end with the groups shuffled and the claim counter at 0 |
| MapReducePhases.SecondBarrierOpens | Project-Ex3/src/thread_context.cpp:43 | the reduce phase starts with all groups made and none claimed |
| MapReducePhases.ReduceStepKeeps | Project-Ex3/src/thread_context.cpp:150-161 | the reduce steps keep claims, calls and the shared output in balance |
| MapReducePhases.StepKeepsInv | Project-Ex3/src/thread_context.cpp:21-161 | every step of every thread keeps the invariant |
| MapReducePhases.RunKeepsInv | Project-Ex3/src/thread_context.cpp:21-161 | the invariant holds in every state of every run of N >= 1 threads |
| MapReduceRuns.FinishedJob | Project-Ex3/src/thread_context.cpp:21-161 | in the end each input was mapped exactly once, each group reduced exactly once, the groups are the shuffle of all emitted pairs and the output is exactly what the reduces emitted |
| MapReduceRuns.EachKeyReducedOnce | Project-Ex3/src/thread_context.cpp:150-161 | each emitted key class has one group with the full multiset of its pairs, and that group was reduced once |
| MapReduceOutput.StepExtends | Project-Ex3/src/job_context.cpp:50-56 | a step adds outputs at the end of the output vector and pairs at the end of a thread's vector |
| MapReduceOutput.OutputStays | Project-Ex3/src/job_context.cpp:50-56 | over any run the output is only extended at its end |
| MapReduceOutput.ClaimUnique | Project-Ex3/src/thread_context.cpp:84 | an item in flight is claimed by one thread and has not been served |
| MapReduceOutput.RunInterleaves | Project-Ex3/src/thread_context.cpp:150-161 | in every state of every run the output is an interleaving of what the reduces have emitted so far, each in its order |
| MapReduceOutput.FinishedInterleaves | Project-Ex3/src/thread_context.cpp:150-161 | however the threads interleave, a finished output is an interleaving of the reduces' outputs, each group's in the order in which its reduce emits them |
| MapReduceOutput.SoloInOrder | Project-Ex3/src/thread_context.cpp:76-161 | with one thread the inputs are mapped in order, the groups are reduced in order and the output is the concatenation of what the reduces emit |
| MapReduceRuns.CounterResetAlone | Project-Ex3/src/thread_context.cpp:108-147 | the claim counter goes back only while every other thread is at a barrier |
| MapReduceRuns.NoDeadlock | Project-Ex3/src/Barrier.cpp:24-42 | as long as some thread is not done, some thread can take a step |
| MapReduceRuns.StepCloser | Project-Ex3/src/thread_context.cpp:21-161 | every step decreases a well-founded measure |
| MapReduceRuns.NoInfiniteRun | Project-Ex3/src/thread_context.cpp:21-161 | there is no endless sequence of steps from a reachable state, whichever threads take them |
| MapReduceRuns.EveryRunFinishes | Project-Ex3/src/job_context.cpp:38-48 | for every schedule that lets some thread step whenever one can, all threads are done after finitely many steps, so waiting for the job returns |
| MapReduceRuns.MaximalRunFinished | Project-Ex3/src/job_context.cpp:38-48 | a run that cannot be continued has finished |
| MapReduceRuns.RunsToEnd | Project-Ex3/src/job_context.cpp:38-48 | from every reachable state some schedule finishes the job |
| MapReduceProgress.RunKeepsShowing | Project-Ex3/src/job_context.cpp:68-136 | in every state of every run the word shows the current stage and the work reported in it |
| MapReduceProgress.ProgressStep | Project-Ex3/src/job_context.cpp:68-136 | a step moves the count up within its stage, or to the next stage with the count 0 when the stage's total had been reached; a late setJobStage wipes nothing |
| MapReduceProgress.ProgressRun | Project-Ex3/src/job_context.cpp:94-126 | over a run the stage never goes back, within a stage the count never does, and it never exceeds the stage's total |
| MapReduceProgress.FinishedProgress | Project-Ex3/src/job_context.cpp:94-126 | a finished job shows the reduce stage with all pairs processed |
| SchedulerState.CleanKeeps | Project-Ex2/submission/Scheduler.cpp:142-148 | deleting the thread that awaits it touches no live thread |
| SchedulerState.TickDispatches | Project-Ex2/submission/Scheduler.cpp:219-234 | the timer handler never pops an empty queue |
| SchedulerState.OthersDispatch | Project-Ex2/submission/Scheduler.cpp:74-77 | block, sleep and terminate never pop an empty queue: main is ready |
| SchedulerInvariant.CallKeepsInv | Project-Ex2/submission/Scheduler.cpp:219-387 | every call keeps each live thread in exactly one of running, ready, blocked and sleeping, the sleepers in order of their deadlines, and main running or ready |
| SchedulerInvariant.DropKeeps | Project-Ex2/submission/Scheduler.cpp:150-166 | a thread other than the running one is found and removed from the one place where it waits |
| SchedulerInvariant.InsertedOrder | Project-Ex2/submission/Scheduler.cpp:383 | inserting a sleeper keeps the order of deadlines |
| Scheduler.Scheduler.constructor | Project-Ex2/submission/Scheduler.cpp:13-33 | main is running its first quantum and nothing else exists |
| Scheduler.Scheduler.GetLowestAvailableId | Project-Ex2/submission/Scheduler.cpp:58-67 | the loop finds the least id from 1 on that is not in use |
| Scheduler.Scheduler.SleepToReady | Project-Ex2/submission/Scheduler.cpp:168-176 | exactly the leading sleepers whose deadline is due move to the queue's end, in order |
| Scheduler.Scheduler.Preempt | Project-Ex2/submission/Scheduler.cpp:74-133 | the front thread runs with one more quantum; a terminating thread awaits deletion |
| Scheduler.Scheduler.TimerHandler | Project-Ex2/submission/Scheduler.cpp:219-234 | the new state is that of a tick; another signal has no effect |
| Scheduler.Scheduler.SpawnThread | Project-Ex2/submission/Scheduler.cpp:236-256 | state and result are those of a spawn |
| Scheduler.Scheduler.TerminateThread | Project-Ex2/submission/Scheduler.cpp:258-285 | state and result are those of a terminate; for main the call exits the process instead of returning |
| Scheduler.Scheduler.GetThreadQuantums | Project-Ex2/submission/Scheduler.cpp:287-297 | state and result are those of a quantum query |
| Scheduler.Scheduler.BlockThread | Project-Ex2/submission/Scheduler.cpp:299-328 | state and result are those of a block |
| Scheduler.Scheduler.ResumeThread | Project-Ex2/submission/Scheduler.cpp:330-367 | state and result are those of a resume |
| Scheduler.Scheduler.SleepThread | Project-Ex2/submission/Scheduler.cpp:369-387 | state and result are those of a sleep |
| Scheduler.Thread.IncrementNumOfQuantum | Project-Ex2/submission/thread.h:75 | one more quantum, nothing else |
| Scheduler.Thread.SetSleepUntil | Project-Ex2/submission/thread.h:86 | the deadline, nothing else |
| SchedulerRuns.At | Project-Ex2/submission/Scheduler.cpp:74-387 | the invariant holds after every sequence of calls and ticks |
| SchedulerEffects.EachInOnePlace | Project-Ex2/submission/Scheduler.cpp:74-208 | a live thread is running, ready, blocked or asleep, one of them and once; any other id, also the one awaiting deletion, is nowhere |
| SchedulerEffects.SpawnSucceeds | Project-Ex2/submission/Scheduler.cpp:236-256 | spawn succeeds exactly for a non-null function with fewer than MAX_THREAD_NUM live threads, returns the least unused id from 1 on, and appends a thread that has not run or slept; everything else is as before, and a failed spawn has no effect |
| SchedulerEffects.RoomHasId | Project-Ex2/submission/Scheduler.cpp:249-253 | the "no id" exit is reached exactly when the table is full, so after the size check never |
| SchedulerEffects.TerminateEnds | Project-Ex2/submission/Scheduler.cpp:258-285 | terminating succeeds exactly for a live thread, which is then no longer live, and exits exactly for main |
| SchedulerEffects.TerminateSparesOthers | Project-Ex2/submission/Scheduler.cpp:190-208 | terminating another thread takes it out of the place where it waits; everybody else stays in place and in order with the same quanta and deadlines, and the caller goes on running |
| SchedulerEffects.CallsFail | Project-Ex2/submission/Scheduler.cpp:287-387 | exactly when block, resume, sleep and the quantum query fail, and that a failed call and a query have no effect |
| SchedulerEffects.BlockEnds | Project-Ex2/submission/Scheduler.cpp:299-328 | blocking another live thread but main moves it to the blocked ones, and has no effect if it is one; everybody else stays in place and in order, and the caller goes on running |
| SchedulerEffects.ResumeEffect | Project-Ex2/submission/Scheduler.cpp:330-367 | resuming a thread that is not blocked has no effect; a blocked one goes to the end of the queue or, if it has a deadline, among the sleepers; everything else is as before |
| SchedulerEffects.FrontRuns | Project-Ex2/submission/Scheduler.cpp:74-92 | a running thread that terminates or blocks itself or sleeps hands the processor to the front of the queue, which gets one more quantum; everybody else stays in place and in order |
| SchedulerEffects.WithoutLeaves | Project-Ex2/submission/Scheduler.cpp:135-140 | removing a thread from the queue keeps the others in order |
| SchedulerEffects.InsertedEnters | Project-Ex2/submission/Scheduler.cpp:383 | a sleeper enters behind everyone with the same deadline or an earlier one and ahead of all others |
| SchedulerEffects.QuantumGoesToRunning | Project-Ex2/submission/Scheduler.cpp:74-92 | a quantum starts exactly at a timer tick and when the running thread gives up the processor; it is counted for the thread then running and for no other |
| SchedulerRuns.Conservation | Project-Ex2/submission/Scheduler.cpp:20-148 | total_quantum_ is the sum of the counts of all threads in the table and of those already deleted, across spawn, id reuse, termination and every kind of preemption |
| SchedulerRuns.TotalCounts | Project-Ex2/submission/Scheduler.cpp:74-81 | total_quantum_ is 1 plus the number of timer ticks plus the number of times the running thread gave up the processor |
| SchedulerRuns.QuantaHistory | Project-Ex2/submission/Scheduler.cpp:287-297 | a thread's count is the number of quanta started for it since its spawn, also if its id was used before |
| SchedulerRuns.NeverBack | Project-Ex2/submission/Scheduler.cpp:74-77 | a ready thread that is not blocked or terminated never moves back, and moves forward or runs with each new quantum |
| SchedulerRuns.BoundedWaiting | Project-Ex2/submission/Scheduler.cpp:74-92 | a ready thread at position k runs after at most k + 1 preemptions unless it is blocked or terminated before it has run, and k is below MAX_THREAD_NUM - 1 |
| SchedulerRuns.SleepSafety | Project-Ex2/submission/Scheduler.cpp:369-387 | a thread that sleeps n quanta in quantum t does not run before quantum t + n + 1, also if blocked and resumed meanwhile |
| SchedulerRuns.FallsAsleep | Project-Ex2/submission/Scheduler.cpp:381-384 | a successful sleep takes the thread off the processor and enters it with the deadline t + n |
| SchedulerRuns.StaysAsleep | Project-Ex2/submission/Scheduler.cpp:168-176 | only a timer tick wakes a sleeper, and only once its deadline has come |
| SchedulerEffects.TickQueue | Project-Ex2/submission/Scheduler.cpp:219-234 | a tick starts a quantum for the front of the queue; exactly the due sleepers are appended in order of their deadlines, ahead of the preempted thread; nothing else changes |
| SchedulerRuns.WakesUp | Project-Ex2/submission/Scheduler.cpp:168-176 | the first tick at or after the deadline makes the thread ready or running; until then it stays asleep |
| SchedulerRuns.AsleepIffNoDueTick | Project-Ex2/submission/Scheduler.cpp:168-176 | a sleeper that is not blocked or terminated is still asleep if and only if no timer tick came at or after its deadline, however many quanta have started |
| SchedulerRuns.AwakeAfterTicks | Project-Ex2/submission/Scheduler.cpp:168-176 | a thread that sleeps n quanta, not blocked or terminated, has become ready or run by the n-th timer tick |
| SchedulerRuns.OrderStays | Project-Ex2/submission/Scheduler.cpp:168-176 | two sleepers stay in order through every call until the first of them is due |
| SchedulerRuns.SleepersWakeInOrder | Project-Ex2/submission/Scheduler.cpp:168-176 | threads put to sleep until the same quantum, or the first until an earlier one, and woken by the same tick are queued in the order in which they fell asleep |
| SchedulerWitnesses.SleeperNotWoken | Project-Ex2/submission/uthreads.h:79-80 | the documented end of a sleep fails in a run of five calls: without a tick, quanta start and the sleeper is not woken |
| SchedulerRuns.BlockedNeverRuns | Project-Ex2/submission/Scheduler.cpp:299-367 | a blocked thread does not run until it is resumed |
| SchedulerRuns.ResumeMakesReady | Project-Ex2/submission/Scheduler.cpp:349-364 | resuming a blocked thread makes it ready if and only if its deadline field was never set; otherwise it sleeps until that deadline |
| SchedulerRuns.DeadlineHistory | Project-Ex2/submission/Scheduler.cpp:381-383 | a thread's deadline field is determined by the calls made since its spawn: the quantum of its last sleep plus the length of that sleep, or -1 if it has not slept |
| SchedulerRuns.SpawnOf | Project-Ex2/submission/Scheduler.cpp:236-256 | every live thread but main was spawned by some call and not terminated since |
| SchedulerRuns.ResumeByHistory | Project-Ex2/submission/uthreads.h:66 | in every run, a blocked thread that is resumed becomes ready if and only if it has not slept since its spawn; this is what the header asks for if and only if it has not slept or the deadline of its last sleep is still to come |
| SchedulerWitnesses.ResumeNotReady | Project-Ex2/submission/uthreads.h:66 | the documented effect of resume fails in a run of six calls |

## Left out

- Context-switch mechanics (sigsetjmp, siglongjmp, stacks, address translation, signal masks, the interval timer) are not modelled; a switch is the change of the running thread's id.
- What happens when the process exits after terminating main, destructors, joining and the error exits of system calls are not modelled.
- Wrap-around of the quantum counters and of the claim counter is not modelled: they are unbounded integers.
- SchedulerRuns.SleepSafety: deadlines are unbounded integers, here and in all results about sleeping; the code adds two ints, so a sleep whose deadline lies beyond INT_MAX (Project-Ex2/submission/Scheduler.cpp:382) overflows there and is not modelled.
- The progress word is exact for counts below 2^32, as its 32-bit count field demands; the results about mapping, shuffling, reducing and termination need no such bound.
- The floating-point percentage is not modelled; the integer count and total behind it are.
- Data races and weak memory are not modelled: each step of a worker is atomic, which is what the mutexes, the atomics and the barrier are for.
- The worker threads' entry points are a step relation and not imperative code, since other threads act between any two of their actions; their map, reduce and emit calls are steps of that relation.
- A worker copies the group queue before reducing; the model reads the groups directly, which nobody changes by then.
- The mutex thread 0 holds during the shuffle and the one around thread creation have no effect on the steps and are left out.
- MapReduceFramework.cpp and uthreads.cpp only forward calls.
- Project-Ex1 (timing) and Project-Ex5 (sockets, containers) are system calls without an invariant to keep.
