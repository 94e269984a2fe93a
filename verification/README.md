# Verification of flynnel's deque and of the protocols and loops in its benches and examples

This project models, in Dafny, flynnel's work-stealing deque and the self-contained concurrent
protocols, parallel decompositions and numeric loops that its benches and examples are built from,
and proves what they are relied on for. `dafny verify dfyconfig.toml` checks all of it.

Three kinds of model are used.

- Code that works in place (matrix slices, tables, pipes, stamps, buffers, counters) is written as
  methods and classes, with loops as in the source, and specified by functions and predicates whose
  own properties are proved as lemmas.
- Code that several threads run at once is a state and a step relation. A run is any finite schedule
  of steps, so every statement about `Run(..., schedule)` is a statement about every interleaving of
  any number of participants. Each atomic operation, each lock operation and each load or store of a
  shared element is one step, sequentially consistent. Where the source also has a plain sequential
  reading of the same code, that is given as a method (`ProbeTable.Registry`, `BridgePipe.Ends`,
  `LeafSizes.Table`, `StallReports.StallWatch`, `ChaseLev.Deque`).
- Fast forms are proved against simple ones: chunked counting against one scan, one-pass moments
  against the definition, stamps against flags that are cleared, printed runs against the list they
  came from, the grid-stride kernel against nested loops.

Sizes are general: dimension, lanes, slots, team, generations, crew, callers, needle, chunk, grid,
window and stall length are all parameters.

## What the files hold

| file | models |
|---|---|
| `PivotedElimination.dfy`, `TriangularSystems.dfy` | pivot pick, swap and scale, and the trailing update, on one row-major slice; P A = L U and when it exists |
| `ChaseLev.dfy` | the work-stealing deque: one owner and any number of thieves, load by load and store by store |
| `LaneUpdate.dfy` | the trailing update split over lanes, element accesses interleaved |
| `VariantRace.dfy` | the three-way race with one cancel flag |
| `ProbeTable.dfy` | the lock-free call-site registry |
| `GenerationBarrier.dfy` | the counting barrier across blocks, its cells, and the budget around it |
| `Crew.dfy` | the generation/done handshake of the thread crew |
| `BridgePipe.dfy`, `LockedTransport.dfy`, `OwnedTransport.dfy` | the untagged request/reply pipe, behind a lock and behind an owning thread |
| `OverlappedGrep.dfy` | chunked counting with overlap |
| `BoxBlur.dfy` | the blur on the host and as a grid-stride kernel |
| `OnlineMoments.dfy` | the one-pass variance and the incremental means |
| `LeafSizes.dfy` | the leaf-size counters, recorded and read concurrently |
| `LeafRows.dfy` | what a printed row's mean and cv2 say of the leaves' times |
| `LevelSweep.dfy` | the closing report over foreign-load levels, and its verdicts |
| `StallWatch.dfy` | the stall instrument one call at a time, its watchdog, and the printed runs |
| `StallRace.dfy` | the stall instrument with dispatcher, workers and report interleaved load by load and store by store |
| `Tandem.dfy` | the windowed submit/reap pipeline and the learned share |
| `PairOrders.dfy` | the drift-normalised verdicts |
| `TraceStats.dfy` | busy, idle and efficiency of a trace |
| `Layout.dfy`, `Totals.dfy`, `Text.dfy`, `Sorting.dfy`, `Reals.dfy`, `Powers.dfy`, `Options.dfy` | equal parts laid end to end, sums over a team, decimals and lines, the stable sort, products and quotients by name, powers of two, `Option` |

## What turned out not to hold as one might expect

Each of these is a lemma for all inputs that says exactly when the expectation does hold. Where a
lemma gives an input for which it fails, that is named too.

- `observe_grep` overlaps its chunks by the needle's whole length, one byte more than is needed. It
  counts a match that starts exactly at an interior chunk boundary twice; the total is right if and
  only if there is no such match (`OverlappedGrep.OverlapOfNeedleLength`). The shortest text it
  miscounts is one chunk with a needle after it, which it counts twice
  (`OverlappedGrep.BoundaryMatchCountsTwice`, `OverlappedGrep.ShortTextIsCountedRight`).
- The registry keeps the first payload of a key, the hash map beside it keeps the last. In any run the
  registry answers like the map at every moment if and only if no key is given a second payload
  (`ProbeTable.RegistryIsMapIff`, `ProbeTable.RevaluedKeyDiffers`).
- The fast arm of the pi race can never win, in any schedule: its 32 terms are not within its own
  tolerance (`VariantRace.FastArmNeverStores`).
- Nothing in the pipe says whose a line is. Over any run of either transport, every reply that came
  back is its own caller's if and only if no body whose exchange came back has a newline in it; and
  while the child lives the pipe is in step between exchanges exactly then
  (`LockedTransport.RepliesAreOwnIff`, `OwnedTransport.RepliesAreOwnIff`). One such body puts the pipe
  out of step for good: no later exchange with a living child brings it back, and each that comes back
  after it is given a line of an earlier body (`LockedTransport.OutOfStepForGood`,
  `OwnedTransport.OutOfStepForGood`, and `BridgePipe.NewlineCrossesReplies` for the very next caller).
  The bench's own bodies have none.
- `done` is the number of workers that have finished the crew's latest round at every moment but
  between the reset and the bump of the next, when it is 0 and they all have
  (`Crew.DoneCountsFinishers`).
- Once a block has left a barrier on its deadline, the count that is never reset can let other blocks
  out of a barrier some block has not reached. That can happen if and only if the launch has three
  blocks or more and two generations or more (`GenerationBarrier.WholeSafeIff`); the least such launch
  is `GenerationBarrier.AfterATimeoutTheBarrierLeaks`. While no timeout has been counted it does not
  (`GenerationBarrier.NoBlockRunsAhead`).
- Starting from one visit, the incremental mean forgets the value the device returned: a leaf's
  result depends on it if and only if the leaf's number is not a multiple of 256
  (`OnlineMoments.ValueCountsIff`).
- A row of leaf sizes squares times scaled down by 2^8, so its cv2 is at most that of the leaves it
  counts and can be below zero: for one leaf it is never above zero, and zero if and only if the
  leaf's time is a multiple of 256 ns (`LeafRows.OneLeafIff`). In general the printed variance is the
  leaves' own if and only if all their times are such multiples (`LeafRows.RowMeasures`).
- The stall report makes its two lists one after the other, loading every start again for the second,
  while closures may still start. It can print an index in both lists: one whose closure starts
  between the two loads and is found unfinished (`StallRace.InBothIff`,
  `StallRace.AnIndexInBothLists`). The lists and the rest partition the fan-out if and only if there is
  no such index (`StallRace.PartitionIff`), as in a stall that lasts (`StallRace.StalledReportIsExact`).
- The kernel writes no pixel twice if and only if no thread's 32-bit index wraps
  (`BoxBlur.NeverTwiceIff`).
- `print_report` shows a negative idle time if and only if the worker's first timestamp is 0 and it
  was busy (`TraceStats.IdleNonnegativeIff`, `TraceStats.IdleCanBeNegative`); the window `main` accepts
  rules that out.
- A group with a single paired arm is compared with itself in `pair_orders`: it reads "agree" if and
  only if at least one of its two intervals is the right way round (`PairOrders.LoneArmAgreesIff`).
  Two arms need not agree (`PairOrders.TwoArmsCanDisagree`).

One more fact is about the leaf counters alone and not about the program. A reading covers the leaves
it counts whatever recorders do meanwhile, but were readings taken while a recorder is in a call, an
interval between two of them could count a leaf and none of its time
(`LeafSizes.IntervalNeedNotCover`); all later readings cover their intervals if and only if the
earlier reading was exact (`LeafSizes.CoversIff`). The program reads between dispatches only, when no
recorder is in a call, and the intervals it reports have exactly the times of the leaves they count
(`LeafSizes.ReportedIntervalIsExact`).

The comment above `mcts_backprop` gives the walk a depth of 32; the code's constant is 40, and the
model follows the code.

## Model

| member | source | states |
|---|---|---|
| ChaseLev.TakenOnce | src/sched/chase_lev_local.rs:170-337 | in every interleaving of one owner and any number of thieves each job pushed is in exactly one place, taken by one pop or steal, won by a pop that has not returned, or still in the deque; jobs pushed once are taken once |
| ChaseLev.AllTakenWhenLevel | src/sched/chase_lev_local.rs:170-337 | with the owner between calls and bottom not above top, the jobs taken are exactly the jobs pushed |
| ChaseLev.StepIsDequeStep | src/sched/chase_lev_local.rs:170-337 | every step of every run is one of a double-ended queue: the store of a push adds a job at the end, a pop takes the last in the step it wins it and a thief's compare-exchange the first, and no other step changes the jobs there or gone |
| ChaseLev.RunInv | src/sched/chase_lev_local.rs:185-236 | what every run keeps: no more jobs than slots, what a thief still in the race has copied is the first job, and the jobs pushed are those gone and those there |
| ChaseLev.PushRefusedIff | src/sched/chase_lev_local.rs:172-177 | a push is refused exactly when there is a job for every slot at its load of top |
| ChaseLev.PopEmptyIff | src/sched/chase_lev_local.rs:206-234 | a pop comes back empty exactly when there is no job at its load of top or at the race it loses |
| ChaseLev.StealEmptyMeans | src/sched/chase_lev_local.rs:314-319 | a steal finds nothing only when there is no job, or one that the owner is in the middle of popping |
| ChaseLev.RetryMeansTaken | src/sched/chase_lev_local.rs:326-336 | a steal told to retry has lost a job to somebody: one has been taken since top was what it loaded |
| ChaseLev.Deque.Push | src/sched/chase_lev_local.rs:170-192 | with nobody else at work: handed back exactly at capacity, else the last job |
| ChaseLev.Deque.Pop | src/sched/chase_lev_local.rs:197-235 | with nobody else at work: the last job, or empty exactly when there is none |
| ChaseLev.Deque.Steal | src/sched/chase_lev_local.rs:311-337 | with nobody else at work: the first job, or empty exactly when there is none, never a retry |
| ChaseLev.Deque.Unclaimed | src/sched/chase_lev_local.rs:100-114 | the drop goes over every job held, once each and in order |
| PivotedElimination.IndexIsRowMajor | benches/flynn_axes.rs:296-298 | the slice is indexed as row * DIM + col |
| PivotedElimination.PivotRow | benches/flynn_axes.rs:295-303 | the scan settles on the first row from the diagonal down with the largest absolute entry |
| PivotedElimination.FindPivotRow | benches/flynn_axes.rs:295-303 | the scanning loop finds that row |
| PivotedElimination.SwapRows | benches/flynn_axes.rs:304-309 | whole rows change places, the factored part of them included, and nothing else moves |
| PivotedElimination.ScalePivotRow | benches/flynn_axes.rs:311-314 | the pivot row is divided right of the diagonal only |
| PivotedElimination.PickAndScalePivot | benches/flynn_axes.rs:294-316 | exchange then scale, and the pivot returned is the diagonal entry; a pivot is asked for only when a division follows |
| PivotedElimination.ApplyPivotToRow | benches/flynn_axes.rs:323-328 | one row loses multiplier times pivot row and keeps its multiplier in the step's column |
| PivotedElimination.ApplyPivotToRows | benches/flynn_axes.rs:321-330 | exactly the rows lo..hi are reduced, from the pivot row as it was |
| PivotedElimination.ExchangeKeepsFactored | benches/flynn_axes.rs:304-309 | the factorization of the finished steps survives full-row exchanges of the part already factored |
| PivotedElimination.StepKeepsFactored | benches/flynn_axes.rs:310-330 | scaling and the trailing update take a factorization of k steps to one of k + 1 |
| PivotedElimination.StuckMeansSingular | benches/flynn_axes.rs:294-330 | a step that finds no pivot means some nonzero vector is sent to zero by the input |
| PivotedElimination.PivotsMeanNonsingular | benches/flynn_axes.rs:294-330 | with every pivot nonzero only the zero vector is |
| PivotedElimination.PivotsDecideSingular | benches/flynn_axes.rs:294-330 | after all steps the input is singular exactly when the last pivot is zero |
| PivotedElimination.EliminateStep | benches/flynn_axes.rs:294-330 | one call of each routine keeps the permutation, the factorization and the nonzero pivots |
| PivotedElimination.Eliminate | benches/flynn_axes.rs:294-330 | for steps 0, 1, ...: P A = L U when it gets to the end, and all pivots are nonzero if and only if the input is nonsingular |
| TriangularSystems.EmptyColumnHasKernel | benches/flynn_axes.rs:294-316 | a partial factorization whose next column is empty gives an explicit nonzero kernel vector |
| TriangularSystems.TriangularKernelIsZero | benches/flynn_axes.rs:294-330 | a full factorization with nonzero pivots has only the zero vector in its kernel |
| LaneUpdate.LanesPartition | benches/flynn_axes.rs:352-367 | for every dimension and lane count the div_ceil ranges are in order, disjoint, and together exactly the trailing rows |
| LaneUpdate.BenchJobIsValid | benches/flynn_axes.rs:393-411 | the ranges handed to the closures are a valid and complete job, empty ranges included |
| LaneUpdate.ReducedIsUnique | benches/flynn_axes.rs:321-330 | the reduction determines the whole slice |
| LaneUpdate.InterleavedEqualsSerial | benches/flynn_axes.rs:355-379 | every element-level interleaving of the lanes leaves the slice one serial call over all trailing rows leaves |
| VariantRace.CancelSeenMeansBeaten | benches/flynn_axes.rs:476-479 | the third arm finds the flag up only after an earlier arm's estimate is in its cell |
| VariantRace.SelectionIsAnEstimate | benches/flynn_axes.rs:499-531 | in every schedule the selection finds a value, never the placeholder, and it is an estimate within its arm's tolerance or the third arm's finished one |
| VariantRace.PlaceholderIsNeverAlone | benches/flynn_axes.rs:518-531 | without an earlier estimate the third cell holds a finished one; a placeholder there implies an earlier estimate |
| VariantRace.LeibnizBelow | benches/flynn_axes.rs:430-438 | a bound from below pi on every even partial sum of the fast arm's series |
| VariantRace.FastArmNeverStores | benches/flynn_axes.rs:429-444 | 32 terms are never within 1e-4 of pi, so in no schedule does the fast arm store an estimate |
| ProbeTable.FindIsMembership | examples/call_site_registry_cost.rs:128-144 | a probe from the home slot finds a key exactly when some slot holds it |
| ProbeTable.PublishFirstWins | examples/call_site_registry_cost.rs:108-121 | a publish keeps every node's probe path occupied, gives its key a payload only if it had none, and changes no other key |
| ProbeTable.PathOfAllSlotsIsFull | examples/call_site_registry_cost.rs:105-124 | a probe that never saw an empty slot has seen every slot |
| ProbeTable.Registry.constructor | examples/call_site_registry_cost.rs:101 | the empty table holds no key |
| ProbeTable.Registry.TableInsert | examples/call_site_registry_cost.rs:103-125 | panics exactly on a full table, else the first insert of a key wins and all else is unchanged |
| ProbeTable.Registry.TableLookup | examples/call_site_registry_cost.rs:128-144 | answers what the simple map holds, ABSENT otherwise |
| ProbeTable.AnswerIsCurrent | examples/call_site_registry_cost.rs:106-143 | in every run, at the step of a lookup's answer (a null read included) the map holds exactly that answer; an insert panics only over a full table |
| ProbeTable.AnswersNeverChange | examples/call_site_registry_cost.rs:103-144 | once a key is found it is found with the same payload after any further steps |
| ProbeTable.LookupsLinearize | examples/call_site_registry_cost.rs:103-144 | for every lookup of every run there is a moment between call and answer at which the first-insert-wins map of the published nodes gives its answer |
| ProbeTable.PublishedAreInserted | examples/call_site_registry_cost.rs:103-125 | in every run what has been published is what the inserts that got in brought, each node as often as it was brought |
| ProbeTable.InsertsLinearize | examples/call_site_registry_cost.rs:107-120 | every insert that returned was published at one moment between its call and its return, by its own exchange |
| ProbeTable.InsertedIsFound | examples/call_site_registry_cost.rs:103-144 | the key of an insert that returned is found in every later state |
| ProbeTable.AgreesWithMapIff | examples/call_site_registry_cost.rs:147-159 | over any list of inserts, keeping the first payload of each key and keeping the last agree after every one of them exactly when no key is given a second payload |
| ProbeTable.RegistryIsMapIff | examples/call_site_registry_cost.rs:103-159 | in any run of concurrent inserts and lookups, panicking inserts included, the table answers at every moment as the hash map of what has been published if and only if no key is published with a second payload |
| ProbeTable.RevaluedKeyDiffers | examples/call_site_registry_cost.rs:103-159 | a run of two inserts of one key with different payloads, after which a lookup answers the first where the map holds the second |
| GenerationBarrier.RunInv | examples/gpu_peer_generation_barrier.rs:131-154 | what every run keeps: arrivals counted, nobody let through early while no timeout is counted, tallies and maxima, and after a timeout a maximum past the deadline |
| GenerationBarrier.NoBlockRunsAhead | examples/gpu_peer_generation_barrier.rs:138-154 | while the timeout cell is 0 a block in generation g has every block arrived at g - 1, and no two are more than one apart, a block past its deadline and not counted yet included |
| GenerationBarrier.FinalCells | examples/gpu_peer_generation_barrier.rs:139-151 | when all have finished, timeouts or not: arrivals are team times generations, the overall maximum is the larger of the two and past the deadline if a timeout was counted, and the host's shifted sum is short by under 1024 ns a barrier exactly as 32-bit wrap allows |
| GenerationBarrier.WholeSafeIff | examples/gpu_peer_generation_barrier.rs:131-154 | over all reachable states of a launch, timeouts included: a block that leaves a barrier as whole always has every block arrived at it if and only if the launch has at most two blocks or at most one generation |
| GenerationBarrier.AfterATimeoutTheBarrierLeaks | examples/gpu_peer_generation_barrier.rs:139-151 | the least launch that leaks, for any deadline: a reachable state of three blocks and two generations in which one block has waited past the deadline, recorded that and been counted, and another is out as whole of a barrier the third has not reached |
| GenerationBarrier.BudgetCoversEveryArm | examples/gpu_peer_generation_barrier.rs:359-363 | no rank of any arm works longer in a generation than the budgeted maximum |
| GenerationBarrier.LowerGenerations | examples/gpu_peer_generation_barrier.rs:527-533 | the largest count up to the request whose worst slot stays within half the limit, and never below one |
| Crew.DoneCountsFinishers | benches/wasm_store_locality.rs:217-239 | in every run done never exceeds the size and is the number that have finished the latest generation, except between reset and bump, when it is 0 and all have |
| Crew.NoGenerationSkippedOrRepeated | benches/wasm_store_locality.rs:199-219 | each worker has run generations 1, 2, ... in order, none twice, at most one ahead of the rounds returned |
| Crew.ResetLosesNothing | benches/wasm_store_locality.rs:232-238 | when a round starts nobody is about to count itself in and everybody has finished every generation |
| Crew.RoundReturnsWhenAllFinished | benches/wasm_store_locality.rs:236-240 | a waiting round returns exactly when every worker has counted itself into it |
| Crew.JoinedCrewRanEveryRound | benches/wasm_store_locality.rs:243-255 | after the stop and the joins each worker has run exactly the shares of the rounds there were |
| Crew.WaitingRoundMakesProgress | benches/wasm_store_locality.rs:200-239 | each turn of an uncounted worker brings a waiting round one step nearer its end, and none left means it is over |
| BridgePipe.Ends.RoundTrip | benches/jax_bridge_transport.rs:107-118 | from any pipe: fails only once the child is gone, reads back the first line not read yet, and leaves a living child's pipe in step exactly when it was and the body has no newline; from a pipe in step the line is the body exactly when it has none |
| BridgePipe.NewlineCrossesReplies | benches/jax_bridge_transport.rs:107-117 | after a body with a newline the next caller is given the rest of it |
| BridgePipe.EchoBodyIsOneLine | benches/jax_bridge_transport.rs:384-386 | the bodies the fan-out sends have no newline |
| BridgePipe.LinesOfIff | benches/jax_bridge_transport.rs:107-117 | bodies written one after another are as many lines as bodies exactly when none has a newline, and then those lines |
| BridgePipe.OwnLinesIff | benches/jax_bridge_transport.rs:107-117 | lines read back one a body are the bodies themselves exactly when none has a newline |
| BridgePipe.PlayedOwnIff | benches/jax_bridge_transport.rs:107-118 | over any moves of one user and the child: replies are own, and the pipe of a living child in step between exchanges, exactly when no body that came back has a newline |
| LockedTransport.RunPlays | benches/jax_bridge_transport.rs:314-329 | any callers in any interleaving are, to the pipe, one user doing one exchange after another |
| LockedTransport.RepliesAreOwnIff | benches/jax_bridge_transport.rs:314-329 | whatever the bodies, in every run: every reply that came back is its own caller's, and the pipe of a living child in step whenever the lock is free, if and only if no body whose exchange came back has a newline |
| LockedTransport.OutOfStepForGood | benches/jax_bridge_transport.rs:314-329 | after one such body no later exchange brings a living child's pipe back in step, and each that comes back is given a line of an earlier body |
| LockedTransport.LockedIsAtomic | benches/jax_bridge_transport.rs:314-329 | with bodies of one line: any callers in any interleaving amount to atomic exchanges; at most one reply is outstanding and the pipe is in step whenever the lock is free |
| LockedTransport.LockedAccounts | benches/jax_bridge_transport.rs:314-329 | with all callers back, whatever the bodies, successes plus FAILED are the calls made and FAILED the exchanges that did not come back |
| OwnedTransport.RunPlays | benches/jax_bridge_transport.rs:229-286 | the callers behind the queue are, to the pipe, one user doing one exchange after another |
| OwnedTransport.RepliesAreOwnIff | benches/jax_bridge_transport.rs:229-286 | whatever the bodies, in every run: a reply in a caller's slot is that of an exchange of its own body, and it is its own line for all that came back if and only if no such body has a newline; the pipe of a living child is in step between exchanges exactly then |
| OwnedTransport.OutOfStepForGood | benches/jax_bridge_transport.rs:229-286 | after one such body no later exchange brings a living child's pipe back in step, and each that comes back is given a line of an earlier body |
| OwnedTransport.OwnedIsAtomic | benches/jax_bridge_transport.rs:229-286 | with bodies of one line: the queue and owner give the same atomic exchanges and every reply in a caller's slot answers that caller's body |
| OwnedTransport.NoCallIsLost | benches/jax_bridge_transport.rs:243-274 | a waiting caller has exactly one request of its own, in the hub or with the owner, whatever the bodies |
| OwnedTransport.OwnedAccounts | benches/jax_bridge_transport.rs:261-286 | with all callers back, whatever the bodies, successes plus FAILED are the calls made, and the successes are the exchanges of the log that came back |
| Text.LinesRoundTrip | benches/jax_bridge_transport.rs:108-111 | the lines read back joined with newlines are the text written |
| Text.OneLineIff | benches/jax_bridge_transport.rs:108-111 | a text is read back as one line, itself, exactly when it has no newline |
| OverlappedGrep.CountMatches | examples/observe_grep.rs:41-55 | the loop counts the positions at which the whole needle stands |
| OverlappedGrep.ChunkReach | examples/observe_grep.rs:69-71 | a chunk counts exactly the matches that start in it or in the surplus of its overlap |
| OverlappedGrep.CountSlab | examples/observe_grep.rs:66-73 | a leaf writes its own slots' counts and no other slot |
| OverlappedGrep.GrepOneIter | examples/observe_grep.rs:57-75 | for every split of the slots into slabs the total is the whole-scan count plus the matches in the surplus after interior boundaries |
| OverlappedGrep.OverlapOfNeedleLength | examples/observe_grep.rs:58-74 | with the program's overlap the excess is the number of matches at interior boundaries, and there is none if and only if there are no such matches |
| OverlappedGrep.BoundaryMatchCountsTwice | examples/observe_grep.rs:21-75 | with the program's needle and chunk: a chunk of zeros and one needle is counted twice |
| OverlappedGrep.NeedleAtBoundaryCountsTwice | examples/observe_grep.rs:21-75 | with the program's needle and chunk: text of at most two chunks with a needle at the boundary counts exactly one too many |
| OverlappedGrep.ShortTextIsCountedRight | examples/observe_grep.rs:21-75 | with the program's needle and chunk: text too short for a needle at the first boundary is counted right |
| OverlappedGrep.OverlapOneShorter | examples/observe_grep.rs:57-75 | with one byte less the sum is the whole-scan count for every haystack |
| BoxBlur.AreaIsProduct | examples/gpu_wide_op_demo.rs:29-36 | the divisor is the clipped window's width times its height, and never zero |
| BoxBlur.AlongRow | examples/gpu_wide_op_demo.rs:45-51 | the inner loop adds one row of the clipped window, or nothing outside the image |
| BoxBlur.BlurPixel | examples/gpu_wide_op_demo.rs:43-53 | the two offset loops compute the mean of the clipped 3x3 window |
| BoxBlur.CpuBlur | examples/gpu_wide_op_demo.rs:39-57 | every pixel of the output is the mean of its window |
| BoxBlur.KernelBody | examples/gpu_wide_op_demo.rs:25-34 | the body of the kernel's loop stores the clipped window's mean to its own pixel and to no other |
| BoxBlur.EveryPixelOnce | examples/gpu_wide_op_demo.rs:22-36 | for any thread count and interleaving, once all threads have left their loops every pixel was written once and nothing outside the image |
| BoxBlur.KernelIsCpuBlur | examples/gpu_wide_op_demo.rs:19-57 | and the block then holds exactly the image cpu_blur makes, whatever it held before |
| BoxBlur.FairScheduleFinishes | examples/gpu_wide_op_demo.rs:23-24 | absent wrap, any schedule that gives each thread pixels divided by threads turns, rounded up, sees all threads out of their loops |
| BoxBlur.FairKernelIsCpuBlur | examples/gpu_wide_op_demo.rs:19-57 | so every such schedule leaves the image cpu_blur makes |
| BoxBlur.NeverTwiceIff | examples/gpu_wide_op_demo.rs:22-24 | no schedule writes a pixel twice if and only if no thread's 32-bit index wraps |
| BoxBlur.FullGridNeverWraps | examples/gpu_wide_op_demo.rs:108 | the full grid has a thread for every pixel, fewer than one block too many, and never wraps |
| BoxBlur.OnePixelEach | examples/gpu_wide_op_demo.rs:23-24 | with a thread for every pixel each thread goes round at most once |
| OnlineMoments.SpreadMoved | benches/mimt_coupled.rs:175-183 | how the sum of squared distances changes with its centre |
| OnlineMoments.OneMoreValue | benches/mimt_coupled.rs:178-182 | one turn keeps mean = sum / n and m2 = squared distances from that mean |
| OnlineMoments.Welford | benches/mimt_coupled.rs:173-184 | the one-pass mean and variance are those of the two-pass definition |
| OnlineMoments.VarianceZeroIff | benches/mimt_coupled.rs:173-184 | the variance is never negative and zero exactly when all values are equal |
| OnlineMoments.WalkUp | benches/mimt_coupled.rs:481-490 | after k hops from v0 visits, q * (v0 + k - 1) = value * (v0 - 1) + the k contributions |
| OnlineMoments.Backprop | benches/mimt_coupled.rs:471-493 | the result is the mean over leaves of the pooled mean of the value's earlier visits and the 40 contributions |
| OnlineMoments.ValueCountsIff | benches/mimt_coupled.rs:481-488 | a leaf's result depends on the value if and only if its number is no multiple of 256 |
| OnlineMoments.PooledMeanBetween | benches/mimt_coupled.rs:481-490 | a leaf passes up nothing outside the range of its features and the value |
| LeafSizes.BucketIff | examples/class_migration_under_load.rs:72-74 | bucket 0 is for empty slices, bucket b + 1 exactly for counts with base-2 logarithm b |
| LeafSizes.BucketInRange | examples/class_migration_under_load.rs:99-110 | no 64-bit count falls outside the 65 buckets |
| LeafSizes.SquareOverflowsIff | examples/class_migration_under_load.rs:111-121 | the checked square overflows exactly from 2^40 ns on |
| LeafSizes.RunHolds | examples/class_migration_under_load.rs:106-123 | in every run each field is, modulo 2^64, what the leaves counted and the leaves under way have added to it |
| LeafSizes.ReadingCovers | examples/class_migration_under_load.rs:76-78 | a reading's time sum, squares and overflows each cover at least the leaves its count counts, whatever recorders do meanwhile |
| LeafSizes.SuccessiveReadings | examples/class_migration_under_load.rs:271-276 | absent wrap, no field goes backward between two readings, so `advanced` never fails |
| LeafSizes.IntervalsTelescope | examples/class_migration_under_load.rs:271-276 | however a run is cut into intervals their reports add up to last reading minus first |
| LeafSizes.QuietReadingIsExact | examples/class_migration_under_load.rs:135-147 | a reading with no recorder at work in the bucket is exact |
| LeafSizes.IntervalCovers | examples/class_migration_under_load.rs:153-167 | from an exact reading on an interval's sums cover the leaves it counts |
| LeafSizes.ExactIntervalIsExact | examples/class_migration_under_load.rs:153-167 | between two exact readings an interval's sums are exactly those of the leaves it counts |
| LeafSizes.ReportedIntervalIsExact | examples/class_migration_under_load.rs:701-742 | the program's readings, taken with every recorder idle, are exact, so each interval it reports has exactly the times, squares and overflows of the leaves it counts |
| LeafSizes.CoversIff | examples/class_migration_under_load.rs:106-147 | of the counters alone, read while recorders are at work: every later reading covers its interval if and only if the earlier reading is exact, unless what is under way wraps a field |
| LeafSizes.IntervalNeedNotCover | examples/class_migration_under_load.rs:106-147 | of the counters alone: two readings, the earlier inside a call, whose interval counts one leaf and none of its time |
| LeafSizes.Table.RecordLeafSize | examples/class_migration_under_load.rs:106-123 | one whole call changes its own bucket's five fields as stated and no other bucket |
| LeafSizes.UndisturbedRecorder | examples/class_migration_under_load.rs:106-123 | a recorder's four atomic operations with nobody's in between are that one call |
| LeafSizes.LeafSizesBetween | examples/class_migration_under_load.rs:149-184 | a row for exactly the buckets that counted leaves, in order, together all the new leaves; else the first field that went backward |
| LeafSizes.NeverBackward | examples/class_migration_under_load.rs:153-167 | so between successive readings no bucket's row fails |
| LeafRows.RowMeasures | examples/class_migration_under_load.rs:166-177 | the row of any leaves: their number, their mean time exactly, and a cv2 made from a variance at most theirs and short of it by at most 510 ns times the mean, theirs exactly when all times are multiples of 256; unknown exactly when a square overflowed |
| LeafRows.OneLeafIff | examples/class_migration_under_load.rs:168-171 | for one leaf the printed cv2 is never above zero, and zero if and only if its time is a multiple of 256 |
| LeafRows.ExactRowIsNonnegative | examples/class_migration_under_load.rs:168-171 | for times that are all multiples of 256 the printed cv2 is that of the leaves, and not negative |
| LeafRows.ReportedRowMoves | examples/class_migration_under_load.rs:701-742 | the rows the program prints are of exactly the leaves recorded between its two readings |
| LevelSweep.HighestForeign | examples/class_migration_under_load.rs:559-564 | the highest foreign load of the rows with CPU context, if there is one |
| LevelSweep.StepsReach | examples/class_migration_under_load.rs:573-575 | the last level holds the highest load and the one before it does not |
| LevelSweep.SweepLevels | examples/class_migration_under_load.rs:542-604 | the answers of every level up to one that holds all measured rows |
| LevelSweep.CleanHas | examples/class_migration_under_load.rs:576-579 | a level's rows of a phase are exactly those at or below it |
| LevelSweep.AttributionIsOneStretch | examples/class_migration_under_load.rs:598-600 | the levels at which the leaving is the load's own are one stretch |
| LevelSweep.AnswersHaveNoGap | examples/class_migration_under_load.rs:598-603 | the levels with an answer are all from the first of them to the top, so a printed range leaves none out |
| LevelSweep.AlwaysTheLoadIff | examples/class_migration_under_load.rs:580-610 | attributed at every level if and only if the first answered level shows a leaving under the load and the top level none before it |
| LevelSweep.Conclude | examples/class_migration_under_load.rs:513-539 | one answer for all levels exactly when they all say it, with their range and number; else which say which |
| StallReports.StallWatch.constructor | benches/simc_cooperative.rs:238-252 | every stamp starts as no dispatch's |
| StallReports.StallWatch.Begin | benches/simc_cooperative.rs:260-270 | one call with none at work: raising the generation clears every flag of the watch |
| StallReports.StallWatch.RecordStart | benches/simc_cooperative.rs:272-298 | one call at a time: sets the index's started flag, within the array only, and adds the thread to those that ran |
| StallReports.StallWatch.Announce | benches/simc_cooperative.rs:281-297 | the thread-local announcement leaves the thread among those that ran in this dispatch |
| StallReports.StallWatch.RecordFinish | benches/simc_cooperative.rs:300-305 | one call at a time: sets the index's finished flag and no other |
| StallReports.StallWatch.MakeReport | benches/simc_cooperative.rs:313-409 | with nobody at work meanwhile, the report is what the flags of a cleared watch say; finished indices have started |
| StallReports.ListIncreases | benches/simc_cooperative.rs:373-381 | the listed indices increase and are within the fan-out |
| StallReports.ReportPartitions | benches/simc_cooperative.rs:373-381 | of one reading of the flags: never started, started and unfinished, and finished partition the fan-out |
| StallRace.RunInv | benches/simc_cooperative.rs:260-305 | in every interleaving of dispatcher and workers: finish stamps never pass start stamps nor these the generation, a start ahead of its finish is of the dispatch in flight and has a worker in its closure, an index is with one worker at most and stamped once a dispatch |
| StallRace.StampsRefineFlags | benches/simc_cooperative.rs:196-205 | every step of every run, store by store, is the step of a watch whose flags are cleared at the store of the generation and set by the stamps |
| StallRace.InBothIff | benches/simc_cooperative.rs:373-381 | the report of any run, load by load: an index is in both lists if and only if its closure's start is stamped between the two loads of it and it is found unfinished at its last |
| StallRace.InNeitherHasFinished | benches/simc_cooperative.rs:373-381 | an index in neither list has finished, in the dispatch reported or a later one |
| StallRace.PartitionIff | benches/simc_cooperative.rs:373-381 | never started, started and unfinished, and the rest are as many as the fan-out if and only if no index is in both lists |
| StallRace.RestHasFinished | benches/simc_cooperative.rs:373-381 | the rest of the partition has finished |
| StallRace.StalledReportIsExact | benches/simc_cooperative.rs:313-409 | while nothing is stamped and nothing opened the lists are those of the flags, and none is in both |
| StallRace.AnIndexInBothLists | benches/simc_cooperative.rs:373-381 | a run of one closure whose index is printed in both lists |
| StallRace.RunnerIsListed | benches/simc_cooperative.rs:272-298 | an index stamped and not finished has exactly one worker in its closure, whose name is down for the dispatch unless the worker has yet to put it there |
| StallRace.ClosureFindsItsOwn | benches/simc_cooperative.rs:255-259 | a closure at work finds the arm and the width of its own dispatch, and knows its generation |
| StallRace.ReaderFindsItsOwn | benches/simc_cooperative.rs:255-259 | whoever reads a generation and then width and arm finds its own or a later dispatch's, and its own if no later one has begun |
| StallRace.Grows | benches/simc_cooperative.rs:209-212 | the generation and every stamp only grow |
| StallReports.Watchdog | benches/simc_cooperative.rs:446-466 | fires at the first poll that completes a stall of unchanged generations, and never otherwise |
| StallReports.StillIff | benches/simc_cooperative.rs:209-211 | as generations only grow, that is the same value read twice a stall apart |
| Summaries.Summarize | benches/simc_cooperative.rs:412-438 | the text of any list decodes to exactly that list and shows it in maximal runs |
| Summaries.DecodesTexts | benches/simc_cooperative.rs:412-438 | printed runs are not taken for "none" and read back as the runs they are |
| Text.DecimalRoundTrip | benches/simc_cooperative.rs:423-427 | a printed number reads back as itself |
| Tandem.ReapInto | examples/gpu_peer_tandem_demo.rs:55-70 | the oldest pending block gets its result, its slot is given back, and nothing else changes |
| Tandem.SubmitBlock | examples/gpu_peer_tandem_demo.rs:72-77 | a block is submitted as it was when the round began, before it is overwritten |
| Tandem.SubmitAll | examples/gpu_peer_tandem_demo.rs:71-81 | the queue holds consecutive blocks in order, each in flight as the round found it, and the device never needs more slots than the window, at least one |
| Tandem.Drain | examples/gpu_peer_tandem_demo.rs:93-95 | what is pending is reaped in order to the end |
| Tandem.Round | examples/gpu_peer_tandem_demo.rs:44-97 | every element is one more; the device's blocks are each submitted and reaped exactly once, in order |
| Tandem.CpuBlocks | examples/gpu_peer_tandem_demo.rs:44-45 | neither side is left without a block |
| Tandem.IdealIsAShare | examples/gpu_peer_tandem_demo.rs:109-112 | the ideal is at most 1000 per mille and at least half exactly if the pool is no slower |
| Tandem.ShareHalvesDistance | examples/gpu_peer_tandem_demo.rs:113-114 | whatever ideal is measured, the share halves its distance to that ideal brought within 50 and 950, and rests exactly there or, the ideal being no more than 950, one below it |
| Tandem.ShareSettles | examples/gpu_peer_tandem_demo.rs:113-114 | ten or more rounds that measure the same leave any share within one per mille of that target |
| Tandem.Rounds | examples/gpu_peer_tandem_demo.rs:39-115 | after r rounds through any shares every element is r, and the share is within 50 and 950 |
| Sorting.SortedSorts | examples/pair_orders.py:158 | a sorted list is in order and has the same members as often |
| PairOrders.MedianIsMiddle | examples/pair_orders.py:159-161 | for odd and even sizes the median lies half way between the ends of the middle |
| PairOrders.MedianScales | examples/pair_orders.py:157-161 | the median of scaled ratios is the scaled median |
| PairOrders.GroupDrift | examples/pair_orders.py:145-162 | exactly the groups with a paired arm get a drift, the median of their ratios |
| PairOrders.Readings | examples/pair_orders.py:181-195 | each arm's verdict by its group's drift, and exactly the unpaired arms listed |
| PairOrders.AgreesIff | examples/pair_orders.py:191-195 | an arm agrees exactly when its reversed median is as near to its drifted forward median as the wider of its two intervals allows |
| PairOrders.VerdictsIgnoreDrift | examples/pair_orders.py:186-195 | no verdict in any group changes when one group's reversed timings, or forward ones, are all scaled by a positive factor |
| PairOrders.LoneArmAgreesIff | examples/pair_orders.py:191-195 | the only paired arm of a group agrees if and only if at least one of its two intervals is the right way round |
| PairOrders.TwoArmsCanDisagree | examples/pair_orders.py:191-195 | two paired arms of a group neither of which agrees |
| Sorting.SortedIsStable | examples/analyze_trace.py:136 | events at the same time keep the order they were read in |
| TraceStats.OpenIff | examples/analyze_trace.py:146-151 | an end closes the start before it with no start or end in between, and no other |
| TraceStats.Timeline | examples/analyze_trace.py:137-158 | the loop's busy time and count are those of the leaves so matched |
| TraceStats.BusyFits | examples/analyze_trace.py:142-151 | for any ordered events busy time fits between the first event and the last, or an open leaf's start |
| TraceStats.PerWorkerStats | examples/analyze_trace.py:126-159 | the workers with an event in the window, each with the timeline of its own sorted events |
| TraceStats.BusyWithinSpan | examples/analyze_trace.py:126-159 | for any rows a worker's busy time is between 0 and last minus first, both inside the window |
| TraceStats.IdleNonnegativeIff | examples/analyze_trace.py:178-182 | idle is nonnegative if and only if the first timestamp is not 0 or nothing was busy |
| TraceStats.IdleCanBeNegative | examples/analyze_trace.py:178-182 | two rows for which it is negative |
| TraceStats.ReportedIdleNonnegative | examples/analyze_trace.py:112-123 | in a window main accepts it never is |
| TraceStats.EfficiencyAtMostOne | examples/analyze_trace.py:187-193 | for a nonempty window the efficiency is between 0 and 1 |

## Left out

- Weak memory orderings: every atomic operation is one sequentially consistent step.
- ChaseLev.TakenOnce: in one order of all loads and stores; that the fences and orderings of the source give such an order is not proved. The counters do not wrap at 64 bits. The slots are indexed by the remainder of any positive capacity, where the source rounds up to a power of two. A thief that has lost may copy a slot while it is written; the model lets it copy either value. `is_empty`, `len`, the prefetch and the fat-slot deques are left out.
- Floating point: `f32`, `f64` and Python floats are reals; rounding, NaN and infinities are not modelled, except that a cv2 with a zero mean is told apart as no finite number.
- PivotedElimination.Eliminate: the benches call both routines for step 0 only; the driver over all steps is this model's. Where no row offers a pivot the source would go on to divide by zero; the driver stops there.
- PivotedElimination.PickAndScalePivot: requires a nonzero pivot where a division follows, because a zero divisor gives NaN in the source.
- Crew, both transports, the barrier, the race and the lane update are step relations over values, not classes: locks, condition variables, thread spawning and panics (poisoned locks, a panicking worker) are not modelled.
- OwnedTransport.OwnedAccounts: counts only what callers and owner count; the extra count for a panicked owner is left out. The hub is an unbounded FIFO queue.
- BridgePipe.Ends.RoundTrip: a partial last line from a dying child is not modelled; a line arrives whole or not at all.
- GenerationBarrier.FinalCells: assumes team times generations fits 32 bits, as it does for every arm of the sweep; so does GenerationBarrier.WholeSafeIff. The device op's early error returns and the result words after the loop are left out.
- GenerationBarrier.LowerGenerations: computes in unbounded numbers where the source uses 32 and 64 bits.
- ProbeTable masks with a power of two; the model takes the remainder by any positive size. Keys and payloads are unbounded numbers. The leak of a node that is never published is not modelled. An insert that panics ends the original's process; here it ends that caller and the others go on, which adds runs and takes none away.
- VariantRace: the inner `atan` series and the mean iteration are opaque estimates; the tolerances and polls are kept. `race_variants` itself is not part of this model.
- BoxBlur.KernelIsCpuBlur: one turn of a thread's loop is one step, which stores what `KernelBody` stores; source and destination blocks do not alias, as the demo pins two. Images are at most 2^30 pixels where wrap matters, since a block has a 32-bit byte size.
- OnlineMoments.Backprop: leaves are nonempty and there is at least one, since the source divides by both counts.
- LeafSizes.ReadingCovers: stated absent 64-bit wrap of the bucket's fields (`NoWrap`); `RunHolds` says what the fields hold when they do wrap. Formatting of rows and tables, the counts of reasons and the CPU samples behind `row_context` are left out.
- LeafSizes.ReportedIntervalIsExact: that no recorder is in a call between dispatches is taken from `for_each_chunk_min_leaf`, which returns after its leaves.
- StallReports.StallWatch.RecordFinish: asks that the closure recorded its start in the same dispatch. The class takes one call at a time; `StallRace` takes the calls apart.
- StallRace.InBothIff: a dispatch is joined before the next begins, as every fan-out is; dispatches of several dispatchers at once are not modelled. The two thread lists are made under one lock and stay with `StallReports.StallWatch.MakeReport`; the mailbox census and the rayon arm, which records nothing, are left out.
- Tandem.Peer stands for `GpuPeer`, which is not part of this model: a bounded set of slots that completes in the order of submission and adds one. Timeouts and bad statuses are left out.
- Tandem.AddToChunks: the pool's chunks are run one after another; that each chunk's closure runs once is taken from `for_each_chunk`.
- PairOrders and TraceStats start from parsed rows: log patterns, unit conversion, CSV parsing, occupancy figures and table formatting are left out, as are the cold-start and tail latencies.
- The steal and dispatcher demos, the parallel-for demos, criterion plumbing, clocks, process and file access and the CUDA driver calls: thin drivers over code that is not here.
