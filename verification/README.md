# A verified model of the exploration orchestrator

The exploration orchestrator grows a search tree of machine states: it restores a
parent snapshot on a worker, plays a pad burst, scores what came out and commits
the children to a tree, a frontier and two mirrors, all of which must survive
crashes and resume exactly. This project models the parts of that system whose
correctness is not obvious from one function, and proves what they promise over
every input, every run or every interleaving.

`dafny verify dfyconfig.toml` checks everything. Each component has a value-level
specification with its run lemmas, and, where the source updates fields in
place, a class whose methods are proved against that specification.

| modules (one file each) | component |
|---|---|
| `Base` | results, machine integers, ascending listings |
| `SearchTree`, `FrontierIndex`, `Mirrors` | the search tree, the swap-remove frontier, the cell and seen mirrors |
| `CommitRules`, `CommitEngine`, `CommitRuns` | batch commit: rules, the state that runs them, the structural invariant |
| `Resume`, `TwinStates`, `Rebuild`, `ResumeEngine` | resume: rebuilding from parts, and from the store's rows and a checkpoint |
| `Accounting` | mirror accounting and the expansion bound |
| `SlotTable`, `SlotProtocol`, `SlotQueue` | slot permits: the interleaved protocol and the in-place queue |
| `Playback`, `WorkerTable`, `WorkerForest`, `WorkerRuns`, `WorkerView`, `WorkerCounts`, `WorkerJobs`, `Hypervisor`, `JobDriver` | leased machines, burst playback, the lease forest, the watch log, jobs |
| `PipelineProtocol`, `PipelineClash`, `PipelineOrder`, `PipelineConsumer` | the bounded batch pipeline and its in-order hand-back |
| `JournalFormat`, `JournalProofs`, `JournalRuns`, `JournalFile` | the framed journal: format, recovery, crash durability |
| `PlateauRules`, `PlateauState`, `EventRing`, `EventEmitterState` | stall ladder arithmetic; the event ring |
| `Intervals`, `FeatureMaps`, `FeatureProofs`, `FeatureCompiler`, `Coarsening` | compiling feature maps to extract layouts, and coarsening them |
| `ArchiveRules`, `ArchiveRepair`, `ScorerArchive` | the scorer's archive and its repair |
| `StoreRules`, `StoreProofs`, `StoreWalks`, `SnapshotStore` | the snapshot store's node tree |

Modelling choices. Rust panics (`expect`, `panic!`) are an explicit outcome that
ends a run. Machine integers are subset types with their overflow branches
written out. Scores are reals. Hashes, codecs, guests, sinks and scoring
functions are arbitrary function values, so every result holds for any of them.
Tasks under a lock are atomic steps.

Where the code and a promise part ways, the code is kept and the boundary proved:

* Resume rebuilds the tree from the store's rows and the checkpoint. What comes
  back is proved exactly (`ResumeBringsBack`): visits of nodes off the frontier and
  goal nodes' frontier entries are lost, and a duplicate streak is cut to 16 bits.
  It agrees with the running state on all that selected expansions look at if and
  only if every streak of a status-Frontier node fits (`SurvivingIsTwin`), and then
  no run of them tells the two apart (`RunTwins`). Eviction limits of
  at most 2^16 stay inside that bound (`ResumedExperimentContinues`), and with a
  limit one higher a reachable experiment resumes differently
  (`SaturatedResumeDiverges`). The equivalence ends where a lost visit count shows:
  when one overflows (`OverflowTellsApart`), and for a goal parent, which the
  selector never offers (`GoalParentDiverges`).
* The journal's writer accepts any payload up to 4 GiB, its reader refuses frames
  over 64 MiB. A journal loads what it wrote if and only if every payload is within
  the reader's limit (`OwnLogLoadsIff`).
* A burst that ends in zero-length segments leaves them pending. It plays whole if
  and only if its last segment is held, or the frame counter ends at its maximum
  (`BurstPlaysWhole`).
* A repeated batch number makes the hold-back buffer overwrite a batch. A run
  conserves its batches if and only if no poll of it did so (`ConservedIffNoClash`);
  fast mode always does (`RunConserves`), and two batches with one number lose the
  first (`RepeatedNumberLoses`). A gap in the numbers parks everything beyond it
  (`GapParks`), and only a gap can (`OnlyGapsPark`).
* Slot ids saturate: past the last id two leases share a slot
  (`SaturatedIdsCollide`), which a long enough run reaches (`CollisionIsReached`), so
  the forest results are stated below it.
* The watch log does not publish a parent's child count when it loses one child of
  several. The reported count is the true one plus the children destroyed since the
  slot last forked (`ReportedCount`), so it is right if and only if there were none;
  `StaleCount` is a run where it is wrong.
* Repairing an archive brings its sequence number back if and only if no batch was
  inserted since the checkpoint or the number had stopped counting
  (`RepairedSeqIff`). Sending the lost batches again does bring it back, together
  with their cached ids, and archives nothing twice (`RedoCatchesUp`).

## Model

| member | source | states |
|---|---|---|
| SearchTree.InsertKeepsLinks | crates/orch-core/src/tree.rs:200-225 | inserting a child keeps parent links, depths and children lists in agreement |
| SearchTree.PathRuns | crates/orch-core/src/tree.rs:258-277 | the path runs from the root to the node, one link at a time, with depth plus one entries |
| SearchTree.Tree.InsertChild | crates/orch-core/src/tree.rs:200-225 | dense ids; both links and the counters are updated, or the error leaves the tree alone |
| SearchTree.Tree.IncrementVisits | crates/orch-core/src/tree.rs:279-286 | one more visit, or an overflow error that changes nothing |
| SearchTree.Tree.MarkExpanded | crates/orch-core/src/tree.rs:288-294 | expanding spares goals and pruned nodes |
| SearchTree.Tree.MarkExhausted | crates/orch-core/src/tree.rs:296-306 | exhausting spares goals and keeps pruned nodes pruned |
| SearchTree.Tree.MarkGoal | crates/orch-core/src/tree.rs:308-317 | a goal is not exhausted; a pruned node cannot become one |
| SearchTree.Tree.MarkPruned | crates/orch-core/src/tree.rs:319-328 | pruning exhausts; a goal cannot be pruned |
| SearchTree.Tree.PathFromRoot | crates/orch-core/src/tree.rs:258-277 | the upward walk ends and yields the path, or the node is unknown |
| FrontierIndex.Frontier.Insert | crates/orch-core/src/frontier.rs:71-80 | the member set gains the id, or a duplicate is reported; entries and index stay in agreement |
| FrontierIndex.Frontier.Remove | crates/orch-core/src/frontier.rs:82-92 | swap-remove takes out exactly the id and repairs the moved index |
| FrontierIndex.Frontier.DeterministicEntries | crates/orch-core/src/frontier.rs:110-114 | the ascending listing of the members, whatever order the entries are in |
| FrontierIndex.Frontier.DeterministicCandidates | crates/orch-core/src/frontier.rs:116-128 | the ascending listing of selectable members, or an id the tree does not know |
| Mirrors.MirrorRoundTrip | crates/orch-core/src/mirror.rs:79-148 | exporting both mirrors sorted and reading them back gives the same mirrors |
| Mirrors.CellMirror.BumpBy | crates/orch-core/src/mirror.rs:47-57 | the cell's count rises by the amount, or the overflow panics with nothing changed |
| Mirrors.SeenMap.Insert | crates/orch-core/src/mirror.rs:110-117 | the first route of a hash wins and is reported ever after |
| CommitEngine.CommitState.FromRoot | crates/orch-core/src/commit.rs:119-131 | the initial state: a listed root, one cell count, one route, one zero streak |
| CommitEngine.CommitState.FromParts | crates/orch-core/src/commit.rs:137-158 | rebuilds the state from a tree, a frontier, mirrors and streak rows |
| CommitEngine.CommitState.CommitChild | crates/orch-core/src/commit.rs:254-326 | the four child rules in their order, in place |
| CommitEngine.CommitState.UpdateParentExhaustion | crates/orch-core/src/commit.rs:328-361 | when the parent leaves the frontier, why, and how its streak moves |
| CommitEngine.CommitState.CommitBatch | crates/orch-core/src/commit.rs:210-252 | validation, children in order, parent visit and exhaustion, with the partial state an error leaves |
| CommitRuns.ApplySound | crates/orch-core/src/commit.rs:210-361 | one call, even one that fails, keeps the structural invariant and never reports a frontier error |
| CommitRuns.RunSound | crates/orch-core/src/commit.rs:119-361 | over every run the frontier is exactly the non-exhausted nodes, which are exactly those with status Frontier or Goal; streaks cover the tree; every hash is routed to its lowest node; no frontier error |
| Resume.ApplyAlike | crates/orch-core/src/commit.rs:210-361 | states that agree on tree, mirrors, frontier set and frontier streaks answer a batch alike and stay in agreement |
| Resume.RunAlike | crates/orch-core/src/commit.rs:137-361 | the same for whole runs, with equal candidate lists |
| Resume.CheckpointAlike | crates/orch-server/src/experiment.rs:2478-2487 | a checkpoint passes validation, and the state assembled from its vectors and the same tree and frontier set agrees with the running one exactly when every frontier streak fits 16 bits |
| Resume.SelectorRunStreaks | crates/orch-core/src/commit.rs:328-361 | runs that expand only candidates keep frontier streaks below the eviction limit |
| Resume.ResumedRunContinues | crates/orch-core/src/commit.rs:137-158 | cutting such a run anywhere and assembling the state from the same tree and frontier set, with a limit of at most 2^16, changes no later reply or candidate list |
| Resume.SaturatedStreakDiverges | crates/orch-checkpoint/src/lib.rs:46-54 | with a limit one higher a reachable state assembled this way answers differently |
| TwinStates.ApplyTwins | crates/orch-core/src/commit.rs:210-361 | states that agree on links, mirrors and the nodes with status Frontier answer a batch on a selectable parent alike, barring a visit overflow, and stay in agreement |
| TwinStates.RunTwins | crates/orch-core/src/commit.rs:210-361 | the same over every run of selected expansions, with equal candidate lists |
| TwinStates.OverflowTellsApart | crates/orch-core/src/tree.rs:279-286 | a visit count that is full on one side only makes a duplicate fail there and succeed on the other |
| Rebuild.GrownAgain | crates/orch-server/src/experiment.rs:798-823 | inserting a tree's rows in id order never fails and gives back every link, depth and payload |
| Rebuild.ResumeBringsBack | crates/orch-server/src/experiment.rs:792-888 | resume at a checkpoint of any sound state succeeds and comes back with exactly the specified state |
| Rebuild.SurvivingIsTwin | crates/orch-server/src/experiment.rs:851-874 | that state is a twin of the running one exactly when every streak of a status-Frontier node fits 16 bits |
| Rebuild.ResumedExperimentContinues | crates/orch-server/src/experiment.rs:792-888 | an experiment of selected expansions with a limit of at most 2^16 can be cut anywhere: after resume the same replies and candidate lists, until a visit count overflows |
| Rebuild.SaturatedResumeDiverges | crates/orch-server/src/experiment.rs:2484-2487 | with a limit one higher a reachable experiment answers differently after resume |
| Rebuild.GoalParentDiverges | crates/orch-server/src/experiment.rs:852-867 | a goal node's visits do not survive, so expanding one would answer differently |
| ResumeEngine.GrowTree | crates/orch-server/src/experiment.rs:798-823 | the loop grows the tree of the rows, or reports data loss exactly when they are not the rows of a tree |
| ResumeEngine.Settle | crates/orch-server/src/experiment.rs:836-887 | row by row the mirrors catch up and the status and weight are put back, in place |
| ResumeEngine.Recover | crates/orch-server/src/experiment.rs:792-888 | the assembled commit state is the specified one, or the same failure |
| Accounting.CellCountsAddUp | crates/orch-core/src/commit.rs:254-323 | over every successful run a cell's count is the tree nodes in it plus the duplicates discarded into it |
| Accounting.ExpansionBound | crates/orch-core/src/commit.rs:328-361 | expansions of candidates never exceed the visit limit times the number of nodes |
| SlotProtocol.StepKeepsInv | crates/orch-sched/src/slots.rs:67-130 | every lock section keeps: reservations are permits, no lost wake-up, first come first served, live waiters awaited |
| SlotProtocol.GrantsRespectCapacity | crates/orch-sched/src/slots.rs:246-274 | a permit is granted only when it stays within the current capacity |
| SlotProtocol.NoLostWakeup | crates/orch-sched/src/slots.rs:104-130 | the invariant holds after every interleaving, cancellations included |
| SlotProtocol.AdvanceShrinks | crates/orch-sched/src/slots.rs:104-130 | every wake-loop step shortens the queue or the work left |
| SlotProtocol.SettledServesWaiters | crates/orch-sched/src/slots.rs:104-130 | under any scheduler the loops settle, and then a free slot means nobody waits |
| SlotQueue.WokenServesInOrder | crates/orch-sched/src/slots.rs:104-130 | a wake serves exactly the first live waiters, as many as there is room for |
| SlotQueue.SlotView.Utilization | crates/orch-sched/src/slots.rs:90-101 | the integrals equal the busy and available slot-time, busy never above available |
| SlotQueue.SlotView.WakeFreeWaiters | crates/orch-sched/src/slots.rs:104-130 | the recursive in-place loop ends and does what a wake should |
| SlotQueue.SlotView.ReleasePermit | crates/orch-sched/src/slots.rs:356-365 | dropping a permit frees it and wakes |
| SlotQueue.SlotView.Acquire | crates/orch-sched/src/slots.rs:246-274 | reserve at once if a slot is free, else join the queue's end |
| SlotQueue.SlotView.Drain | crates/orch-sched/src/slots.rs:208-232 | fold the slot events, take the new capacity, wake |
| Playback.SortPendingSorts | crates/orch-fakes/src/hypervisor.rs:434-435 | the pending queue sorted by frame and arrival is an ordered permutation |
| Playback.FramesWithin | crates/orch-fakes/src/hypervisor.rs:760-775 | the cap leaves the largest number of whole frames, and is hit exactly when the budget does not fit |
| Playback.DrainDueActions | crates/orch-fakes/src/hypervisor.rs:842-858 | splits the queue at a frame, what is due in order |
| Playback.InjectInputs | crates/orch-fakes/src/hypervisor.rs:403-438 | all events validated first; then logged, queued and sorted, or cut short by the order counter |
| Playback.AdvanceFrames | crates/orch-fakes/src/hypervisor.rs:754-798 | performs what is due, moves the clocks, and keeps what was done before a late overflow |
| Playback.BurstEvents | crates/orch-sched/src/driver.rs:148-178 | segments start one after the other from the frame past the parent's; refused exactly when nothing is held |
| Playback.PlayedBurst | crates/orch-sched/src/driver.rs:529-560 | inject then run performs the reached segments once each in order, leaves the rest pending and moves every clock by the total hold |
| Playback.BurstPlaysWhole | crates/orch-fakes/src/grid.rs:279-284 | it equals `apply_actions` with nothing pending exactly when the last segment is held (or frames run out) |
| WorkerForest.ForkKeeps | crates/orch-fakes/src/hypervisor.rs:377-401 | a fork keeps the lease forest and reports what it changed |
| WorkerForest.DestroyKeeps | crates/orch-fakes/src/hypervisor.rs:542-575 | destroying a leaf, with or without thawing its parent, keeps both too |
| WorkerForest.ReclaimEmpties | crates/orch-fakes/src/hypervisor.rs:183-216 | the leaf passes end with every slot reported empty |
| WorkerRuns.StepKeeps | crates/orch-fakes/src/hypervisor.rs:338-599 | every call keeps: parents live and older, frozen exactly with a live child and paused otherwise, log tells table |
| WorkerRuns.RunKeeps | crates/orch-fakes/src/hypervisor.rs:155-308 | the same over every run below id saturation |
| WorkerRuns.ReclaimStep | crates/orch-fakes/src/hypervisor.rs:183-216 | reclaiming a session leaves an empty table and a log that says so |
| WorkerRuns.SaturatedIdsCollide | crates/orch-fakes/src/hypervisor.rs:231-236 | at the last id two creates return the same lease |
| WorkerRuns.CollisionIsReached | crates/orch-fakes/src/hypervisor.rs:231-236 | creating and destroying often enough gets there |
| WorkerRuns.AllocationsRespectCapacity | crates/orch-fakes/src/hypervisor.rs:218-229 | a call that makes the table grow leaves it within the pool size |
| WorkerView.ViewFoldsTold | crates/orch-fakes/src/hypervisor.rs:589-599 | however batches are cut, truncated or compacted, the scheduler has folded exactly what it was told |
| WorkerView.DrainedViewIsTable | crates/orch-sched/src/slots.rs:171-232 | a scheduler seeded with the listing of a worker in any reachable state, once all is read, has every live slot with its state, every removed slot empty, and as many live slots as the worker |
| WorkerCounts.ReportedCount | crates/orch-fakes/src/hypervisor.rs:278-308 | after every run the log's child count of a live slot is its children plus those destroyed since it last forked |
| WorkerCounts.StaleCount | crates/orch-fakes/src/hypervisor.rs:542-575 | a create, a fork of two and a destroy leave the count one too high |
| WorkerJobs.StepOnSlot | crates/orch-fakes/src/hypervisor.rs:403-575 | a call changes a held slot only by the operation addressed to it, and any other slot's call changes it in nothing |
| WorkerJobs.RunOnSlot | crates/orch-sched/src/driver.rs:529-598 | over any run a leased machine evolves by the calls addressed to it alone |
| WorkerJobs.CaptureIsReplay | crates/orch-fakes/src/hypervisor.rs:488-540 | the sealed record is the replay of those calls on the machine the lease began with |
| WorkerJobs.SameCapture | crates/orch-sched/src/driver.rs:529-598 | slots that start alike and take the same operations seal the same snapshot, whatever else their workers do |
| WorkerJobs.ForkedLikeRestored | crates/orch-sched/src/driver.rs:372-511 | a child forked from a restored parent starts like a slot restored from that snapshot, on this worker or another |
| WorkerJobs.JobSealsTheSame | crates/orch-sched/src/driver.rs:372-598 | so a job seals the same snapshot on a restored slot as on a forked one, whatever else the two workers do |
| WorkerJobs.BurstJobPlays | crates/orch-sched/src/driver.rs:529-560 | a burst job without a cap leaves the machine the playback theorem describes |
| Hypervisor.FakeHypervisor.CreateVm | crates/orch-fakes/src/hypervisor.rs:338-350 | capacity, then a booted root slot and its event |
| Hypervisor.FakeHypervisor.RestoreSnapshot | crates/orch-fakes/src/hypervisor.rs:352-375 | capacity, then a root slot carrying the record's machine |
| Hypervisor.FakeHypervisor.Fork | crates/orch-fakes/src/hypervisor.rs:377-401 | the checks in order, then children, frozen parent and events parent first |
| Hypervisor.FakeHypervisor.InjectInputs | crates/orch-fakes/src/hypervisor.rs:403-438 | only a paused slot under its token takes inputs |
| Hypervisor.FakeHypervisor.Run | crates/orch-fakes/src/hypervisor.rs:440-486 | running is published, then paused again whatever the run did |
| Hypervisor.FakeHypervisor.TakeSnapshot | crates/orch-fakes/src/hypervisor.rs:488-540 | records the machine under its digest |
| Hypervisor.FakeHypervisor.DestroyVm | crates/orch-fakes/src/hypervisor.rs:542-575 | only a slot without live children goes; its parent may thaw |
| Hypervisor.FakeHypervisor.ReclaimSession | crates/orch-fakes/src/hypervisor.rs:183-216 | on a forest the passes end with nothing leased and the specified reports |
| Hypervisor.FakeHypervisor.WatchSlots | crates/orch-fakes/src/hypervisor.rs:589-599 | hands over unread events up to the truncation and moves the cursor past them |
| Hypervisor.FakeHypervisor.CompactConsumedWatchEvents | crates/orch-fakes/src/hypervisor.rs:155-162 | drops exactly the read events |
| JobDriver.DriveLeasedJob | crates/orch-sched/src/driver.rs:514-598 | the slot is given back in every outcome, and success has sealed the burst's replay |
| PipelineProtocol.PollMoves | crates/orch-sched/src/pipeline.rs:191-216 | a poll conserves batches exactly when it does not overwrite a held one |
| PipelineProtocol.RunConserves | crates/orch-sched/src/pipeline.rs:88-148 | in every interleaving (in deterministic mode: of batches with distinct numbers) each batch is in exactly one place, with at most the permitted number in flight and both channels within bounds |
| PipelineClash.ConservedIffNoClash | crates/orch-sched/src/pipeline.rs:88-216 | a run conserves its batches exactly when no poll of it overwrote a held one |
| PipelineClash.RepeatedNumberLoses | crates/orch-sched/src/pipeline.rs:191-216 | two batches with one number, neither due, run through the pipeline lose one |
| PipelineOrder.RunOrders | crates/orch-sched/src/pipeline.rs:191-216 | the deterministic hand-back is first_seq, first_seq + 1, ... for any completion order |
| PipelineOrder.OnlyGapsPark | crates/orch-sched/src/pipeline.rs:188-216 | when nothing can move, the awaited number was never submitted |
| PipelineOrder.GapParks | crates/orch-sched/src/pipeline.rs:188-216 | nothing beyond a number never submitted is handed back, and in the end all of it is held |
| PipelineOrder.DeterministicHandback | crates/orch-sched/src/pipeline.rs:88-216 | with gap-free numbers and no failure every ended run has handed back every batch in order and holds none |
| PipelineOrder.FastHandback | crates/orch-sched/src/pipeline.rs:191-204 | in fast mode every ended run has handed back every batch once |
| PipelineOrder.StepsAreBounded | crates/orch-sched/src/pipeline.rs:108-140 | without new submissions a run has at most as many steps as there is work |
| PipelineConsumer.Consumer.NextCompleted | crates/orch-sched/src/pipeline.rs:191-216 | returns the awaited batch as soon as it has arrived, a failure at once, or the end, and buffers the rest |
| JournalProofs.LoadPrefix | crates/orch-simstate/src/journal.rs:207-292 | any cut of a log loads exactly the records whose whole frame survived |
| JournalProofs.LoadIsIdempotent | crates/orch-simstate/src/journal.rs:207-292 | a second load of any file truncates nothing |
| JournalProofs.OwnLogLoadsIff | crates/orch-simstate/src/journal.rs:154-169 | a journal can load what it wrote exactly when every payload is within the reader's limit |
| JournalRuns.ReloadRecovers | crates/orch-simstate/src/journal.rs:207-292 | a reload returns the surviving records, keeps every acknowledged op and the run invariant |
| JournalRuns.CrashDurability | crates/orch-simstate/src/journal.rs:101-169 | over every run of appends, crashes at or past the last sync and reloads: no corruption panic, every acknowledged op loaded, ids never repeat |
| JournalFile.Journal.WriteFrame | crates/orch-simstate/src/journal.rs:154-169 | one frame appended; synced when asked |
| JournalFile.Journal.AppendOp | crates/orch-simstate/src/journal.rs:139-148 | the next op id, on disk before it returns |
| JournalFile.Journal.Load | crates/orch-simstate/src/journal.rs:207-292 | the scan loop yields the specified records and cut, or panics on damage |
| PlateauRules.LadderTracksStalls | crates/orch-core/src/plateau.rs:209-254 | over every run the level is the completed windows capped, and no score exceeds best plus epsilon |
| PlateauRules.VersionBound | crates/orch-core/src/plateau.rs:366-397 | each map version costs at least four windows and one observation |
| PlateauRules.ResumeChangesNothing | crates/orch-core/src/plateau.rs:192-206 | saving and restoring detector and ladder anywhere changes nothing |
| PlateauState.StallDetector.Observe | crates/orch-core/src/plateau.rs:209-254 | the counters and the report of one observation |
| PlateauState.EscalationLadder.ApplyStallObservation | crates/orch-core/src/plateau.rs:366-373 | improvement resets, a new window raises the level |
| EventRing.RunMakes | crates/orch-server/src/events.rs:104-138 | every emitted event gets the next number and one fate |
| EventRing.RingConserves | crates/orch-server/src/events.rs:104-138 | for every sink, delivered plus pending plus dropped is emitted, delivered numbers ascend, the ring is the contiguous newest run within capacity |
| EventEmitterState.EventEmitter.Flush | crates/orch-server/src/events.rs:129-138 | delivers from the oldest until the sink refuses |
| EventEmitterState.EventEmitter.Emit | crates/orch-server/src/events.rs:104-127 | flush, drop the oldest if full, push, flush |
| Intervals.MergeSorted | crates/orch-core/src/compile.rs:426-455 | merging sorted stretches gives their union |
| Intervals.UnionIsCanonical | crates/orch-core/src/compile.rs:426-455 | the union is sorted, disjoint, non-touching and covers the same bytes |
| Intervals.UnionDependsOnBytes | crates/orch-core/src/compile.rs:426-455 | it is determined by those bytes |
| FeatureProofs.CompilationPreservesMeaning | crates/orch-core/src/compile.rs:415-483 | for every memory image, a field's packed bytes are the bytes at its source |
| FeatureProofs.FeatureIsCovered | crates/orch-core/src/compile.rs:699-744 | some range holds each feature of a valid map, so `FeatureNotCovered` is unreachable |
| FeatureProofs.RangesAreSeparated | crates/orch-core/src/compile.rs:426-466 | ranges of one region are sorted and never touch |
| FeatureProofs.TotalCountsDistinctBytes | crates/orch-core/src/compile.rs:407-413 | the total length counts distinct feature bytes |
| FeatureProofs.PermutingFeaturesKeepsLayout | crates/orch-core/src/compile.rs:426-466 | reordering features leaves the layout unchanged |
| FeatureCompiler.ValidateFeatureMap | crates/orch-core/src/compile.rs:534-567 | succeeds exactly on valid maps, and every error names a real fault |
| FeatureCompiler.CompileField | crates/orch-core/src/compile.rs:699-744 | finds a field's place exactly when some range holds it |
| FeatureCompiler.CompileFeatureMap | crates/orch-core/src/compile.rs:415-483 | succeeds exactly when the map is valid and its distinct bytes fit; a valid map can only overflow |
| Coarsening.ScaleIsExactCeiling | crates/orch-core/src/compile.rs:746-754 | a scaled size is the exact ceiling and never smaller than before |
| Coarsening.CoarseningKeepsValid | crates/orch-core/src/compile.rs:501-532 | a coarsened valid map is valid |
| Coarsening.RepeatedCoarseningKeepsLayout | crates/orch-core/src/compile.rs:501-532 | any number of coarsenings leaves the layout unchanged |
| Coarsening.CoarsenL4 | crates/orch-core/src/compile.rs:501-532 | changes only the version and the bucket and grid sizes, with its exact failure conditions |
| Coarsening.CoarsenPreservingLayout | crates/orch-core/src/compile.rs:485-499 | `LayoutChangedByCoarsening` is unreachable |
| ArchiveRepair.OrderAndRepeatsVanish | crates/orch-fakes/src/scorer.rs:407-431 | the archive depends on which states were committed, not on order or repeats |
| ArchiveRepair.RunAbsorbs | crates/orch-fakes/src/scorer.rs:271-338 | any run of batches and replays archives just what it committed |
| ArchiveRepair.RepairMatchesRun | crates/orch-fakes/src/scorer.rs:373-431 | restoring a checkpoint and replaying the states since rebuilds the uninterrupted archive |
| ArchiveRepair.SeqCountsInserts | crates/orch-fakes/src/scorer.rs:298-338 | over every run the sequence number counts the inserted batches, up to its maximum |
| ArchiveRepair.RepairedSeqIff | crates/orch-fakes/src/scorer.rs:373-431 | a repair brings it back exactly when no batch since would have been inserted or it had stopped counting |
| ArchiveRepair.RedoCatchesUp | crates/orch-server/src/experiment.rs:918-921 | sending the lost batches again after a repair adds nothing twice and brings back the number and the cached ids |
| ArchiveRepair.RetryAcrossRepair | crates/orch-fakes/src/scorer.rs:289-296 | so a retry after that is answered under its old number and changes nothing |
| ArchiveRepair.RetryReturnsRecorded | crates/orch-fakes/src/scorer.rs:289-296 | a retried batch id changes nothing and returns the recorded response, whatever happened between |
| ScorerArchive.ExperimentArchive.ScoreBatch | crates/orch-fakes/src/scorer.rs:271-338 | rated against the archive before the batch; inserted once |
| ScorerArchive.ExperimentArchive.ReplayCommits | crates/orch-fakes/src/scorer.rs:407-431 | inserts each state once and reports how many were new |
| ScorerArchive.ExperimentArchive.Restore | crates/orch-fakes/src/scorer.rs:373-405 | replaces the archive only under matching bindings |
| StoreProofs.ApplyKeeps | crates/orch-fakes/src/snapshot_store.rs:100-257 | every call keeps children lists the inverse of parent links, with depths |
| StoreProofs.Reached | crates/orch-fakes/src/snapshot_store.rs:100-257 | so every reachable store is a tree |
| StoreWalks.PreorderIsSubtree | crates/orch-fakes/src/snapshot_store.rs:484-496 | the walk from a node visits its descendants and nothing else |
| StoreWalks.PreorderOnce | crates/orch-fakes/src/snapshot_store.rs:484-496 | and none of them twice |
| SnapshotStore.PathRuns | crates/orch-fakes/src/snapshot_store.rs:289-331 | the path starts at the root, follows the links and has depth plus one entries |
| SnapshotStore.InMemorySnapshotStore.CreateNode | crates/orch-fakes/src/snapshot_store.rs:100-195 | idempotent on identical creates, refused without a live unpruned parent, else one level below it |
| SnapshotStore.InMemorySnapshotStore.UpdateNodes | crates/orch-fakes/src/snapshot_store.rs:197-257 | staged updates amount to applying them in turn, all or nothing |
| SnapshotStore.InMemorySnapshotStore.GetPath | crates/orch-fakes/src/snapshot_store.rs:289-331 | the upward walk ends and returns the path |
| SnapshotStore.InMemorySnapshotStore.SubtreeIds | crates/orch-fakes/src/snapshot_store.rs:484-496 | the stack walk ends and lists the subtree, each node once |
| SnapshotStore.InMemorySnapshotStore.PruneSubtree | crates/orch-fakes/src/snapshot_store.rs:409-446 | marks the node and all descendants and nothing else, and counts each once |

## Left out

- The experiment runner, selection policies and the knobs of each escalation level.
- gRPC services, the daemon, HTTP, metrics and configuration parsing.
- Fault injection: an injected error is a call that did not happen; only truncated watch batches are modelled.
- The grid world's own rules: playback is proved for every step function.
- Capture contents (packed ranges, framebuffers), input-log containers and the retry ladder around jobs.
- Executing a batch inside the pipeline: one step with either outcome; its jobs and latency gauges are not modelled.
- Rebinning an archive, framebuffer checks and the snapshot store's metadata generations, attributes and node queries.
- Resume with nodes committed after the checkpoint: their rows are put back, but that the replayed intents then bring the run level is not proved; payloads are taken to survive the store unchanged.
- Floating-point rounding: scores are reals, so ties decided by rounding are not captured.
- The journal's `fsync` ordering below a single file: a crash keeps some byte prefix at or past the last sync.
- PlateauRules.LadderTracksStalls: assumes a window of at least one and a non-negative epsilon, without which its score bound is false.
- ScorerArchive.ExperimentArchive.ScoreBatch: does not model 32-bit wrap-around of a cell count, which needs 2^32 distinct states in one cell.
- Hypervisor.FakeHypervisor.ReclaimSession: requires the forest that every run keeps; on a cyclic table the source would not end.
- Resume.CheckpointAlike: is about assembling a state from the same tree and frontier set; `Rebuild` covers the rebuilt ones.
- Resume.ResumedRunContinues: likewise.
- PlateauState.EscalationLadder.ApplyStallObservation: does not model the snapshot of knobs it returns, which is a table lookup by level.
- SnapshotStore.InMemorySnapshotStore.CreateNode: does not model the attribute-size and input-log container checks, which refuse before anything changes.
- JobDriver.DriveLeasedJob: assumes a valid capture request, and does not model the verdict table or the deadline around a job.
