# Zaino: a verified model of its hard core

A Dafny model of four parts of Zaino, with proofs about all inputs and all runs.

**The chain head.** A graph of recent blocks follows a validator that may
reorganise between any two calls. The graph is a class over a tip, a map of other
blocks and a height index, and refines a best chain (a sequence) and a retained
set. The source is a `Validator` whose answer to each question may be anything
consistent with a fixed world in which a hash names its block, and which logs every
question with its reply. The main results: a reorg leaves the old chain to the fork
and then exactly the new ancestry, losing nothing, and fails only by the last reply,
a true overflow or a fork too deep; anchor-relative work is absolute chainwork less
one constant; every published tip is the heaviest retained block; the loops
terminate whatever the source does, and a steady validator is caught up with;
trimming never opens the seam to the durable tier; epochs, chain tips and treestates
mean what they say.

**The bulk load of the LMDB backend.** Scattered writes go to append-only run logs,
walk-ordered ones are regrouped, deduplicated, sorted and appended. The backend is
a class over the history of committed environment states a crash may fall back to,
the bytes of the logs and the in-memory routing state. The main results: a commit
is the batch applied op by op, or nothing; over every run, chunks of a load, failed
appends and crashes included, the store holds exactly the surviving batches, up to
the first event of a kind that is given exactly; after a crash the lost batches
land again; the merge, however often interrupted, loads exactly what the logs hold.

**The block decoder.** A cursor walks the consensus encoding of v1 to v6
transactions (section 7.1 of the Zcash Protocol Specification, ZIP 225 for v5). The
layout is given twice, as a parser and as an encoder over everything on the wire.
The main results: the walk reads exactly the encodings, whatever follows and
whatever it skips; whole blocks likewise; compact sizes and the BIP 34 height push
are exact, prefix-free inverses; the ZIP 244 id commits to exactly the effecting
data.

**The UTXO-set accumulator.** Counters and an XOR commitment stepped one output at
a time agree with a fold over the set, in any order and any sharding.

## Where the code and its documentation part

Each of these has its exact condition and an input for which the promise fails.

- `extend` keeps the graph's invariants if and only if the new block's hash is not
  already canonical (`ChainGraph.ExtendKeepsInvariants`, `ExtendCanEvict`). Blocks
  of a world where hashes name blocks never hit this.
- The window is said never to leave a gap above the durable tier. A tick that
  re-anchors leaves one if and only if the anchor height is more than one past the
  watermark (`ChainHeadService.Service.Tick`, `SeamGap.SeamOpens`).
- `finish_bulk` removes a log once the transaction clearing its manifest entry
  commits, and nothing flushes that transaction. A crash that loses it recovers the
  earlier state if and only if each log pending then begins, still or again, with
  the same extent and contents (`DeferralLimits.CrashThenOpen`). Otherwise the store
  does not open (`LostClearing`), or opens on the data of a later log of the same
  name (`RefilledLog`).
- A commit that lands leaves the store sound if and only if it is harmless in three
  respects (`DeferralCommit.SoundIff`), and each can fail. Always harmless is every
  batch of a load that was never stopped and whose appends never failed
  (`BulkDeferral.Backend.CleanIsSafe`).
  - An entry too large to frame fails a commit after other namespaces' segments may
    be on their logs, without rolling them back (`DeferralLimits.FailsCleanIff`).
    The process may go on, and the next append lands behind them while the manifest
    counts from the old length (`TooLargeThenNext`, `SegmentPrefix.StrayThenSegment`).
  - A load that stops after one of several namespaces leaves that one filled and
    still deferrable, so its next put starts a log beside a filled tree
    (`DeferralLimits.StopAfterOne`, `StoppedLoad`).
  - A key committed between an interrupted merge and its resume is skipped when it
    lies at or below the resume mark (`SegmentMerge.LateSegmentIff`,
    `LateKeyIsLost`).
- `finish_bulk` leaves bulk mode if and only if something was pending, although the
  mode is documented as lasting until it completes
  (`BulkDeferral.Backend.FinishBulk`, `DeferralLimits.NothingPending`).
- A segment header's entry count is written but never compared with the records
  read (`SegmentLog.ReadLog`, `MiscountedReads`).

## Layout

- Shared: `Wrappers`, `ByteOrder`, `ByteInts`, `Slices`, `SortedKeys`.
- Chain head: `ChainWorld`, `ChainGraph`, `ChainMoves`, `BlockSource`, `ReorgWalk`,
  `GraphAdvance`, `FinalitySeam`, `ChainHeadService`, `SeamGap`, `ChainTips`,
  `WindowTreestate`.
- Bulk load: `KvBatch`, `WalkCommit`, `SegmentLog`, `SegmentPrefix`, `SegmentMerge`,
  `DeferralState`, `DeferralAppend`, `DeferralCommit`, `DeferralLoad`,
  `BulkDeferral`, `DeferralRuns`, `DeferralReplay`, `DeferralLimits`.
- Decoder: `WireParsing`, `TransactionWire`, `TransactionFormat`,
  `TransactionReader`, `CoinbaseHeight`, `BlockDecode`, `TransactionId`,
  `TransactionIdTheorem`, `TransactionHasher`.
- UTXO set: `TxOutSet`.

`dafny verify dfyconfig.toml` checks the whole project.

## Model

| member | source | states |
|---|---|---|
| ReorgWalk.HandleReorg | packages/zaino-chain-head-service/src/service.rs:452-511 | for every anchored graph and every consistent source, success leaves the old best chain up to the fork, then exactly the ancestry of `block` ending in `block`, every block retained before still retained and only canonical ones added; failure still only grows the graph, and is explained by the last question really asked: the validator failed at it, had no such block, or gave the roots of a block whose work truly overflows; else more ancestors than the limit lie off the best chain; so no rewind or extend is ever refused |
| ReorgWalk.FindFork | packages/zaino-chain-head-service/src/service.rs:459-487 | the walk down ends at a canonical block that is the parent of the last candidate, within the walk limit; hitting the limit means that many ancestors really lie off the best chain, any other failure is the reply to the last question |
| ReorgWalk.StepDown | packages/zaino-chain-head-service/src/service.rs:462-486 | one step: the parent is the fork when canonical, a retained block when known, else a block the source served under that hash; a failure is that reply |
| ReorgWalk.LayBranch | packages/zaino-chain-head-service/src/service.rs:496-510 | the candidates are laid down oldest first and each lands on the tip; a failure is the last reply or true overflow |
| ReorgWalk.LayingDown | packages/zaino-chain-head-service/src/service.rs:496-510 | a block whose work is exact and whose parent is the tip extends it, is not yet canonical, and keeps every invariant and every retained block |
| ReorgWalk.AccumulatedIsExact | packages/zaino-chain-head/src/block.rs:6-51 | parent work plus block work is the absolute chainwork less the graph's one constant |
| ReorgWalk.BlockToChainBlock | packages/zaino-chain-head-service/src/service.rs:594-601 | a fetched block becomes one with exact anchor-relative work if and only if its roots are served and its work fits 128 bits past the base |
| ReorgWalk.ChainHeadBlockOf | packages/zaino-chain-head-service/src/service.rs:815-842 | accumulation fails exactly past 128 bits |
| ChainWorld.WorkComparesChainwork | packages/zaino-chain-head/src/block.rs:6-51 | comparing two retained blocks' work compares their absolute chainwork, both ways |
| ChainWorld.ExactIsDetermined | packages/zaino-chain-head/src/block.rs:6-51 | a hash leaves no choice in the retained block |
| GraphAdvance.FollowOne | packages/zaino-chain-head-service/src/service.rs:328-359 | one round raises the tip by exactly one, to a block the source served, or the source said the next height is absent; a walk limit means the served block really forks too deep; a steady validator is always followed |
| GraphAdvance.TakeServed | packages/zaino-chain-head-service/src/service.rs:334-358 | a served block above the tip becomes the tip; one that is the tip's child does so if and only if it can be built |
| GraphAdvance.ExtendToHeight | packages/zaino-chain-head-service/src/service.rs:328-359 | terminates against a source that changes between calls, ending at the target height or where the source ran out; a steady validator is followed to the target on its own chain |
| GraphAdvance.HighestServed | packages/zaino-chain-head-service/src/service.rs:523-555 | the highest block the source served at or below the tip within the limit; every height above it was really asked for and said absent; a failure is the last reply |
| GraphAdvance.CheckForNonHigherReorgs | packages/zaino-chain-head-service/src/service.rs:523-555 | the tip becomes that block, by a reorg when it is another one; a walk limit means nothing was served within it or the block forks too deep |
| GraphAdvance.FollowValidator | packages/zaino-chain-head-service/src/service.rs:328-359 | from the given graph, first risen to the height or to where the source ran out, then the tip is where the validator's answers put it; each stage only grows the one before |
| GraphAdvance.ResolveAnchorBlock | packages/zaino-chain-head-service/src/service.rs:620-632 | an anchor is the block the source served at that height, its work counted from itself; it succeeds if and only if block and roots are served |
| GraphAdvance.SettleOnMostWork | packages/zaino-chain-head-service/src/service.rs:420-435 | the tip has maximal work among all retained blocks, and a tip that already had it stays |
| GraphAdvance.ReorganisedTipIsHeaviest | packages/zaino-chain-head-service/src/service.rs:420-433 | reorganising to the heaviest retained block leaves it heaviest: nothing added outweighs it |
| GraphAdvance.ChainWorkRises | packages/zaino-chain-head/src/block.rs:6-51 | work rises strictly along the best chain, between any two heights |
| ChainGraph.ExtendKeepsInvariants | packages/zaino-chain-head-service/src/graph.rs:22-65 | extending keeps the invariants if and only if the block's hash is not already canonical |
| ChainGraph.ExtendCanEvict | packages/zaino-chain-head-service/src/snapshot.rs:145-158 | a graph and a block for which `extend` breaks them |
| ChainGraph.RewindKeepsInvariants | packages/zaino-chain-head-service/src/snapshot.rs:160-177 | rewinding to a canonical block keeps the invariants and makes it the tip |
| ChainGraph.TrimKeepsInvariants | packages/zaino-chain-head-service/src/snapshot.rs:179-187 | trimming keeps the invariants and the tip |
| ChainGraph.MapBackedSnapshot.FromInitialBlock | packages/zaino-chain-head-service/src/snapshot.rs:119-129 | a graph of one block |
| ChainGraph.MapBackedSnapshot.Extend | packages/zaino-chain-head-service/src/snapshot.rs:145-158 | every block whose parent and height fit is taken and no other; it refines append, and the invariants survive if and only if the hash is not yet canonical; a refused move changes nothing |
| ChainGraph.MapBackedSnapshot.RewindTo | packages/zaino-chain-head-service/src/snapshot.rs:160-177 | refines take-prefix; accepted exactly for a canonical block; a refused move changes nothing |
| ChainGraph.MapBackedSnapshot.RemoveFinalisedBlocks | packages/zaino-chain-head-service/src/snapshot.rs:179-187 | refines drop-prefix, and never drops the tip |
| ChainGraph.MapBackedSnapshot.ReplaceTip | packages/zaino-chain-head-service/src/snapshot.rs:88-94 | the old tip is demoted, the new one is in no other place |
| ChainGraph.MapBackedSnapshot.HeaviestBlock | packages/zaino-chain-head-service/src/snapshot.rs:135-143 | a retained block of maximal work, the tip on a tie |
| ChainGraph.MapBackedSnapshot.BlockByHash | packages/zaino-chain-head-service/src/snapshot.rs:210-216 | finds exactly the retained blocks |
| ChainGraph.MapBackedSnapshot.BestBlockByHeight | packages/zaino-chain-head-service/src/snapshot.rs:218-222 | finds exactly the canonical block of a height |
| ChainGraph.MapBackedSnapshot.IsOnBestChain | packages/zaino-chain-head-service/src/snapshot.rs:224-226 | true exactly of canonical references |
| ChainGraph.MapBackedSnapshot.StampGeneration | packages/zaino-chain-head-service/src/snapshot.rs:189-195 | the generation rises exactly with a new tip, saturating at the 64-bit limit |
| ChainMoves.ApplyMoves | packages/zaino-chain-head-service/src/graph.rs:22-65 | over every sequence of moves the maps keep refining the sequence up to the first append of a canonical hash, which alone breaks the invariants, and which no run where hashes name heights contains |
| ChainMoves.StepKeepsInvariants | packages/zaino-chain-head-service/src/graph.rs:22-65 | one move keeps them, whatever comes after |
| BlockSource.Presence | packages/zaino-chain-head-service/src/service.rs:681-697 | absence is an answer, failure an error |
| FinalitySeam.Seam.AdvanceHorizon | packages/zaino-finality/src/seam.rs:134-153 | the horizon only rises |
| FinalitySeam.Seam.AdvanceWatermark | packages/zaino-finality/src/seam.rs:224-246 | the watermark only rises and never passes an issued horizon |
| FinalitySeam.Seam.RetentionFloor | packages/zaino-finality/src/seam.rs:160-173 | watermark less margin, saturating |
| FinalitySeam.HeightBelow | packages/zaino-chain-head-service/src/service.rs:887-889 | a saturating subtraction |
| ChainHeadService.Service.NextGraph | packages/zaino-chain-head-service/src/service.rs:303-436 | by stages: the previous graph or a fresh anchor, the validator followed, the trim, the most work; each stage only grows the one before but for the trim, which drops what lies below its floor; a failure is explained by the last reply |
| ChainHeadService.Service.AdvanceGraph | packages/zaino-chain-head-service/src/service.rs:328-436 | the stages after the start, and that a steady validator's tip is reached |
| ChainHeadService.Service.StartingGraph | packages/zaino-chain-head-service/src/service.rs:303-327 | the previous graph, or a fresh one at the anchor height when the tip fell out of the window |
| ChainHeadService.Service.TrimFloor | packages/zaino-chain-head-service/src/service.rs:361-386 | the lower of window and retention floor; zero before any watermark |
| ChainHeadService.Service.TrimAndRelease | packages/zaino-chain-head-service/src/service.rs:361-418 | trims at exactly that floor and releases the horizon under the canonical hash there |
| ChainHeadService.Service.PublishSnapshot | packages/zaino-chain-head-service/src/service.rs:562-592 | the published epoch is the notified one and the history grows by it; a new tip gets a generation of its own exactly below the 64-bit limit |
| ChainHeadService.Service.Tick | packages/zaino-chain-head-service/src/service.rs:268-289 | one writer step: publishes exactly when the source's tip differs and the advance succeeds, and then the graph advanced by its stages; a window that reached the watermark still does unless it re-anchored, and re-anchored it does if and only if the anchor height is at most one past the watermark; a steady validator that ran past the window is caught up with by one tick |
| ChainHeadService.Service.Run | packages/zaino-chain-head-service/src/service.rs:268-289 | over every run of ticks and watermark advances every publication named the heaviest block of an anchored window, there is one per publishing tick, a tick re-anchors exactly when the source ran past the window, and without one a window that reached the watermark still does |
| ChainHeadService.SharedGenerationMeansOneTip | packages/zaino-chain-head-service/src/service.rs:562-592 | below the 64-bit limit two publications share a generation only if every one between has their tip |
| ChainHeadService.PublishingKeepsHistory | packages/zaino-chain-head-service/src/service.rs:562-592 | generations never decrease, over every publication |
| ChainHeadService.Service.SeamAfter | packages/zaino-chain-head-service/src/service.rs:361-386 | where the window's floor lies after an advance, relative to the watermark |
| SeamGap.SeamOpens | packages/zaino-chain-head-service/src/service.rs:361-386 | a service and a steady validator for which one tick leaves heights in neither tier |
| ChainTips.ChainTipsOf | packages/zaino-chain-head-service/src/snapshot.rs:246-297 | exactly the tip and the childless retained blocks, each with its measured branch, strictly sorted, one active |
| ChainTips.PublishedTips | packages/zaino-chain-head-service/src/snapshot.rs:246-297 | at any point of a run, of the published window |
| ChainTips.EveryBlockIsUnderATip | packages/zaino-chain-head-service/src/snapshot.rs:246-297 | every retained block is an ancestor-or-self of some reported tip |
| ChainTips.BranchLenIsHeightAboveFork | packages/zaino-chain-head-service/src/snapshot.rs:101-115 | a fork's branch length is its height above its fork point |
| ChainTips.WalkToBestChain | packages/zaino-chain-head-service/src/snapshot.rs:101-115 | the parent walk terminates and its steps are the height walked down |
| ChainTips.BranchLenToBestChain | packages/zaino-chain-head-service/src/snapshot.rs:101-115 | counts that walk |
| ChainTips.FindForkPoint | packages/zaino-chain-head-service/src/snapshot.rs:228-236 | the first canonical ancestor-or-self, or none |
| ChainTips.AncestorHeight | packages/zaino-chain-head-service/src/snapshot.rs:101-115 | the n-th ancestor lies n lower |
| WindowTreestate.WindowTreestateAt | packages/zaino-chain-head-service/src/tree_state.rs:35-108 | answers from the fold over the window from the seam; which error or absence otherwise, exactly |
| WindowTreestate.SeamIndependent | packages/zaino-chain-head-service/src/tree_state.rs:35-108 | whenever the window reaches the seam, the answer is the fold of the whole chain from genesis, wherever seam and window floor lie |
| WindowTreestate.SeedingFromServed | packages/zaino-chain-head-service/src/tree_state.rs:147-153 | a served treestate may seed another window: the second answer is again the whole chain's fold |
| WindowTreestate.FoldSplits | packages/zaino-chain-head-service/src/tree_state.rs:35-108 | a fold continues from where a prefix stopped |
| WindowTreestate.CollectFromSeam | packages/zaino-chain-head-service/src/tree_state.rs:49-87 | exactly the blocks from the seam to `at`, refused exactly when the window starts above the seam |
| WindowTreestate.BestChain | packages/zaino-chain-head-service/src/snapshot.rs:299-309 | the canonical blocks in height order |
| ByteOrder.ReversedIsInjective | packages/zaino-chain-head-service/src/snapshot.rs:246-297 | display order loses nothing, so sorting by it separates tips |
| BulkDeferral.Backend.Commit | packages/zaino-backend-lmdb/src/lib.rs:705-735 | for every order of the hash map: lands if and only if no fault hits it, no deferred namespace is deleted from, every deferred put can be framed and the rest commits; having landed, the store is sound and holds the batch applied op by op if and only if the batch was harmless; failing, the committed state is as it was and the logs are exactly what the appends and the rollback leave |
| DeferralCommit.SoundIff | packages/zaino-backend-lmdb/src/deferred.rs:325-372 | a landed batch leaves every manifest entry and log right if and only if, in each deferred namespace it touches, a first segment finds an empty tree, leftover log bytes begin with the new segment, and no record lies at or below the mark of a load stopped part way unless it is already loaded |
| DeferralCommit.CoveredIff | packages/zaino-backend-lmdb/src/deferred.rs:338-351 | the entry records the old length plus the segment, so the committed bytes are the committed segments exactly when what stood past the old length begins with the segment |
| DeferralCommit.TouchedIff | packages/zaino-backend-lmdb/src/deferred/merge.rs:278-313 | the tree still holds exactly the log up to the mark, or is empty before a first segment, under exactly the other two conditions |
| DeferralCommit.LoadedStillIff | packages/zaino-backend-lmdb/src/deferred/merge.rs:140-146 | one more segment leaves a part-loaded tree right if and only if its records up to the mark are in it |
| DeferralCommit.NextVisible | packages/zaino-backend-lmdb/src/deferred.rs:291-373 | namespace by namespace the ops are applied in order, whether the puts went to a log or to the tree |
| DeferralCommit.NextContents | packages/zaino-backend-lmdb/src/deferred.rs:291-373 | so the whole store holds the batch applied op by op |
| DeferralCommit.LandsIff | packages/zaino-backend-lmdb/src/lib.rs:705-735 | the history goes on with the batch if and only if it was harmless |
| BulkDeferral.Backend.CleanIsSafe | packages/zaino-backend-lmdb/src/deferred.rs:251-278 | with no leftover bytes, no stopped load and only empty trees allowed to start deferring, every batch is harmless |
| SegmentPrefix.StrayThenSegment | packages/zaino-backend-lmdb/src/deferred.rs:331-351 | leftover whole segments are harmless to the next append if and only if the first of them is that very segment |
| SegmentPrefix.SegmentIsPrefixFree | packages/zaino-backend-lmdb/src/deferred/log.rs:155-184 | no segment begins another |
| SegmentPrefix.LogsAgree | packages/zaino-backend-lmdb/src/deferred/merge.rs:200-225 | two logs with a common beginning agree on their segments as far as both go |
| DeferralAppend.LeavesNoTraceIff | packages/zaino-backend-lmdb/src/deferred.rs:325-330 | a batch with an entry too large to frame leaves the logs as they were in every order if and only if no namespace it touches can be framed |
| DeferralLimits.FailsCleanIff | packages/zaino-backend-lmdb/src/deferred.rs:325-372 | from logs without leftover bytes, a failing batch leaves them as they were in every order if and only if it does not touch both a namespace that can be framed and one that cannot |
| DeferralAppend.AppendsAllIff | packages/zaino-backend-lmdb/src/deferred.rs:325-372 | all appends are made if and only if every put can be framed and none is refused |
| DeferralAppend.AppendsAll | packages/zaino-backend-lmdb/src/deferred.rs:325-372 | and then come to the same in every order |
| DeferralAppend.AppendsOnlyGrow | packages/zaino-backend-lmdb/src/deferred.rs:325-372 | however they end, no log loses a byte and only the batch's own grow |
| DeferralAppend.RollbackRestores | packages/zaino-backend-lmdb/src/deferred.rs:418-435 | after a rollback a touched log is its committed bytes, a log the batch created is gone, the others are as they were |
| DeferralLimits.TooLargeRefused | packages/zaino-backend-lmdb/src/deferred.rs:325-330 | a batch that fails either way round and leaves a segment on a log in one order only |
| DeferralLimits.TooLargeThenNext | packages/zaino-backend-lmdb/src/deferred.rs:325-351 | after it the next put to that log lands, the store is unsound and the committed bytes read as the refused record |
| BulkDeferral.Backend.Reopen | packages/zaino-backend-lmdb/src/deferred.rs:189-249 | opens exactly when every pending log is there and long enough, and is sound exactly when the disk was; it then leaves the committed segments on the logs and nothing else |
| BulkDeferral.Backend.Crash | packages/zaino-backend-lmdb/src/lib.rs:138-156 | any unflushed suffix of transactions may be lost and logs may keep torn bytes; the state fallen back to stands for its batches, and the disk is sound if and only if the logs still begin with that state's segments, as they do when none of its logs was removed since |
| DeferralState.IntactIsCovered | packages/zaino-backend-lmdb/src/deferred/merge.rs:166-181 | a state none of whose logs was removed since still has its segments on the logs, whatever came after |
| DeferralState.IntactGrows | packages/zaino-backend-lmdb/src/deferred.rs:338-351 | a log that is still there has only grown, and its load mark has not fallen |
| DeferralState.TimelineGrows | packages/zaino-backend-lmdb/src/lib.rs:138-156 | one more committed state, the earlier ones still standing for their own batches |
| DeferralLimits.CrashThenOpen | packages/zaino-backend-lmdb/src/deferred.rs:189-249 | for every state k and whatever a crash leaves torn: the store opens on the bytes of the logs and stands for the batches up to k if and only if each log pending at k still, or again, begins with the same extent and contents; whenever none was removed it does |
| DeferralLimits.RecoversIff | packages/zaino-backend-lmdb/src/deferred.rs:189-249 | the same of any committed state and any logs |
| DeferralLimits.AlikeIff | packages/zaino-backend-lmdb/src/deferred/merge.rs:200-225 | of a log of known segments that is decided by its first segments, by unique decoding of the bytes |
| DeferralLimits.FinishThenCrash | packages/zaino-backend-lmdb/src/deferred/merge.rs:166-181 | a crash right behind a completed load opens if and only if the surviving state had nothing pending, because the logs are already gone |
| DeferralLimits.LostClearing | packages/zaino-backend-lmdb/src/deferred/merge.rs:166-181 | one deferred put, a load and such a crash: the store does not open |
| DeferralLimits.RefilledLog | packages/zaino-backend-lmdb/src/deferred/merge.rs:166-181 | a flush, a load, a delete and another bulk load: the flushed state opens on a new log of the same name and length, with the old value only when it was put again |
| DeferralReplay.RestoreLost | packages/zaino-backend-lmdb/src/deferred.rs:231-238 | after a crash to any state none of whose logs was removed, committing the lost batches again lands every one, and the store holds what it held |
| DeferralReplay.TakenAgain | packages/zaino-backend-lmdb/src/deferred.rs:231-238 | each lost batch is accepted by the recovered store, which defers fewer namespaces, and is harmless there |
| DeferralReplay.AcceptedAgain | packages/zaino-backend-lmdb/src/deferred.rs:231-238 | a batch taken while more scattered namespaces were deferred is taken when fewer are, by a store holding the same |
| DeferralRuns.Run | packages/zaino-backend-lmdb/src/deferred.rs:22-36 | over every run of begins, commits, failed commits, flushes, crashes with reopens and loads, stopped ones included, the store stays sound up to the first event that breaks it: a batch that lands and does harm, or a crash to a state that lost a log; a trace accounts for every event |
| DeferralRuns.StepEvent | packages/zaino-backend-lmdb/src/deferred.rs:64-76 | what each event does to the committed states, the logs, the batches stood for and the routing state, and that it breaks the run exactly under that condition |
| DeferralRuns.IsSafe | packages/zaino-backend-lmdb/src/deferred.rs:325-372 | the condition is decided from the store and the batch alone |
| BulkDeferral.Backend.NothingIsSplit | packages/zaino-backend-lmdb/src/deferred.rs:22-36 | in every sound state a pending run and an incomplete namespace are one thing; the log then begins with the committed segments, which are what the namespace holds, and the tree is their contents up to the load's mark |
| BulkDeferral.Backend.HoldsItsBatches | packages/zaino-backend-lmdb/src/deferred.rs:22-36 | the contents are the replay of the surviving batches onto an empty store |
| BulkDeferral.Backend.constructor | packages/zaino-backend-lmdb/src/lib.rs:119-190 | a new store is sound and empty |
| BulkDeferral.Backend.BeginBulk | packages/zaino-backend-lmdb/src/lib.rs:307-318 | afterwards a namespace defers exactly when it has a log, or deferral is on and it is scattered with an empty tree |
| BulkDeferral.Backend.Flush | packages/zaino-backend-lmdb/src/lib.rs:301-305 | no crash falls behind it |
| BulkDeferral.Backend.Partition | packages/zaino-backend-lmdb/src/deferred.rs:291-323 | direct ops keep their order; each deferred namespace's puts keep the last value; refused exactly on a deferred delete |
| BulkDeferral.Backend.AppendSegments | packages/zaino-backend-lmdb/src/deferred.rs:325-372 | the loop computes the appends in the given order, stopping where one cannot be framed or is refused; completed, every deferred namespace's log gained exactly its segment and each action records its extents |
| BulkDeferral.Backend.FinalizeCommitted | packages/zaino-backend-lmdb/src/deferred.rs:378-410 | open logs take the committed extents |
| BulkDeferral.Backend.FinalizeAborted | packages/zaino-backend-lmdb/src/deferred.rs:418-435 | logs that grew are cut back to their recorded length and new ones removed |
| BulkDeferral.Backend.FinishNamespace | packages/zaino-backend-lmdb/src/deferred/merge.rs:73-196 | chunk by chunk, whichever transaction the environment refuses, the store stays sound and its contents unchanged; completed, the tree holds what the namespace held and log and entry are gone |
| BulkDeferral.Backend.CommitChunks | packages/zaino-backend-lmdb/src/deferred/merge.rs:229-257 | every chunk's transaction is a state a crash may fall back to and a load may resume from |
| BulkDeferral.Backend.FinishBulk | packages/zaino-backend-lmdb/src/deferred/merge.rs:55-70 | in any order every namespace completes, contents unchanged, or those before the stopped one; bulk mode ends if and only if something was pending |
| DeferralLoad.ChunkKeeps | packages/zaino-backend-lmdb/src/deferred/merge.rs:229-257 | a chunk with its mark changes no contents and keeps the entry right |
| DeferralLoad.ClearKeeps | packages/zaino-backend-lmdb/src/deferred/merge.rs:166-177 | clearing the entry of a fully loaded log changes no contents |
| DeferralLimits.NothingPending | packages/zaino-backend-lmdb/src/deferred/merge.rs:55-70 | bulk mode entered and finished with nothing pending is still on |
| DeferralLimits.StopAfterOne | packages/zaino-backend-lmdb/src/deferred.rs:458-464 | a load stopping after one namespace leaves it deferred with a filled tree exactly when it was deferrable in this bulk and other logs remain, and then no batch that puts to it is harmless |
| DeferralLimits.StoppedLoad | packages/zaino-backend-lmdb/src/deferred.rs:458-464 | two puts, a load stopped at the second log, and a put to the first that lands and leaves the store unsound |
| BulkDeferral.OpenAndTruncate | packages/zaino-backend-lmdb/src/deferred.rs:509-529 | cut back to the committed length; a short log is an error |
| BulkDeferral.ReapOrphanLogs | packages/zaino-backend-lmdb/src/deferred.rs:578-606 | exactly the named logs remain |
| BulkDeferral.RecoverLogs | packages/zaino-backend-lmdb/src/deferred.rs:189-249 | both together |
| WalkCommit.CommitDirect | packages/zaino-backend-lmdb/src/lib.rs:644-687 | succeeds if and only if every namespace is known and none is misordered, and then is the batch applied op by op; the error names a real culprit |
| WalkCommit.ApplyWalkOrdered | packages/zaino-backend-lmdb/src/lib.rs:550-607 | despite deduplicating, sorting and deleting first, the tree is the ops applied in order; the append error arises exactly when a non-conflicting namespace is misordered |
| WalkCommit.MisorderedAtTheSeam | packages/zaino-backend-lmdb/src/lib.rs:532-549 | misordered means the smallest put is not past the largest key left after the deletes |
| WalkCommit.AppendSorted | packages/zaino-backend-lmdb/src/lib.rs:594-606 | appending in key order stops exactly when some key is not past the tree |
| WalkCommit.SplitBatch | packages/zaino-backend-lmdb/src/lib.rs:663-674 | plain ops applied as they come, walk-ordered ones grouped in their own order |
| WalkCommit.ApplyPlain | packages/zaino-backend-lmdb/src/lib.rs:511-530 | an overwriting put or a forgiving delete |
| KvBatch.DeletesFirst | packages/zaino-backend-lmdb/src/lib.rs:532-549 | with disjoint key sets, deletes first and last values after is sequential application |
| KvBatch.BatchIsPerNamespace | packages/zaino-backend-lmdb/src/lib.rs:644-687 | a batch acts on each namespace through its own ops alone |
| SegmentMerge.MergeSegments | packages/zaino-backend-lmdb/src/deferred/merge.rs:100-138 | the heap merge yields, in key order and once each, the keys of all segments with the latest segment's value |
| SegmentMerge.MergeNamespace | packages/zaino-backend-lmdb/src/deferred/merge.rs:73-196 | from any tree and resume mark: refused exactly past the mark, otherwise adds exactly what lies past it; every chunk it commits can be resumed from, and no mark falls |
| SegmentMerge.LoadChunks | packages/zaino-backend-lmdb/src/deferred/merge.rs:108-164 | chunked appends never meet a key out of order |
| SegmentMerge.FlushChunk | packages/zaino-backend-lmdb/src/deferred/merge.rs:229-257 | one chunk's transaction and its mark |
| SegmentMerge.DrainKey | packages/zaino-backend-lmdb/src/deferred/merge.rs:115-138 | every cursor at the key is advanced and the latest segment wins |
| SegmentMerge.MergeIsRightIff | packages/zaino-backend-lmdb/src/deferred/merge.rs:278-313 | a merge ends with the segments' contents if and only if the tree held them up to the mark |
| SegmentMerge.ResumeCompletes | packages/zaino-backend-lmdb/src/deferred/merge.rs:140-146 | any interruption, resumed, ends with the segments' contents |
| SegmentMerge.LateSegmentIff | packages/zaino-backend-lmdb/src/deferred/merge.rs:140-146 | a segment appended between interruption and resume is fully loaded if and only if it changes nothing up to the mark |
| SegmentMerge.LateKeyIsLost | packages/zaino-backend-lmdb/src/deferred/merge.rs:140-146 | a late key below the mark that never lands |
| SegmentMerge.LatestWins | packages/zaino-backend-lmdb/src/deferred/merge.rs:116-133 | the latest segment holding a key decides its value |
| SegmentLog.EncodeSegment | packages/zaino-backend-lmdb/src/deferred/log.rs:155-184 | the segment of the batch's records in key order; fails exactly when something does not fit its length field |
| SegmentLog.ReadLog | packages/zaino-backend-lmdb/src/deferred/merge.rs:200-225 | reads exactly the logs whose committed bytes are framed segments end to end with right checksums, as those segments, whatever entry counts the headers give and whatever follows |
| SegmentLog.ReadPayload | packages/zaino-backend-lmdb/src/deferred/log.rs:370-420 | reads exactly the framed payloads with the right checksum |
| SegmentLog.BuildCursors | packages/zaino-backend-lmdb/src/deferred/merge.rs:200-225 | cursors on every payload, summing to the committed length |
| SegmentLog.ChainedReads | packages/zaino-backend-lmdb/src/deferred/merge.rs:200-225 | headers that chain over payloads that read are segments laid end to end |
| SegmentLog.WrittenReads | packages/zaino-backend-lmdb/src/deferred/merge.rs:200-225 | what was written reads back, whatever stands after it |
| SegmentLog.MiscountedReads | packages/zaino-backend-lmdb/src/deferred/log.rs:208-237 | a log whose header gives seven entries for one record, read without complaint |
| SegmentLog.ParsedIsHeader | packages/zaino-backend-lmdb/src/deferred/log.rs:208-237 | a header that parses is the one its fields write |
| SegmentLog.ParseHeaderInverts | packages/zaino-backend-lmdb/src/deferred/log.rs:208-237 | a written header parses back |
| SegmentLog.ReadFramedInverts | packages/zaino-backend-lmdb/src/deferred/log.rs:394-401 | a framed string is read back wherever it lies |
| SegmentLog.LogOfPrefix | packages/zaino-backend-lmdb/src/deferred.rs:184-188 | the log of the first segments is a prefix of the log |
| SortedKeys.AscendingIsDetermined | packages/zaino-backend-lmdb/src/deferred/log.rs:149-154 | a sorted record list is determined by its map |
| TransactionReader.ReadTransaction | packages/zaino-block-decode/src/transaction.rs:171-208 | reads exactly the encodings of well-formed v1-v6 transactions, whatever follows and whatever the skipped proofs and signatures: keeps their fields, records their bytes, stops where they end |
| TransactionFormat.ReadsExactlyEncodings | packages/zaino-block-decode/src/transaction.rs:171-208 | the layout as parser and as encoder: bytes parse as a transaction if and only if they begin with its encoding |
| TransactionFormat.EncodingsArePrefixFree | packages/zaino-block-decode/src/transaction.rs:171-208 | no transaction's encoding begins another's |
| TransactionFormat.TransactionReads | packages/zaino-block-decode/src/transaction.rs:171-208 | the parser undoes the encoder |
| TransactionFormat.TransactionEncodes | packages/zaino-block-decode/src/transaction.rs:171-208 | whatever parses is an encoding |
| TransactionFormat.LegacyReads | packages/zaino-block-decode/src/transaction.rs:212-245 | v1-v4: parser undoes encoder, by version |
| TransactionFormat.LegacyEncodes | packages/zaino-block-decode/src/transaction.rs:212-245 | and accepts nothing else |
| TransactionFormat.ModernReads | packages/zaino-block-decode/src/transaction.rs:249-278 | v5 and v6: parser undoes encoder |
| TransactionFormat.ModernEncodes | packages/zaino-block-decode/src/transaction.rs:249-278 | and accepts nothing else |
| TransactionFormat.BundleReads | packages/zaino-block-decode/src/transaction.rs:370-399 | an Orchard-shaped bundle round-trips |
| TransactionFormat.BundleEncodes | packages/zaino-block-decode/src/transaction.rs:370-399 | and nothing else is one |
| TransactionFormat.JoinSplitsRead | packages/zaino-block-decode/src/transaction.rs:403-414 | JoinSplits are stepped over whole |
| TransactionFormat.VersionReads | packages/zaino-block-decode/src/transaction.rs:175-200 | version word and group round-trip |
| TransactionFormat.VersionEncodes | packages/zaino-block-decode/src/transaction.rs:175-200 | unknown versions and mismatched groups are refused |
| TransactionWire.SaplingV4Reads | packages/zaino-block-decode/src/transaction.rs:298-319 | v4 Sapling round-trips |
| TransactionWire.SaplingV4Encodes | packages/zaino-block-decode/src/transaction.rs:298-319 | and nothing else is one |
| TransactionWire.SaplingV5Reads | packages/zaino-block-decode/src/transaction.rs:324-351 | v5 Sapling round-trips, balance, anchor and signatures present exactly when due |
| TransactionWire.SaplingV5Encodes | packages/zaino-block-decode/src/transaction.rs:324-351 | and nothing else is one |
| TransactionWire.InputInverts | packages/zaino-block-decode/src/transaction.rs:280-287 | inputs round-trip and nothing else is one |
| TransactionWire.OutputInverts | packages/zaino-block-decode/src/transaction.rs:289-294 | outputs likewise |
| TransactionWire.FixedInverts | packages/zaino-block-decode/src/transaction.rs:355-365 | fixed-size fields in a row, for spends, outputs and actions alike |
| TransactionReader.ReadV4Format | packages/zaino-block-decode/src/transaction.rs:212-245 | the walk takes the step the layout describes, error for error |
| TransactionReader.ReadV5Format | packages/zaino-block-decode/src/transaction.rs:249-278 | likewise |
| TransactionReader.ReadSaplingV4 | packages/zaino-block-decode/src/transaction.rs:298-319 | likewise, dropping anchors, proofs and signatures |
| TransactionReader.ReadSaplingV5 | packages/zaino-block-decode/src/transaction.rs:324-351 | likewise |
| TransactionReader.ReadBundle | packages/zaino-block-decode/src/transaction.rs:370-399 | likewise |
| TransactionReader.SkipJoinSplits | packages/zaino-block-decode/src/transaction.rs:403-414 | likewise, keeping nothing |
| TransactionReader.ReadVersion | packages/zaino-block-decode/src/transaction.rs:175-200 | likewise |
| TransactionReader.Reader.Take | packages/zaino-block-decode/src/reader.rs:36-45 | the next bytes, or an error without moving |
| TransactionReader.Reader.CompactSize | packages/zaino-block-decode/src/reader.rs:75-95 | exactly the canonical prefix, or its error |
| TransactionReader.Reader.VarBytes | packages/zaino-block-decode/src/reader.rs:98-101 | a length-prefixed string |
| TransactionReader.Reader.Vector | packages/zaino-block-decode/src/reader.rs:106-126 | a bounded count, then that many items, each by the cursor |
| TransactionReader.Reader.ReadItem | packages/zaino-block-decode/src/transaction.rs:280-294 | one item of a vector, field by field, error for error |
| TransactionReader.Reader.TakeFields | packages/zaino-block-decode/src/reader.rs:51-55 | fixed-size fields taken one after another |
| TransactionReader.VectorUnwrapped | packages/zaino-block-decode/src/transaction.rs:298-319 | reading an item and keeping part of it is keeping part of what the layout parses |
| WireParsing.CompactSizeIff | packages/zaino-block-decode/src/reader.rs:75-95 | a prefix is accepted if and only if it is what the writer writes for a value up to the maximum |
| WireParsing.CompactIsPrefixFree | packages/zaino-block-decode/src/txid.rs:91-105 | no canonical size begins another |
| WireParsing.VectorInverts | packages/zaino-block-decode/src/reader.rs:106-126 | a counted vector is read back; the pre-allocation bound never refuses a real one |
| WireParsing.VectorSplits | packages/zaino-block-decode/src/reader.rs:106-126 | whatever reads as a vector is one |
| WireParsing.FieldsInvert | packages/zaino-block-decode/src/reader.rs:51-55 | fixed-size fields are read back |
| CoinbaseHeight.HeightIff | packages/zaino-block-decode/src/header.rs:92-124 | after genesis a script yields h if and only if it opens with the canonical push of an in-range h of at least 1 |
| CoinbaseHeight.PushIsPrefixFree | packages/zaino-block-decode/src/header.rs:129-143 | no height's push begins another's |
| CoinbaseHeight.PushIsMinimal | packages/zaino-block-decode/src/header.rs:126-143 | the pushed bytes are the shortest that say the height without a sign |
| CoinbaseHeight.CanonicalPush | packages/zaino-block-decode/src/header.rs:129-143 | the loop that pops zeros and appends a sign guard computes that push |
| BlockDecode.DecodeBlock | packages/zaino-block-decode/src/lib.rs:59-78 | up to the projection, decodes exactly the encodings of well-formed blocks, with nothing after them, that open with a coinbase committing to a height |
| BlockDecode.ReadHeader | packages/zaino-block-decode/src/header.rs:32-53 | the header's fields and solution |
| BlockDecode.ReadTransactions | packages/zaino-block-decode/src/lib.rs:59-63 | each transaction by the walk, in order |
| TransactionIdTheorem.SameIdIff | packages/zaino-block-decode/src/txid.rs:107-266 | two parsed v5/v6 transactions have one id if and only if they agree on the effecting data, when the hash does not collide on the preimages the two ids hash |
| TransactionIdTheorem.IdCommits | packages/zaino-block-decode/src/txid.rs:107-266 | equal ids mean equal header fields, prevouts, sequences, outputs, kept Sapling and Orchard/Ironwood fields and, for v5, anchors |
| TransactionIdTheorem.EffectingDecidesId | packages/zaino-block-decode/src/txid.rs:107-266 | scripts, proofs and signatures never matter, for any hash |
| TransactionIdTheorem.BundleCommits | packages/zaino-block-decode/src/txid.rs:235-266 | an Orchard-shaped digest commits to the bundle, its anchor only in v5 |
| TransactionIdTheorem.HeaderCommits | packages/zaino-block-decode/src/txid.rs:136-144 | the header digest commits to version, branch, lock time and expiry |
| TransactionIdTheorem.KeptIsWalked | packages/zaino-block-decode/src/transaction.rs:249-278 | what the walk keeps has the shape the id needs |
| TransactionId.TransparentCommits | packages/zaino-block-decode/src/txid.rs:148-169 | the transparent digest commits to prevouts, sequences and outputs |
| TransactionId.SaplingCommits | packages/zaino-block-decode/src/txid.rs:172-230 | the Sapling digest commits to spends, outputs, balance and, before v6, anchor |
| TransactionId.SpendsCommit | packages/zaino-block-decode/src/txid.rs:184-206 | the spends digest, compact and rest together |
| TransactionId.OutputsDigestCommits | packages/zaino-block-decode/src/txid.rs:210-230 | the outputs digest, head, memo and rest together |
| TransactionId.RowCommits | packages/zaino-block-decode/src/txid.rs:148-230 | concatenated fixed-size fields determine each item's fields |
| TransactionId.DigestsCommit | packages/zaino-block-decode/src/txid.rs:115-132 | digests side by side are equal only preimage by preimage |
| TransactionHasher.TransactionIdOf | packages/zaino-block-decode/src/txid.rs:107-113 | dispatch by version |
| TransactionHasher.Zip244Digest | packages/zaino-block-decode/src/txid.rs:115-132 | the tree's root, Ironwood in v6 only |
| TransactionHasher.TransparentDigest | packages/zaino-block-decode/src/txid.rs:148-169 | loops feeding three states compute the three leaves |
| TransactionHasher.SaplingSpendsDigest | packages/zaino-block-decode/src/txid.rs:184-206 | likewise, the anchor per spend before v6 |
| TransactionHasher.SaplingOutputsDigest | packages/zaino-block-decode/src/txid.rs:210-230 | likewise, the ciphertext cut in three |
| TransactionHasher.SaplingDigest | packages/zaino-block-decode/src/txid.rs:172-180 | the two and the balance |
| TransactionHasher.OrchardDigest | packages/zaino-block-decode/src/txid.rs:235-266 | likewise for actions, flags, balance and anchor |
| TransactionHasher.HeaderDigest | packages/zaino-block-decode/src/txid.rs:136-144 | five words |
| TransactionHasher.State.WriteCompactSize | packages/zaino-block-decode/src/txid.rs:91-105 | appends the canonical prefix |
| TxOutSet.ApplyAll | packages/zaino-chain-store/src/txout_set.rs:251-298 | any legal interleaving of adds and removes that runs through leaves the fields of the final set |
| TxOutSet.CombineAll | packages/zaino-chain-store/src/txout_set.rs:300-321 | any disjoint shards recombined leave the fields of their union |
| TxOutSet.SetDecidesFields | packages/zaino-chain-store/src/txout_set.rs:214-231 | a set leaves no choice in the per-output fields, and bytes are 65 times the count |
| TxOutSet.AddDescribes | packages/zaino-chain-store/src/txout_set.rs:251-258 | adding a new output steps to the larger set's fields, and fails exactly when a counter leaves 64 bits |
| TxOutSet.RemoveDescribes | packages/zaino-chain-store/src/txout_set.rs:260-268 | removing one of the set's outputs never fails and steps to the smaller set's fields |
| TxOutSet.CombineDescribes | packages/zaino-chain-store/src/txout_set.rs:300-321 | combining disjoint sets' accumulators is accumulating the union |
| TxOutSet.StepsUndo | packages/zaino-chain-store/src/txout_set.rs:260-268 | removal is the exact inverse of addition, and addition of removal |
| TxOutSet.SumAt | packages/zaino-chain-store/src/txout_set.rs:300-305 | the fold does not depend on order |
| TxOutSet.SumUnion | packages/zaino-chain-store/src/txout_set.rs:300-305 | disjoint sets fold to the sum of their folds |
| TxOutSet.Accumulator.ApplyEntry | packages/zaino-chain-store/src/txout_set.rs:282-298 | one output in either direction, or the counter that left its range |
| TxOutSet.Accumulator.ApplyAddedOutput | packages/zaino-chain-store/src/txout_set.rs:251-258 | an output entering the set |
| TxOutSet.Accumulator.ApplyRemovedOutput | packages/zaino-chain-store/src/txout_set.rs:260-268 | an output leaving it |
| TxOutSet.Accumulator.Combine | packages/zaino-chain-store/src/txout_set.rs:306-321 | another accumulator folded in, or the counter that overflowed |
| TxOutSet.Accumulator.XorIn | packages/zaino-chain-store/src/txout_set.rs:332-336 | byte by byte, in place |
| TxOutSet.Accumulator.constructor | packages/zaino-chain-store/src/txout_set.rs:233-247 | the empty set's fields |
| TxOutSet.EntryIsInjective | packages/zaino-chain-store/src/txout_set.rs:145-159 | the 65-byte entry determines its five parts |
| TxOutSet.CanonicalEntryIsInjective | packages/zaino-chain-store/src/txout_set.rs:121-132 | an outpoint with its output is one entry and no other's |
| TxOutSet.EntryLength | packages/zaino-chain-store/src/txout_set.rs:71-76 | always 65 bytes |

## Left out

- BulkDeferral.Backend.Commit: keeps the manifest as a typed map committed with the batch, so batches that write the reserved manifest namespace and the manifest's byte encoding are not covered; a refused append leaves some first bytes of its segment, and failures to create a log or sync a directory are not covered; a run log past 2^64 bytes is not covered.
- BulkDeferral.Backend.FinalizeAborted: takes the best-effort truncations and removals to succeed.
- BulkDeferral.Backend.FinishNamespace: takes the removal of the log to succeed, and reads the whole log before its first chunk.
- DeferralRuns.Run: ends at a crash to a state that has since lost a log, although such a state can come back when the log was written again alike; `DeferralLimits.CrashThenOpen` covers that case.
- DeferralReplay.RestoreLost: commits the lost batches without further faults, outside bulk mode.
- SegmentLog.ReadLog: reads each payload whole, not through the cursor's 8 KiB refill buffer, and reads all headers and payloads before merging, so a corrupt payload fails before any chunk is committed and not after some.
- SegmentMerge.MergeNamespace: produces the merged stream before loading it; the heap is a set of (key, segment) pairs and any cursor at the least key may be drained first.
- TransactionReader.Reader.Take: positions are unbounded, so the overflow check on a 64-bit position never fires.
- TransactionHasher.TransactionIdOf: takes BLAKE2b and double SHA-256 as parameters; nothing is claimed about collisions beyond the preimages of the two ids compared.
- TransactionIdTheorem.SameIdIff: covers v5 and v6; v1 to v4 ids are the hash of the whole encoding.
- TxOutSet.Accumulator.ApplyEntry: claims nothing about the fields after an error, since the digest goes in before the counters are tried; `transactions` is the caller's to step and is carried unchanged.
- BlockDecode.DecodeBlock: stops before the projection to domain types (value ranges, Equihash solution length, difficulty bits, header version sign) and before block construction.
- BlockSource: the world of blocks is fixed and a hash also determines its tree roots; which blocks the source serves, and when, is arbitrary.
- Async runtime, cancellation, wake channels, status cells, metrics and logging: one writer takes atomic ticks.
- Subscriptions, spend and address lookups, transaction location and serving of the chain head: field mapping over the same graph.
- Commitment-tree arithmetic behind a treestate: an abstract left fold with a decoder.
- Reads, range scans and first-key lookups of the backend: plain map reads.
- Address, common, async, component, benchmark, live-test, configuration and error crates, and the routing and conversion files of the database crate: wrappers or field mapping.
