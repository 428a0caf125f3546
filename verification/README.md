# Verified models of the archiver, the checkpoint builder and the shared continuity proof

This project models two pipelines of the Creditcoin attestation tooling and one client-side merge,
and proves what they are for.

* **The archiver** follows a source chain and keeps one block root (and block hash) per height.
  It survives stream deaths, reorganisations, restarts and crashes, and it must never join two
  branches of the source chain or leave a hole in what it keeps. The model has the store
  (`StoreSpec`, `PutJoin`, `Gaps`, `RootStore`, with its bytes in `KeyOrder` and `ByteCodec`), the
  anchor check (`Anchor`, `ForkPoint`), the whole process as a state machine over its steps
  (`SourceChain`, `Protocol`), the loop itself as a class that refines those steps (`Archiver`),
  backfilling (`Backfill`, `BackfillSteps`), readiness (`Health`) and the HTTP range endpoint (`Api`).
  The theorems over all runs are in `Safety` (branches), `Placement`, `Continuity`, `Beginning`,
  `Visibility` and `BatchBounds` (heights).
* **The checkpoint builder** folds block roots into a digest chain and emits one checkpoint per
  interval. The model has the configuration checks (`CheckpointConfig`), the chunked fold
  (`CheckpointBuilder`, `BuilderRun`), what the output is (`DigestChain`, `BuilderTheorems`) and
  what is out when a run ends early (`RowsSent`), restarting (`Resume`), and its two sources: chained databases (`ChainedSource`, `ChainedRun`)
  and an archiver read over HTTP (`Api`, `ArchiveRun`), with the check before a run (`RangeCheck`). `EndToEnd`
  joins the two pipelines.
* **The shared continuity proof** merges the proofs of several queries into one (`SharedProof`).

`dafny verify dfyconfig.toml` checks everything.

## How the pieces fit

The archiver is a state machine: `SourceMoves`, `Startup`, `GapWrite`, `Connect`, `Item`, `Die`,
`Reconnect`, `Stop` and `Crash`, in any order the process allows. A crash falls back to any earlier
version of the database. Two invariants are kept by every step: `Placement.Placed`, about heights, from any
store; and `Safety.Inv`, about branches, from a store on one branch with a hashed tip. The class
`ArchiverLoop.Archiver` and the method `ArchiverLoop.StartUp` carry the imperative code; their contracts
say which step each method takes, so what is proved about steps holds of them. `BackfillSteps` does the
same for the writes of a backfill.

The builder's result is one predicate, `BuilderRun.BuilderResult`, for every accepted
configuration, every honest source and every point at which the channel may close. The two real
sources are then shown to be honest and never to end early in silence, which gives
`ChainedRun.BuilderOnChained` and `ArchiveRun.BuilderOnArchive`, and with the archiver's safety
`EndToEnd.CheckpointsOfTheSourceChain`.

## Assumptions

* A stream of roots delivers consecutive heights from its start.
* From an anchor check until its session ends, the source keeps the blocks it has delivered
  (`Protocol.State.Holds`); between sessions it may reorganise in any way. A session here includes the root
  stream's own redials: on a connection error the stream reconnects and continues at the next height without an
  anchor check. The assumption is needed: `Safety.SessionMoveSplicesIff`.
* Each query of an anchor check is answered at its own moment, and the source may move between two of them. Only
  the answer the walk ends on has to be canonical when the step is taken (`ForkPoint.Confirmed`); what a walk
  drops is non-canonical where all answers are (`ForkPoint.ReanchorIsExact`).
* A root stream records an unrecoverable error in the poll that ends it, so whoever stops polling earlier does
  not see it.
* Block hashes of presented blocks do not collide and are not zero (`SourceChain.World.Sound`), so a
  hash determines its ancestors. Nothing like this is assumed of the digest function: where digests
  bind roots, the lemma either gives equal roots or names the collision.
* Heights of the source chain and of the store a run starts from stay below the last u64 (`SourceChain.IsChain`,
  `Placement.Fits`). Where the store or the configuration can be handed that last value, the wrap-around is
  modelled.
* The builder is described over sources that report the root a height has (`BuilderRun.HonestSource`);
  that they are complete is not assumed.

## Where the code does less than it says

Each item has a lemma or contract that gives the exact condition.

* A store whose tip has no block hash (a legacy entry) is resumed unverified, and can then be spliced
  with a rival branch: `Safety.SpliceFreeIffTipHashed`. Hashless entries below the tip are harmless.
* A fill that does not touch the store leaves a hole: below the first stored height until the whole stretch
  is filled, and in range mode, where nothing of that run closes it, also above the tip or short of the first
  stored height. `Continuity.GapWriteKeepsInterval`, over runs `Continuity.NoNewGaps`, for the windows a
  start may ask for `Continuity.MeetsStoreIff`, at one input `Continuity.RangeFillLeavesHole`.
* The root stream redials inside a session and continues without an anchor check, so what the check is for rests
  there on the source still having every block of the store plus the pending batch: `Safety.SessionMoveSplicesIff`.
  One replaced pending block is enough: `Safety.PendingBlockSplices`.
* A builder joins the replies to several requests, and the archiver may re-anchor in between. The joined roots are
  those of one chain exactly if every reply agrees with it on the heights it served: `ArchiveRun.HonestIffServes`,
  over two requests `EndToEnd.ReanchorBetweenRequests`.
* `find_gaps` reports the whole u64 range as missing if its last height is stored and asked for,
  because `height + 1` wraps (release builds do not check overflow): `RootStoreModule.RootStore.FindGaps`,
  `Backfill.EnsureRangeComplete`.
* `put_roots` compares a batch with the database but not with itself. A batch that repeats a new height is
  counted too often (`StoreSpec.FreshIsGrowth`). If the last entry at a height does not say all the earlier ones
  say, a conflict goes unseen or a known hash is forgotten (`PutJoin.GuardDoesNotSeeTheBatch`,
  `PutJoin.HashIsForgotten`); exactly then the store is not the join of what it was offered
  (`PutJoin.JoinsIffSettles`, `PutJoin.TidyIsExact`).
* A genesis range at the last u64 followed by a range from zero is accepted:
  `CheckpointConfig.WrappedGenesisIsAccepted`, `CheckpointConfig.AcceptedIffUsable`.
* The builder does not notice a source that ends early on an interval boundary
  (`BuilderTheorems.ShortRangeSucceeds`, `BuilderTheorems.ShortSourceExists`). Its output is
  wrong exactly then (`BuilderRun.ProcessBlocks`); neither of its two sources does this.
* After the last row there is nothing to resume: the remaining ranges are empty and rejected
  (`Resume.RestartIsAccepted`).
* Proofs that all carry an empty list of roots merge into a proof of nothing:
  `SharedProof.SharedCoversUnlessEmpty`, `SharedProof.EmptyProofsMerge`.

That the stale window must exceed poll interval plus timeout strictly is not caution but needed, because timers
fire late. With equality, an overrun of two nanoseconds would already let a live source read stale; the
strict inequality leaves at least a second (`HealthModule.StartupCheckToleratesSlack`).

## Model

| member | source | states |
|---|---|---|
| `Safety.NoForkSplice` | archiver/src/anchor.rs:1-15 | over every run from a store on one branch with a hashed tip, every stored block is an ancestor of the stored tip, in every reachable state |
| `Placement.GuardNeverFires` | archiver/src/main.rs:682-827 | over every run from any store, hashed or not, everything the process writes is new and accepted: no run ends in the write-once guard |
| `Placement.StepPlaced` | archiver/src/main.rs:633-867 | every step keeps the pending batch a consecutive stretch right above the stored tip, ending below the stream's next height |
| `Placement.ResumesAboveTip` | archiver/src/anchor.rs:41-48 | whatever a reconciliation decides, the process resumes right above the tip it leaves |
| `Safety.SpliceFreeIffTipHashed` | archiver/src/anchor.rs:76-85 | with a rival branch that differs at the tip, all runs stay on one branch if and only if the tip carries a hash |
| `Safety.SessionMoveSplicesIff` | common/streams/eth/src/roots.rs:202-227 | if the source moved to another chain inside a session, delivering and flushing the next block leaves a store on one branch if and only if that chain still carries the store plus the pending batch |
| `Safety.PendingBlockSplices` | common/streams/eth/src/roots.rs:202-227 | a move that replaces the root of one pending block, whatever else it keeps, splices the store with the next flush |
| `Safety.StepKeepsInv` | archiver/src/main.rs:633-867 | each of the nine steps keeps the invariant (store on one branch, pending batch a stretch of the live chain that continues it) |
| `Safety.ReconcileIsGood` | archiver/src/main.rs:277-298 | every outcome that lets the process go on leaves a store on the canonical chain and a resume height right above its tip |
| `Continuity.NoNewGaps` | archiver/src/main.rs:633-867 | from any gap-free or empty store, the store is gap-free in every state of a run if and only if every gap write of the run touches it; then, while a stream is live or reconnecting, store plus batch are one interval that ends with the last delivered height, and the next height owed is the one after |
| `Continuity.PendingClosesTheGap` | archiver/src/main.rs:682-694 | store and pending batch together are one interval up to the last delivered height, which is held |
| `Continuity.GapWriteKeepsInterval` | archiver/src/main.rs:430-533 | with or without an upper bound, a gap write leaves a gap-free store gap-free if and only if it is empty, the store is empty, or it ends right below the first or starts right above the last stored height |
| `Continuity.RangeFillLeavesHole` | archiver/src/main.rs:430-436 | from a stopped process with a verified block 0, a start that fills `2..=2` leaves a hole |
| `Continuity.MeetsStoreIff` | archiver/src/main.rs:430-436 | every write into a window touches a gap-free store if and only if the store or the window is empty, or the window begins no lower than right below the first stored height and, when bounded, no higher than right above the last |
| `Continuity.MeetingFillsTouch` | archiver/src/main.rs:430-533 | over every run whose starts fill such windows, all gap writes touch the store |
| `Beginning.ArchiveIsOneInterval` | archiver/src/main.rs:138-155 | over every run started with one start height, on an empty store or one that begins there without gaps, the store is empty or one interval from that height on; while streaming or reconnecting, store plus batch are exactly the heights from it to the last delivered one |
| `Visibility.DeliveredIsHeldOnce` | archiver/src/main.rs:789-867 | over every run from any store, what was delivered or filled and neither truncated nor lost in a crash is in store or batch, and in exactly one of them |
| `Visibility.StepConservesHeights` | archiver/src/main.rs:682-867 | exactly which heights each step adds to or drops from store plus batch |
| `Visibility.GapWriteConserves` | archiver/src/main.rs:505-533 | a gap write adds exactly its stretch |
| `BatchBounds.LoopKeepsBatchShort` | archiver/src/main.rs:799-821 | over every run whose writes the loop decides, the batch stays shorter than the flush size between steps, and each delivery empties it if it is full, the end height is reached or the bound is less than a tip window ahead, and otherwise adds one height |
| `Anchor.Reconcile` | archiver/src/anchor.rs:56-121 | the outcome is the one store and replies determine; the store is truncated at the anchor it names and otherwise untouched |
| `Anchor.WalkBack` | archiver/src/anchor.rs:72-102 | the walk stops at the highest candidate that matches, having refuted every stored block above it |
| `Anchor.LastIsTip` | archiver/src/anchor.rs:65-105 | the first candidate of the walk is the stored tip, so the unwrapping of it cannot fail |
| `Anchor.OutcomeIsUnique` | archiver/src/anchor.rs:56-121 | two outcomes that explain the same store and replies are equal |
| `ForkPoint.VerifiedIsCanonical` | archiver/src/anchor.rs:86-92 | a store on one branch whose tip the source confirms lies on the canonical chain |
| `ForkPoint.KeptAreCanonical` | archiver/src/anchor.rs:86-98 | what a re-anchoring keeps is canonical if the answer it ended on is, whatever the source did during the walk |
| `ForkPoint.ReanchorIsExact` | archiver/src/anchor.rs:86-98 | re-anchoring keeps only canonical entries, drops only non-canonical ones, removes at most the depth limit and resumes right above the new tip |
| `ForkPoint.ReanchorsIffForkIsShallow` | archiver/src/anchor.rs:56-121 | with hashed candidates and answered queries, the walk finds an anchor if and only if a stored block at most the depth limit below the tip is still canonical |
| `SourceChain.SameHashSameAncestors` | archiver/src/anchor.rs:3-15 | two chains that share a block hash agree on every block up to it |
| `ArchiverLoop.StartUp` | archiver/src/main.rs:138-155 | gives up exactly on a mismatch or a failed query; otherwise starts right above the last height it leaves stored, on an empty store at the configured height; takes the `Startup` step; an exact counter stays exact |
| `ArchiverLoop.Archiver.OnItem` | archiver/src/main.rs:789-827 | takes the `Item` step; the batch is written if full, at the end height, or with the bound (end height, else attested height or a lower fresh head, else source head) less than a tip window ahead, and otherwise kept; the range ends exactly from the end height on; an exact counter stays exact |
| `ArchiverLoop.FlushesIffDue` | archiver/src/main.rs:798-821 | the distance the loop computes is to what bounds the run, and it writes if and only if the batch is due by heights |
| `ArchiverLoop.Archiver.OnStreamDeath` | archiver/src/main.rs:682-694 | takes the `Die` step: the batch is written before the anchor check; an exact counter stays exact |
| `ArchiverLoop.Archiver.OnReconnect` | archiver/src/main.rs:697-785 | takes the `Reconnect` step: fails exactly on a mismatch or a failed query, and otherwise resumes right above the last height it leaves stored, or where it was with nothing stored; an exact counter stays exact |
| `ArchiverLoop.Archiver.OnShutdown` | archiver/src/main.rs:860-867 | takes the `Stop` step: nothing pending is lost; an exact counter stays exact |
| `ArchiverLoop.FollowAttested` | archiver/src/main.rs:1168-1223 | the published bound is the maximum of all readings so far, and absent exactly while none was read |
| `ArchiverLoop.AdvanceBound` | archiver/src/main.rs:1317-1324 | the bound is raised exactly on an advance |
| `ArchiverLoop.QuietVerdictIsRight` | archiver/src/main.rs:655-677 | in every reachable state a quiet stream is torn down if and only if some reading covers the next undelivered height and a head that was read recently enough, if there is one, has reached it |
| `RootStoreModule.RootStore.PutRoots` | archiver/src/store.rs:191-254 | accepts if and only if no entry conflicts with the database; then writes the batch, counts the new heights and persists the count; else reports the first conflict and changes nothing |
| `RootStoreModule.RootStore.TruncateAbove` | archiver/src/store.rs:263-291 | removes exactly the entries above the given height, returns how many, corrects both counters; a counter that had drifted low wraps in memory and stops at zero on disk |
| `RootStoreModule.RootStore.GetRange` | archiver/src/store.rs:295-308 | the stored entries of the range, ascending |
| `RootStoreModule.RootStore.FindGaps` | archiver/src/store.rs:362-403 | the list is exactly the missing heights of the promised window if and only if the tail test does not wrap |
| `RootStoreModule.GapsAreTheMissing` | archiver/src/store.rs:349-403 | for every combination of bounds, which heights the promised list has: the missing ones inside given bounds, without an upper bound those below a stored height, without a lower bound those above one |
| `RootStoreModule.RootStore.PinChainId` | archiver/src/store.rs:161-175 | pins once, confirms the same id, reports a different one |
| `RootStoreModule.RootStore.Open` | archiver/src/store.rs:102-137 | takes the counter from the meta tree, or once from a scan that it then persists; contents and pin as on disk |
| `Gaps.ExactGapsAreUnique` | archiver/src/store.rs:349-403 | an ascending, disjoint, non-adjacent list with the right union is unique |
| `Gaps.TotalIsMissing` | archiver/src/main.rs:440-445 | the announced total is the number of missing heights |
| `StoreSpec.FreshIsGrowth` | archiver/src/store.rs:194-241 | the counter is raised by the growth of the key set if and only if the batch repeats no new height, and never by less |
| `StoreSpec.CountSurvivesHistory` | archiver/src/store.rs:102-137 | throughout a history of accepted and rejected puts, truncations, pins and reopens the cached count is the number of keys if and only if no accepted put repeats a new height |
| `StoreSpec.RootsAreWrittenOnce` | archiver/src/store.rs:139-154 | between truncations no root changes and a hash only goes from unknown to known |
| `StoreSpec.PinNeverChanges` | archiver/src/store.rs:161-175 | the first pin is the pin for good |
| `PutJoin.PutAllSucceedsIff` | archiver/src/store.rs:191-254 | a list of tidy batches (distinct heights, or a last entry that says all the earlier ones at its height say) is accepted if and only if any two entries at one height have equal roots and equal-or-unknown hashes; the store is then their join |
| `PutJoin.PutAllIgnoresOrder` | archiver/src/store.rs:139-154 | two ways of offering the same entries in tidy batches both fail or leave the same store |
| `PutJoin.PutAllIsPermutationInvariant` | archiver/src/store.rs:139-154 | in particular any reordering of the batches |
| `PutJoin.JoinIsUnique` | archiver/src/store.rs:139-154 | the join of a set of entries is unique |
| `PutJoin.JoinsIffSettles` | archiver/src/store.rs:196-236 | an accepted batch, repeated heights or not, leaves the join of what was stored and what it offers if and only if what its last entry at each height writes covers the earlier ones there |
| `PutJoin.TidyIsExact` | archiver/src/store.rs:196-236 | a batch leaves the join wherever it is accepted if and only if it is tidy |
| `PutJoin.GuardDoesNotSeeTheBatch` | archiver/src/store.rs:196-232 | two conflicting roots for one new height are accepted in one batch although rejected in two |
| `PutJoin.DistinctIsTidy` | archiver/src/store.rs:191-196 | a batch of distinct heights is tidy |
| `PutJoin.HashIsForgotten` | archiver/src/store.rs:222-231 | a hash given and then left out in one batch is forgotten, and a different one accepted later |
| `Heights.FullScan` | archiver/src/store.rs:295-308 | a range scan is as long as its window if and only if nothing is missing, and then its i-th height is the low end plus i |
| `ByteCodec.OrderIsNumeric` | archiver/src/store.rs:438-444 | byte order of big-endian keys is numeric order, for every key width |
| `ByteCodec.KeyRoundTrip` | archiver/src/store.rs:438-444 | for every key width, a key parses to a height if and only if it is that height's key |
| `ByteCodec.EncodeDecode` | archiver/src/store.rs:438-444 | every byte string is the encoding of the number it decodes to |
| `ByteCodec.ValueRoundTrip` | archiver/src/store.rs:447-474 | a written value reads back as what was written |
| `ByteCodec.RootComesFirst` | archiver/src/store.rs:447-474 | whatever 32 bytes follow, a value has the root its first 32 bytes have alone, and the hash the others spell |
| `ByteCodec.LegacyReadsAsUnknown` | archiver/src/store.rs:454-474 | a 32-byte value reads like the 64-byte value of the same root with the zero hash |
| `ByteCodec.InsertRefines` | archiver/src/store.rs:228-236 | writing bytes updates the height map at that height and nowhere else |
| `ByteCodec.UpgradeRefines` | archiver/src/store.rs:220-231 | rewriting a value in the current layout leaves the height map as it was |
| `ByteCodec.RemoveRefines` | archiver/src/store.rs:267-279 | removing a key removes that height and no other |
| `ByteCodec.EndsRefine` | archiver/src/store.rs:310-347 | the first and last key are the first and last height of the height map |
| `ByteCodec.RangeReadRefines` | archiver/src/store.rs:295-308 | a read of a key range yields, decoded, exactly the ascending scan of the height map, and under each key the value of its height |
| `ByteCodec.GetRange` | archiver/src/store.rs:295-308 | the loop over the keys returns what reading them one by one gives, and fails with the first that cannot be read |
| `ByteCodec.GetRangeRefines` | archiver/src/store.rs:295-308 | a range read fails if and only if some value in the range cannot be read, and otherwise returns exactly the entries of the height map in the range, ascending |
| `KeyOrder.RangeReadIsScan` | archiver/src/store.rs:295-308 | the same for any order-keeping key encoding |
| `Backfill.FillGap` | archiver/src/main.rs:490-534 | adds exactly what the stream delivered of the gap, counted exactly, never rejected |
| `Backfill.PendingIsAccepted` | archiver/src/main.rs:512-515 | a batch of a gap stream is never rejected, counts in full and is simply added |
| `Backfill.EnsureRangeComplete` | archiver/src/main.rs:1077-1101 | succeeds if and only if every height is stored and the end is not the last u64 |
| `Backfill.BackfillShutdown` | archiver/src/main.rs:1068-1074 | the exit status of an interrupted run tells whether the range is complete |
| `Backfill.RunBackfill` | archiver/src/main.rs:430-559 | whatever the streams do, stored entries are kept and exactly the blocks streamed into their gaps by the attempts reached are added, with their roots and hashes, also when a signal or an error ends the run; in range mode the run succeeds if and only if every height of the range is stored; otherwise it proceeds if and only if every attempt passed and stops if and only if a signal came first; it fails exactly when an attempt has no client or ends on an unrecoverable block; undisturbed it fills the window and raises the count by the announced total |
| `Backfill.FillGaps` | archiver/src/main.rs:448-549 | how the loop ends is determined by the first attempt that does not pass: broken off exactly by a missing client or an unrecoverable block, and then a listed gap is open; what was streamed up to there is stored |
| `BackfillSteps.WriteIsGapWrite` | archiver/src/main.rs:509-534 | every write of the loop over the gaps is an enabled `GapWrite` step, and taking the step leaves the same store |
| `HealthModule.ReadyIff` | archiver/src/health.rs:165-238 | the verdict from the fields is the verdict from the history of reports, with the lag told by the heights reported and archived |
| `HealthModule.RecordStep` | archiver/src/health.rs:109-162 | every report keeps the fields, sentinels included, in step with the history |
| `HealthModule.Health.Snapshot` | archiver/src/health.rs:165-238 | ready if and only if handshake, fresh head, known target, the last reported target at most the limit above the archive, and no flush error since the last good flush; each reason is given exactly when it applies |
| `HealthModule.Health.NoteMatureTarget` | archiver/src/health.rs:128-135 | records the target |
| `HealthModule.Health.NoteHead` | archiver/src/health.rs:121-124 | records the head and when it was seen |
| `HealthModule.Health.NoteFlushError` | archiver/src/health.rs:152-158 | records the failure as the last one and counts it |
| `HealthModule.Health.NoteFlushOk` | archiver/src/health.rs:143-150 | records the good flush and its time, which clears the error |
| `HealthModule.Health.NoteProgress` | archiver/src/health.rs:137-141 | records height and time, without bearing on readiness |
| `HealthModule.Health.NoteReconnect` | archiver/src/health.rs:160-162 | counted, without bearing on readiness |
| `HealthModule.Health.SetSource` | archiver/src/health.rs:106-111 | records the handshake; the id first set stays |
| `HealthModule.LiveSourceNeverStale` | archiver/src/health.rs:192-201 | over every run of samples and at every moment the head age is within the window, if and only if every round fits into the window |
| `HealthModule.StartupCheckToleratesSlack` | archiver/src/main.rs:105-114 | under the startup inequality exactly the timer overrun up to the margin it leaves is tolerated, at least a second; with equality instead, two nanoseconds are too many |
| `HealthModule.LiveSourceIsFresh` | archiver/src/main.rs:395-413 | under the startup inequality, with timers up to a second late, the head is fresh in the sense of readiness |
| `Api.Roots` | archiver/src/api.rs:109-155 | refused exactly if the range is empty or has more heights than allowed; answers with data if and only if it is not and every height is stored; the i-th entry is then height from plus i with the stored root |
| `Api.ValidateRangeResponse` | checkpoint-builder/src/source/archive.rs:43-62 | accepts exactly the requested heights, each once, in order |
| `Api.FetchRange` | checkpoint-builder/src/source/archive.rs:73-113 | an answer that is not exact is an error |
| `Api.FetchAll` | checkpoint-builder/src/source/archive.rs:115-125 | against any server, an error or exactly the requested heights |
| `Api.RequestsAreFew` | checkpoint-builder/src/source/archive.rs:115-125 | a range takes its length over the batch size, rounded up, in requests, none of them larger |
| `Api.ClientReadsTheStore` | checkpoint-builder/src/source/archive.rs:115-125 | against the archiver, an answer if and only if every height is stored, and then the stored roots |
| `CheckpointConfig.ValidateCheckpointRanges` | checkpoint-builder/src/config.rs:204-298 | the two passes accept exactly what passes every check |
| `CheckpointConfig.ValidatedIffWellFormed` | checkpoint-builder/src/config.rs:204-298 | without the two wrap-arounds, validated if and only if non-empty, evenly divided, each range right after the one before |
| `CheckpointConfig.AcceptedIffUsable` | checkpoint-builder/src/config.rs:506-568 | for all parsed ranges: accepted if and only if usable and, when resuming, with a chain key; or a genesis at the last u64 in front of a list from zero |
| `CheckpointConfig.NoRangesIff` | checkpoint-builder/src/config.rs:506-555 | without ranges accepted exactly in a dry run without a digest, as an empty configuration |
| `CheckpointConfig.WrappedGenesisIff` | checkpoint-builder/src/config.rs:246-259 | a genesis at the last u64 with more ranges is validated if and only if they form a list from zero |
| `CheckpointConfig.WrappedGenesisIsAccepted` | checkpoint-builder/src/config.rs:249-259 | the wrapped genesis is accepted although the ranges do not join |
| `CheckpointConfig.AnchorNeverUnderflows` | checkpoint-builder/src/main.rs:240-251 | whatever is accepted, the block below the starting block exists where it is used |
| `CheckpointBuilder.FoldItems` | checkpoint-builder/src/main.rs:358-428 | sends the plain chain sampled once per full interval, up to the first bad item or the closing of the channel, and succeeds exactly when the items end on an interval boundary |
| `CheckpointBuilder.FoldIsChain` | checkpoint-builder/src/main.rs:386-398 | folding a chunk of consecutive blocks yields the plain chain's digest at its last height |
| `BuilderRun.ProcessRange` | checkpoint-builder/src/main.rs:332-358 | folds the range from its lowest height above the latest checkpoint on, and does nothing if there is none |
| `BuilderRun.ProcessRanges` | checkpoint-builder/src/main.rs:288-316 | what the loop over the ranges sends, whatever the source and the channel do: as many rows as the source gives before it fails, up to the limit, those up to the first incomplete range rows of the full output |
| `BuilderRun.ProcessBlocks` | checkpoint-builder/src/main.rs:220-316 | on any source as many rows as it gives before it fails and the channel takes, success exactly if it never fails and the channel takes all; without a short range a prefix of the full output; on success the full output if and only if no range is short; on a complete source everything the channel takes |
| `RowsSent.SuppliedRowIsSent` | checkpoint-builder/src/main.rs:358-428 | on any source, a row of the full output is sent in its place if the limit allows, all ranges before its own are complete and its own yields every block up to it in order |
| `RowsSent.SentIffSupplied` | checkpoint-builder/src/main.rs:358-428 | without a short range, a row is sent if and only if that holds |
| `BuilderTheorems.OutputIsThePlainChain` | checkpoint-builder/src/main.rs:220-428 | every row is the plain left-fold digest at its height, heights strictly ascend, the last is the end block |
| `BuilderTheorems.OutputIsCounted` | checkpoint-builder/src/config.rs:83-85 | one row per interval of each range, one for the genesis |
| `BuilderTheorems.ConfigurationsAgree` | checkpoint-builder/src/main.rs:220-428 | two usable configurations with one anchor agree at every height both sample |
| `BuilderTheorems.CheckpointBindsRoots` | checkpoint-builder/src/main.rs:264-269 | equal rows of two runs over different sources and ranges mean equal roots in between, or a named collision |
| `BuilderTheorems.CompleteOutput` | checkpoint-builder/src/main.rs:220-316 | on a complete source the output is the full output cut at the channel's limit |
| `BuilderTheorems.ShortRangeSucceeds` | checkpoint-builder/src/main.rs:358-427 | a source that ends early on an interval boundary is not noticed |
| `BuilderTheorems.ShortSourceExists` | checkpoint-builder/src/main.rs:358-427 | such an honest source, concretely |
| `DigestChain.DigestBindsRoots` | primitives/attestor/src/lib.rs:467-483 | one digest at one height from anchors at one height: equal anchors and roots, or a collision on hashed inputs |
| `DigestChain.GenesisBindsRoots` | checkpoint-builder/src/main.rs:252-286 | from a genesis the genesis root is bound as well |
| `DigestChain.ChainSplits` | checkpoint-builder/src/main.rs:240-251 | any row can serve as the anchor of the rest |
| `Resume.ResumeFromRow` | checkpoint-builder/src/main.rs:240-311 | from any row, the remaining ranges are empty exactly at the last row; otherwise they are usable with that digest and yield exactly the rows that follow |
| `Resume.RestartIsAccepted` | checkpoint-builder/src/config.rs:506-568 | that configuration is accepted exactly when rows are left |
| `Resume.InterruptThenResume` | checkpoint-builder/src/main.rs:332-428 | a run cut off anywhere plus a run resumed from any row it sent is the full output |
| `ChainedSource.ResolveSpans` | checkpoint-builder/src/source/chained.rs:59-99 | each span keeps what no earlier one covers; for each span that shares heights with earlier ones there is one report, in order, of exactly the heights shared, naming the one that reaches highest |
| `ChainedSource.NoneLateIff` | checkpoint-builder/src/source/chained.rs:59-99 | nothing is reported if and only if no two spans share a height |
| `ChainedSource.ServedByOwner` | checkpoint-builder/src/source/chained.rs:54-58 | a height is served by exactly the first span that covers it |
| `ChainedSource.KeptAscend` | checkpoint-builder/src/source/chained.rs:199-202 | what is kept ascends without overlap |
| `ChainedSource.SpansOf` | checkpoint-builder/src/source/sled.rs:36-53 | the count check passes if and only if every database is non-empty and gapless |
| `ChainedSource.Open` | checkpoint-builder/src/source/chained.rs:114-203 | opens if and only if all are gapless and, if asked, none overlap; every stored height is then served, from the database that starts earliest |
| `ChainedRun.IterRange` | checkpoint-builder/src/source/chained.rs:238-278 | the loop yields the parts in order with an error for every uncovered stretch |
| `ChainedRun.ItemsYield` | checkpoint-builder/src/source/chained.rs:238-278 | one block per height up to the first uncovered height, and an error there: the source never just ends |
| `ChainedRun.ItemsAreTold` | checkpoint-builder/src/source/chained.rs:238-278 | the whole iteration, past errors too, is what walking up the heights gives: the block where one is covered, one error per uncovered stretch |
| `ChainedRun.ChainedIsHonest` | checkpoint-builder/src/source/chained.rs:212-218 | every item is the root its owner has at that height |
| `ChainedRun.GetRangeIs` | checkpoint-builder/src/source/chained.rs:220-222 | succeeds if and only if every height is covered, with exactly those heights |
| `RangeCheck.ValidateRanges` | checkpoint-builder/src/config.rs:436-503 | on any source, passes if and only if the source answers for every range with as many blocks as it has |
| `ChainedRun.PresentIffCovered` | checkpoint-builder/src/config.rs:467-496 | on chained databases that means every height of the range is covered |
| `ChainedRun.CheckedRunCompletes` | checkpoint-builder/src/config.rs:436-503 | once the check has passed, a run on chained databases sends the full output up to the limit, and only the channel can stop it |
| `ArchiveRun.PresentIffAnswered` | checkpoint-builder/src/config.rs:467-496 | over HTTP that means every batch of the range is answered |
| `ChainedRun.BuilderOnChained` | checkpoint-builder/src/main.rs:220-316 | on chained databases: always a prefix of the full output, on success all of it, and with every height covered only the channel stops it |
| `ArchiveRun.BuilderOnArchive` | checkpoint-builder/src/source/archive.rs:128-186 | the same over HTTP while the archiver goes on writing: each request may find another version of the store, and the rows are over the roots that every version holds at the heights it serves |
| `ArchiveRun.AnswersAreFromRootsIff` | checkpoint-builder/src/source/archive.rs:115-125 | whatever the store does between the requests, a full answer has every height once and in order, and is height by height given roots if and only if each batch found a version that holds them over that batch |
| `EndToEnd.CheckpointsOfTheSourceChain` | archiver/src/anchor.rs:3-15 | joined with the archiver: if each request finds a store some run reaches, with tips on one chain, the builder sends nothing but the checkpoint chain over the roots of that chain, and all of it when it succeeds |
| `EndToEnd.ReanchorBetweenRequests` | checkpoint-builder/src/source/archive.rs:115-125 | if the archiver re-anchors from one chain to another between two requests, each reply has the roots of its own chain, and the joined answer those of the first chain if and only if both chains have the same roots over the second reply |
| `ArchiveRun.HonestIffServes` | checkpoint-builder/src/source/archive.rs:128-135 | what the client hands on are given roots if and only if every version that answers holds them over the heights it serves |
| `SharedProof.BuildSharedContinuityProof` | scripts/utils.js:735-812 | the outcome, error cases included, is the one the collected roots and digests determine |
| `SharedProof.OutcomeMeans` | scripts/utils.js:735-812 | each outcome told by the proofs alone, whether they agree or not: no digest if no proof is at the lowest height, else not covered, else a missing root, else the digest of the last proof at the lowest height and the first root any proof has for each height up to the highest covered |
| `SharedProof.RootMapIs` | scripts/utils.js:752-771 | a height has a root if and only if some proof covers it, and then the first such proof's |
| `SharedProof.OrderDoesNotMatter` | scripts/utils.js:735-812 | for proofs that agree where they meet, neither order nor repetition changes the outcome |
| `SharedProof.OneChainIgnoresOrder` | scripts/utils.js:735-812 | any reordering of proofs from one chain has the same outcome |
| `SharedProof.MergeSucceedsIffNoHole` | scripts/utils.js:794-802 | for proofs from one chain the merge succeeds if and only if they leave no hole |
| `SharedProof.MergedIsPiece` | scripts/utils.js:808-811 | the merged proof is a piece of that chain from the lowest query to the highest covered height |
| `SharedProof.MergePreservesMeaning` | primitives/attestor/src/block.rs:244-254 | chaining the merged proof reaches at each query's last height the digest its own proof reaches |
| `SharedProof.SharedCoversUnlessEmpty` | scripts/utils.js:783-802 | a merged proof reaches every query if and only if some proof has a root |
| `SharedProof.EmptyProofsMerge` | scripts/utils.js:783-802 | an empty proof merges into an empty proof |

## Left out

- Networking, timeouts, task scheduling, signals and the HTTP server: they appear only as steps, attempts or replies that may come in any order.
- The root stream, the chain clients, the embedded database and the hash functions: used through the assumptions above.
- Runtime, node, pallets, command lines, prompts, logging and progress reporting: wiring and input or output.
- Gas estimation, attestor scripts and the proof server's configuration: arithmetic and extrinsics around code that is not part of this model.
- Merging shards and foreign-content listing: copies built from the store operations modelled here.
- `count_outside`: two counts over the scans modelled here.
- Parsing of range texts and hexadecimal: configurations and roots enter as values.
- The counter after a crash: the persisted count and the database may then differ; the count is proved over clean reopens.
- Ages and counts in the health snapshot other than the head's: passed through to the reader, no decision depends on them.
- Backfill.FillGap: states the store after a gap, not how many blocks wait between two writes; `BackfillSteps.WriteIsGapWrite` is about each write.
- RootStoreModule.RootStore.TruncateAbove: the batched deletion is one step, so a crash inside it is a crash before or after it.
- ChainedSource.ResolveSpans: databases that hold the last u64 are not modelled, so the successor of a covered height does not wrap.
- ChainedSource.SpansOf: the same.
- ChainedSource.Open: the same.
- BuilderRun.ProcessBlocks: what it makes of the wrapped genesis configuration, which is accepted although its ranges do not join, is not modelled.
- ArchiveRun.PresentIffAnswered: ranges that end at the last u64 are not modelled, so the block count does not wrap.
- ByteCodec.EndsRefine: keys and heights only; a value of a length the store never writes is a height with zero hashes in the height map, and only the range read is proved to fail on it.
- Api.FetchAll: ends within one batch of the last u64 are not modelled, so the batch arithmetic does not wrap.
- SharedProof.BuildSharedContinuityProof: heights are unbounded integers rather than JavaScript numbers, and roots and digests are always present strings.
