# Verified model of the sync client's cores

A Dafny model of the self-contained cores of the SelfSync Obsidian client, with proofs. Each module
follows one source file or one mechanism; code that updates state step by step is a method or a class
here, proved against a function whose properties are then proved as lemmas.

Verify everything with `dafny verify dfyconfig.toml`.

| file | what it models |
|---|---|
| `Lcs`, `Text` | the LCS table with its backtracking walk; lines, joining and line-end normalisation |
| `Merge`, `Merge3` | the decomposition of three texts into anchors and gaps and its laws; the merge function itself |
| `LineDiff`, `StrippedDiff` | the two diff renderers, minimality, and when stripping common ends changes the drawn diff |
| `Chunker` | the gear table, the rolling hash in 32-bit arithmetic and the boundary scan |
| `FlipGuard` | the rewrite-loop breaker |
| `ConfigWalk` | the semaphore and the concurrent tree walk as interleaved steps under any scheduler |
| `MountFsm`, `MountLoop` | the mount lifecycle, the mass-deletion guard, and passes with failures and user actions in between |
| `Persist` (with `Mutex`) | single-flight persistence with its two timers and unloading; the chained-promise mutex |
| `Mounts`, `MountIo` | mount path algebra, the rules for mount sets, the re-keyed listing |
| `PathIdentity`, `BaseStore` | identity keys, the index of first spellings, the base with its memoised index |
| `ConflictName` | conflict-copy and kept-both names and the parser |
| `PushPreview` | the stamp comparison behind the push and pull buttons |
| `Wrappers` | a value that may be missing |

## What is abstract

- Lines are values of any type where only equality matters (LCS, decomposition, diffs) and strings where
  texts are split and joined. Strings are sequences of characters; a line end is what the source calls one.
- NFC and lower-casing are two fixed, otherwise unknown functions (`canon`, `lower`, `Unicode`).
- Awaits are cut points: `ConfigWalk`, `MountLoop`, `Persist` and `Mutex` are machines whose steps are the
  pieces between awaits, and results hold for every finite sequence of steps.
- Adapter, source and disk answers are parameters of the steps. `reconcileAll`, `reconcileDelta` and the
  source's readiness only succeed or throw. `decideReconcileMode` is as in `client/src/reconcile.ts:275-279`, and
  `BULK_DELETE_MIN` is its 6 (`client/src/reconcile.ts:203`). A date has its fields in range.
- Clocks, dates and versions are numbers given by the caller; persisted states are numbered versions.

## Where code and documentation disagree

The model follows the code in each case.

- `client/src/noteconflict.ts:64-66` says that stripping common ends leaves the diff identical. It need not:
  `StrippingKeepsTheDiffIff` gives the exact condition and `StrippingCanChangeTheDiff` an input. Below the cell cap the
  number of changed lines is the same (`UnifiedChanges`).
- `client/src/flipguard.ts:57-58` calls the release one-shot. It stands until the loop settles, and the released
  content passes every time it returns till then: `ReleaseStandsIff` and `ReleasedContentHeldIff` give the exact rule
  over every run, `ReleasedLoopGoesOn` a loop that goes on.
- `client/src/main.ts:3873` says that unload flushes. The long timer is cleared without a write:
  `UnloadSavesIff` gives the exact condition, `UnloadCanLose` a run.
- `client/src/main.ts:3928` only logs a failed write, after the dirty flag was cleared: `FailedWriteLosesIff`
  gives the exact condition under which the change is still covered, `FailedWriteCanLose` a run.
- `client/src/main.ts:3342-3343` updates the mount state "durably" and calls `persist` without setting the dirty flag:
  `HookChangeIsWrittenIff` says when the call writes it, `UnmarkedStaysUnwritten` that otherwise nothing later does
  until something marks, `HookCanLose` gives a run.
- `client/src/base.ts:99-101` says a kept-both name is never in the conflict scheme. With a counter of fourteen
  digits and a stem that holds the key it is: `KeptBothIsCopyIff`, `KeptBothCanBeCopy`. No caller reaches such a counter.
- `client/src/mountio.ts:36-39` learns the on-disk spelling of a mount point once. Files spelled otherwise are
  listed under keys that lead elsewhere: `LaterListedThenReadIff`, `SecondSpellingIsLost`.

## Model

| member | source | states |
|---|---|---|
| `Lcs.FillTable` | client/src/merge.ts:35-38 | the nested loops fill the whole table with the LCS length of every pair of suffixes, defined independently by recursion on the two sequences |
| `Lcs.LcsPairs` | client/src/merge.ts:33-46 | table plus cursor walk return exactly the alignment that the theorems below are about |
| `Lcs.PairsAreAlignment` | client/src/merge.ts:32-46 | the pairs increase strictly in both indices and each joins equal lines |
| `Lcs.PairsOptimal` | client/src/merge.ts:33-46 | optimality: no alignment of the two inputs, whatever it is, has more pairs |
| `Lcs.AlignmentAtMostLen` | client/src/merge.ts:36-38 | no common subsequence is longer than the table's entry |
| `Lcs.WalkLength` | client/src/merge.ts:40-44 | the backtrack never loses a pair against the table, from any cell |
| `Lcs.GapSidesDisjoint` | client/src/merge.ts:39-45 | no line stands on both sides of the same gap between consecutive pairs |
| `Lcs.SelfPairsAreIdentity` | client/src/merge.ts:33-46 | a text aligned with itself is the identity alignment |
| `Lcs.StripPrefixLen` | client/src/noteconflict.ts:64-68 | a common prefix contributes exactly its length to the LCS |
| `Lcs.StripSuffixLen` | client/src/noteconflict.ts:69-70 | so does a common suffix |
| `Text.JoinSplitLines` | client/src/merge.ts:28-30 | joining the lines of a text with LF gives the text back, the empty text included |
| `Text.SplitLinesInjective` | client/src/merge.ts:28-30 | texts with the same lines are the same text |
| `Text.SplitJoin` | client/src/merge.ts:97 | the other way: lines without LF survive being joined and split |
| `Text.NormUndoesCrlfSave` | client/src/merge.ts:56-62 | for every text, normalising its CRLF re-save gives what normalising the text itself gives; nothing is claimed about normalising twice, which `\r\r\n` refutes |
| `Text.NormCrlfKeeps` | client/src/merge.ts:61 | a text without CRLF is left alone |
| `Text.NormCrlfAt` | client/src/merge.ts:61 | a CRLF at any position becomes an LF, the text on either side being normalised by itself; with the row above this says what becomes of every text |
| `Text.NormEolKeeps` | client/src/noteconflict.ts:60 | a text without CR is left alone |
| `Text.NormEolAtCrlf` | client/src/noteconflict.ts:60 | a CRLF at any position becomes an LF |
| `Text.NormEolAtCr` | client/src/noteconflict.ts:60 | so does a CR at any position that no LF follows |
| `Text.StripTrailingLf` | client/src/noteconflict.ts:60 | the text without a run of LFs at its end, not ending in LF |
| `Text.SplitAcross` | client/src/merge.ts:28-30 | a separator at any position splits the text in two |
| `Text.NoLinesIff` | client/src/merge.ts:28-30 | only the empty text has no line |
| `Text.NormOfWritten` | client/src/merge.ts:56-62 | a text written with any mixture of LF and CRLF normalises to its lines joined by LF |
| `Merge.SidesRebuilt` | client/src/merge.ts:73-95 | gaps and anchors, woven back together, rebuild base, local and remote exactly |
| `Merge.MergedIsTheTextWithEveryChange` | client/src/merge.ts:82-95 | a text consists of the anchors with, in every gap, every change either side made and nothing else, if and only if the merge is clean and the text is its output: no change dropped, none invented |
| `Merge.PassSymmetric` | client/src/merge.ts:71-95 | exchanging local and remote keeps the verdict and, when clean, the merged lines |
| `Merge.CleanMergeConservesLines` | client/src/merge.ts:71-97 | for every line: count in merged = local + remote - base, minus what gaps changed alike on both sides added over their base |
| `Merge.CleanMergeKeepsNewLines` | client/src/merge.ts:48-50 | a line new on either side is in a clean merge at least as often as on that side |
| `Merge3.ResolveGap` | client/src/merge.ts:82-88 | the closure appends the chosen side and clears the flag exactly on a conflicting gap |
| `Merge3.ResolveGaps` | client/src/merge.ts:79-95 | the loop over anchors with its three cursors computes the merged weave of the decomposition and its verdict |
| `Merge3.FindAnchors` | client/src/merge.ts:73-77 | the base lines aligned on both sides, in order |
| `Merge3.AnchorPass` | client/src/merge.ts:71-95 | the whole pass, from the two alignments to the output lines |
| `Merge3.Merge3` | client/src/merge.ts:55-98 | normalisation, the three early exits, the line cap and the pass, in the source's order |
| `Merge3.EarlyExitsAgree` | client/src/merge.ts:63-65 | wherever the line cap lets the pass run, it gives the same text and verdict as each early exit |
| `Merge3.LocalUnchanged` | client/src/merge.ts:64 | with local equal to base the pass is clean and gives remote |
| `Merge3.RemoteUnchanged` | client/src/merge.ts:65 | with remote equal to base it is clean and gives local |
| `Merge3.SidesAgree` | client/src/merge.ts:63 | with local equal to remote it is clean and gives that text, whatever the base |
| `Merge3.MergeSymmetric` | client/src/merge.ts:55-98 | symmetry of the whole function on raw texts, early exits and cap included |
| `Merge3.CrlfResaveIsNoChange` | client/src/merge.ts:56-62 | a CRLF re-save of one side is no change, whatever line ends the base has: the merge is clean and takes the other side |
| `Merge3.UniqueLineIsAligned` | client/src/merge.ts:33-46 | a line standing once on each side, with the same text behind it, is aligned by every such call |
| `Merge3.SeparatedEditsMergeCleanly` | client/src/merge.ts:48-50 | edits on the two sides of a line that is unique in all three texts always merge cleanly, and the result is both edits |
| `Merge3.SeparatedEditsOnDisk` | client/src/merge.ts:55-98 | the same for whole texts of at most 5000 lines as editors write them, each line of each text ending in LF or CRLF: the function answers clean with both edits |
| `Merge3.TooLongKeepsLocal` | client/src/merge.ts:68-70 | three different texts, one of more than 5000 lines: the local one, not clean |
| `LineDiff.DiffChangesAtLeast` | client/src/noteconflict.ts:57-97 | any list of marked lines that rebuilds both texts marks at least old + new - 2 LCS lines as changed |
| `LineDiff.PlainIsDiff` | client/src/pushpreview.ts:111-119 | context plus deletions is the old text, context plus additions the new one |
| `LineDiff.PlainIsMinimal` | client/src/pushpreview.ts:107-121 | no list of marked lines that rebuilds both texts has fewer changes |
| `LineDiff.UnifiedIsDiff` | client/src/noteconflict.ts:72-96 | both sides are rebuilt on the LCS path, on the over-cap path and around the stripped ends |
| `LineDiff.UnifiedChanges` | client/src/noteconflict.ts:64-93 | up to 2,000,000 cells, changed lines + 2 LCS of the unstripped texts = old + new: stripping ends costs nothing; above, the whole middles are shown changed |
| `LineDiff.UnifiedIsMinimal` | client/src/noteconflict.ts:57-97 | up to 2,000,000 cells, no list of marked lines that rebuilds both texts has fewer changes |
| `LineDiff.UnifiedSilentIff` | client/src/noteconflict.ts:58-62 | the diff shows no change if and only if the two line lists are equal, on every path |
| `LineDiff.CommonEnds` | client/src/noteconflict.ts:67-70 | the two counting loops find the longest common prefix and the longest common suffix that does not overlap it |
| `LineDiff.EmitPairs` | client/src/noteconflict.ts:85-92 | the cursor loops draw exactly the diff of an alignment, deletions before additions |
| `LineDiff.DrawMiddle` | client/src/noteconflict.ts:77-93 | the middle is drawn by alignment below the cell cap and wholly replaced above it |
| `LineDiff.UnifiedLines` | client/src/noteconflict.ts:67-96 | ends, middle and ends in order |
| `LineDiff.UnifiedLineDiff` | client/src/noteconflict.ts:57-97 | the whole function on raw texts: of texts without CR and without LF at the end both sides are rebuilt to the character, and no change is shown only for equal texts; for other texts, what the rows on line ends say of their lines |
| `LineDiff.LinesOfSettled` | client/src/noteconflict.ts:60-62 | the lines of a text without CR and without LF at the end, joined, are the text |
| `LineDiff.LinesAcrossLineEnds` | client/src/noteconflict.ts:60-62 | CRLF at any position, and CR that no LF follows, count as LF |
| `LineDiff.LinesWithoutTrailingLf` | client/src/noteconflict.ts:60-62 | an LF at the end counts for nothing |
| `LineDiff.PreviewDiff` | client/src/pushpreview.ts:107-121 | the preview diff rebuilds both raw texts with fewest changes, and is refused exactly above 2000 lines in all |
| `StrippedDiff.StrippingKeepsTheDiffIff` | client/src/noteconflict.ts:64-73 | below the cap the stripped diff is the unstripped one line for line if and only if the shared tail is empty or its first line does not stand, in the middles, among the new lines behind the last pair `lcsPairs` returns (the old ones if there are no such new lines) |
| `StrippedDiff.ForeignTailKeepsTheDiff` | client/src/noteconflict.ts:64-73 | so they agree whenever the tail's first line occurs in neither middle |
| `StrippedDiff.StrippingCanChangeTheDiff` | client/src/noteconflict.ts:64-66 | the comment that the emitted diff is identical is false: [a,x] against [b,x,x] differs, with the same number of changes |
| `StrippedDiff.DiffDetermined` | client/src/noteconflict.ts:83-92 | a diff that puts deletions first is determined by the two texts and the alignment it shows |
| `Chunker.GearIsCongruential` | client/src/chunker.ts:6-11 | the signed 32-bit multiplication with its unsigned reading is the plain linear congruence mod 2^32 |
| `Chunker.FillGear` | client/src/chunker.ts:6-11 | the loop fills all 256 entries: the first is 265559828, each next one 1103515245 times the one before plus 12345 mod 2^32 |
| `Chunker.HashIsSum` | client/src/chunker.ts:36-38 | the rolling hash is the weighted sum of its bytes' table entries mod 2^32 |
| `Chunker.LowBitsAreWindowed` | client/src/chunker.ts:38-40 | its low 14 bits depend on the last 14 bytes only |
| `Chunker.RollingTestIsWindowed` | client/src/chunker.ts:38-40 | at every position the rolling cut test is the non-rolling window test |
| `Chunker.CutRule` | client/src/chunker.ts:3-11 | the rule in numbers: from 2048 bytes on a chunk ends where the weighted sum of its last 14 bytes is a multiple of 16384, at 65536 in any case |
| `Chunker.Chunk` | client/src/chunker.ts:34-46 | the scan with its running hash returns the slices of the windowed, non-rolling specification, whose next cut is the least allowed one |
| `Chunker.ChunksPartition` | client/src/chunker.ts:41-45 | the slices in order are the input |
| `Chunker.ChunkLengths` | client/src/chunker.ts:39-45 | every slice is at most 65536 long, every slice but the last at least 2048, and none is empty unless the input is |
| `Chunker.CutsOfPrefix` | client/src/chunker.ts:25-27 | appending bytes keeps every cut: the cuts of x are a prefix of those of x followed by y |
| `Chunker.CommonSuffixSharesChunks` | client/src/chunker.ts:25-27 | two inputs cut where their common suffix starts have the same chunks from there on |
| `Chunker.BoundaryIsCut` | client/src/chunker.ts:39-40 | a window boundary is cut unless a cut precedes it by less than MIN |
| `Chunker.BoundaryResynchronises` | client/src/chunker.ts:25-27 | after an edit the first boundary in the common suffix without a close cut before it in either input makes all later chunks equal |
| `FlipGuard.FlipGuard.constructor` | client/src/flipguard.ts:32-35 | an empty guard with limit 6 and a ten-minute window by default |
| `FlipGuard.FlipGuard.Record` | client/src/flipguard.ts:38-55 | the path's new entry, the verdict and the flip count; every other path is unchanged |
| `FlipGuard.FlipGuard.Release` | client/src/flipguard.ts:59-62 | sets the released hash to the last content of a path that has one and changes nothing else |
| `FlipGuard.FlipGuard.Held` | client/src/flipguard.ts:64-71 | exactly the paths with at least limit flips not older than the window whose last content is not the released one; nothing changed |
| `FlipGuard.VerdictIsHeld` | client/src/flipguard.ts:38-71 | right after a record the path is held at that time if and only if the verdict was to hold |
| `FlipGuard.FlipsOnRun` | client/src/flipguard.ts:38-55 | on a fresh path, said on the run of records: a repeat adds no flip, a record that brings back content or shape of a change still in the window adds exactly one, any other forgets all, and flips out of the window are dropped |
| `FlipGuard.DifferentContentsPass` | client/src/flipguard.ts:1-16 | ordinary editing is never held: contents that differ from one another, in shape too where they have one, make no flip, whatever the clock |
| `FlipGuard.LoopBounded` | client/src/flipguard.ts:31-55 | from any state, records at non-decreasing times in one window let pass at most limit contents per value (hash or shape) new to the window, plus what the counted flips leave |
| `FlipGuard.FreshLoopBounded` | client/src/flipguard.ts:1-7 | a loop among k hashes (or k shapes) on a fresh path passes at most k times the limit content changes per window |
| `FlipGuard.StamperBounded` | client/src/flipguard.ts:9-12 | a writer of never-seen hashes with one shape passes at most limit times per window |
| `FlipGuard.RepeatsOnlyAge` | client/src/flipguard.ts:42-51 | any number of repeats of the last content, as time goes on, only ages the entry: no flip and no observation is added |
| `FlipGuard.ReleaseStandsIff` | client/src/flipguard.ts:51-62 | over every run of records, whatever the clock, the shapes and the order, a release is still in force at the end if and only if no record settled the loop, that is: was a repeat that found all flips aged out, or brought content that does not return |
| `FlipGuard.ReleasedContentHeldIff` | client/src/flipguard.ts:51-62 | after any run, released content is held again if and only if the loop settled meanwhile and has since flipped up to the limit; other content is held at the limit as ever |
| `FlipGuard.ReleasedLoopGoesOn` | client/src/flipguard.ts:57-62 | the override is not one-shot as documented: on a fresh path, for every limit, a moving-clock loop of two contents is caught after limit + 2 records, and one release lets it pass in every later round of the window with the release still in force |
| `ConfigWalk.Semaphore.Acquire` | client/src/configwalk.ts:26-28 | a free slot is taken, otherwise the caller joins the end of the queue |
| `ConfigWalk.Semaphore.Release` | client/src/configwalk.ts:30 | the slot goes to the head of the queue, or back to the count when nobody waits |
| `ConfigWalk.StepKeepsInv` | client/src/configwalk.ts:22-68 | every scheduler step keeps: slots free plus held is the limit, waiters queue in order without repetition, and a non-empty queue means no free slot |
| `ConfigWalk.StepConserves` | client/src/configwalk.ts:48-65 | every step keeps work done plus work owed, for every directory, file and counter |
| `ConfigWalk.WalkIsBounded` | client/src/configwalk.ts:19-31 | under every schedule at most max(1, limit) adapter calls are in flight, slots are neither lost nor made, waiters are served in order, and the steps are fewer than three per folder reached and passing listing |
| `ConfigWalk.NeverStuck` | client/src/configwalk.ts:26-31 | while a task is unfinished some step is possible: no deadlock and no lost wake-up |
| `ConfigWalk.WalkIsSequential` | client/src/configwalk.ts:34-68 | when nothing more can happen, under any schedule, entries, statistics and reported errors are those of the sequential depth-first walk, with unlistable subtrees skipped, and all slots are free |
| `ConfigWalk.OutcomeOfTree` | client/src/configwalk.ts:34-68 | at rest, under any schedule: a file has an entry if and only if it is listed in some listable folder of the tree, passes, and its stat does not throw; the counts are those of folders reached and passing listings; every unlistable folder is reported |
| `ConfigWalk.EntryOfStat` | client/src/configwalk.ts:58-59 | an entry holds the stat's mtime, size and ctime, absent times and sizes read as zero, a null stat as all absent |
| `MountFsm.EntersDetached` | client/src/mountfsm.ts:41-62 | which states and events lead into detached and mounting, both directions |
| `MountFsm.EntersSettled` | client/src/mountfsm.ts:41-62 | into live, diverged and syncing: a clean pass settles every active state live, a conflict diverges it |
| `MountFsm.EntersTrouble` | client/src/mountfsm.ts:41-62 | into offline, local-gone, failed and unmounting |
| `MountLoop.MassLocalDeletion` | client/src/mountengine.ts:194-219 | holds exactly on the stated condition: folder gone, or all or a bulk of the base unlisted and at least one of those not found by the probe, where there is one |
| `MountLoop.MustHoldIff` | client/src/mountengine.ts:194-219 | that condition by positions: all or at least six base paths unlisted, and one of them not found by the probe |
| `MountLoop.ClearedPassFacesNoWipe` | client/src/mountengine.ts:182-219 | a cleared pass over a non-empty base has a base path still present, and fewer than the bulk minimum gone by both listing and probe |
| `MountLoop.MountRuntime.NoteHistoryFloor` | client/src/mountengine.ts:230-237 | raise only, unless authoritative, when the observation replaces the floor |
| `MountLoop.MountScope.Begin` | client/src/mountsync.ts:75-80 | skips an inactive scope, takes the full flag once, and starts the pass |
| `MountLoop.MountScope.Settle` | client/src/mountsync.ts:96-100 | a completed pass clears the failures and lands live or diverged |
| `MountLoop.MountScope.Catch` | client/src/mountsync.ts:102-104 | a throw counts a failure and lands offline, or failed at the limit |
| `MountLoop.StepKeepsInv` | client/src/main.ts:3318-3366 | every event of the loop (request, nudge, pass steps, throws, retry, unmount, unload) keeps the invariant from which the next rows follow |
| `MountLoop.PollFollowsTheAnswer` | client/src/mountsync.ts:32-58 | a poll is idle if and only if nothing forces or resets it, the source reports no upsert and no deletion and the version is the cursor's; any other change without a reset goes to an incremental pass; a rewind, a risen floor or a forced pass to the guard and a full one |
| `MountLoop.DriveRule` | client/src/mountsync.ts:75-85 | how a pass starts: first contact and reconnect in full once the source is ready, a scope in step in full only if forced, any other not at all, the forced flag taken |
| `MountLoop.NotReadyIsAFailure` | client/src/mountsync.ts:85 | an unready source is not read and counts as a failure |
| `MountLoop.PassLeavesTheScope` | client/src/mountsync.ts:96-104 | in every reachable state a completed pass leaves the scope diverged after a conflict and else live, a throw offline, or failed at the third in a row |
| `MountLoop.FailsAreInARow` | client/src/mountsync.ts:96-104 | along every run the failure counter is the number of failures since the last completed pass or retry |
| `MountLoop.FullPassRecordsTheFloor` | client/src/mountsync.ts:59-65 | a completed full pass records exactly the reported floor after a rewind, else the higher of it and the recorded one |
| `MountLoop.RequestIsTaken` | client/src/main.ts:3325-3326 | a request starts a pass at once or is kept for the end of the running one; a forced one marks the scope in either case |
| `MountLoop.FailedIsRetried` | client/src/main.ts:3337 | a failed scope whose delay has passed is taken up again in full, its failures forgotten |
| `MountLoop.UnloadStopsThePasses` | client/src/main.ts:3353-3355 | after unload no pass begins on the scope, whatever is requested |
| `MountLoop.ForcedPassNeverLost` | client/src/mountsync.ts:74-108 | after a forced request the next pass that starts later and completes is full, across throws, offline, failed, local-gone and requests arriving mid-pass |
| `MountLoop.ForcedPassIsDue` | client/src/main.ts:3804-3817 | while a forced request is unserved, the next start is full, or a full pass begun after it is running |
| `MountLoop.RequestNeverDropped` | client/src/main.ts:3323-3326 | a request made during a pass is served by a pass begun right at its end, unless the plugin unloads |
| `MountLoop.ActiveScopeBelowLimit` | client/src/mountsync.ts:102-105 | in every reachable state an active scope has fewer failures than the limit, and an in-flight pass never finds it detached, failed or gone |
| `MountLoop.UnmountingIsFinal` | client/src/main.ts:3530-3537 | no event takes a removed scope out of unmounting, an in-flight pass included, and no new pass drives it |
| `MountLoop.RemovedIsNeverDriven` | client/src/main.ts:3530-3537 | a scope removed in any state, detached included, that no pass is working on keeps that state for good and is never driven again |
| `MountLoop.RemovalIsFinal` | client/src/main.ts:3530-3537 | from the removal on, with no pass at work, the scope stays unmounting (or detached) and is never driven |
| `MountLoop.FloorMovesOnlyByFullPass` | client/src/mountsync.ts:50-65 | a recorded floor changes only when a full reconcile completes, by a rewind or to the higher observed floor |
| `MountLoop.TruncationNeverSkipped` | client/src/mountsync.ts:37-66 | once the source's floor has passed the recorded one, no pass completes and the floor stays put until a full reconcile has completed, so the reset fires again after every throw or hold |
| `MountLoop.FullOnlyAfterGuard` | client/src/mountsync.ts:51-57 | in every reachable state the next event starts a full reconcile if and only if it is a run of the mass-deletion guard whose base and adapter answers clear it; one that they do not clear holds the scope as local-gone, or leaves it unmounting |
| `MountLoop.FullPassFacesNoWipe` | client/src/mountengine.ts:182-219 | along every run, a full reconcile over a non-empty base had some base path still present, fewer than the bulk minimum gone by listing and probe, and the mount folder there as far as that can be probed |
| `Persist.Plugin.PersistEntry` | client/src/main.ts:3914-3923 | persist up to its await: nothing when clean, a re-run request when a write runs, otherwise one write of the current version |
| `Persist.Plugin.AfterWrite` | client/src/main.ts:3927-3930 | the loop test after the awaited write, success or failure |
| `Persist.Plugin.SaveSettings` | client/src/main.ts:3867 | marks and persists |
| `Persist.Plugin.SchedulePersist` | client/src/main.ts:3900-3905 | marks and arms the short timer unless unloading or armed |
| `Persist.Plugin.SchedulePersistLazy` | client/src/main.ts:3874-3878 | marks and arms the long timer unless unloading or armed |
| `Persist.Plugin.FlushSettings` | client/src/main.ts:3887-3891 | clears both timers and persists |
| `Persist.Plugin.OnUnload` | client/src/main.ts:759-785 | clears the long timer; persists only if the short one was armed |
| `Persist.StepKeepsInv` | client/src/main.ts:3867-3931 | every event but a failed write keeps the no-lost-update invariant and never moves the disk back |
| `Persist.NoMarkedChangeIsLost` | client/src/main.ts:3906-3931 | along every run with successful writes the last marked version is on disk, in the running write or dirty, and while loaded a dirty flag has a timer or a re-run |
| `Persist.QuietMeansSaved` | client/src/main.ts:3892-3895 | at rest the last marked version is on disk |
| `Persist.SavingReachesTheDisk` | client/src/main.ts:3867-3891 | along every run, saving at once, flushing a set flag and either timer firing on a set flag bring all of memory to disk once the writes have drained |
| `Persist.ScheduledSurvivesUnload` | client/src/main.ts:3879-3885 | along every run, a change scheduled on the short timer is on disk after unload and drain |
| `Persist.LazyDoesNotSurviveUnload` | client/src/main.ts:3868-3878 | along every run, a lazily scheduled one, with the short timer idle and no re-run owed, is not |
| `Persist.StepKeepsHonest` | client/src/main.ts:3914-3931 | every event, failed writes included, keeps: a dirty flag or running write means an unsaved marked change, which the running write carries unless the flag was set again |
| `Persist.FailedWriteLosesIff` | client/src/main.ts:3921-3928 | along every run, earlier failures included, a failed write leaves the last marked change covered if and only if the dirty flag was set again during the write |
| `Persist.FailedWriteCanLose` | client/src/main.ts:3921-3928 | one change, one failed write: neither on disk nor dirty, and no timer armed |
| `Persist.UnloadSavesIff` | client/src/main.ts:3873 | along every run, unloading saves a marked change not already lost to a failed write if and only if a set dirty flag comes with the short timer or a pending re-run: the comment that unload flushes a lazy change is false |
| `Persist.UnloadCanLose` | client/src/main.ts:777-783 | a lazily scheduled change followed by unload is lost with every write successful |
| `Persist.HookChangeIsWrittenIff` | client/src/main.ts:3342-3343 | along every run, the mount hook's change is written by the persist it calls if and only if the dirty flag happened to be set |
| `Persist.UnmarkedStaysUnwritten` | client/src/main.ts:3342-3343 | a change that came with a clear flag stays off the disk through every later run in which nothing marks |
| `Persist.HookCanLose` | client/src/main.ts:3342-3343 | two mount events on a fresh plugin: both changes are off the disk, with nothing dirty and no timer armed |
| `Mutex.ExclusiveInOrder` | client/src/main.ts:435-442 | under every interleaving at most one call runs, and calls run in the order they were made |
| `Mutex.NeverStuck` | client/src/main.ts:440-441 | while a call is unfinished, one at or before it can begin or finish; a failed call releases too |
| `Mounts.SegmentsAreBare` | client/src/mounts.ts:11-36 | a folder's segments are the bare segments of the raw path, and joining them is the normal form |
| `Mounts.NormFolderIdempotent` | client/src/mounts.ts:17-19 | the path normaliser (not the one for configured folders) is idempotent |
| `Mounts.SegsAcross` | client/src/mounts.ts:11-36 | a slash at any position separates the segments before it from those behind it |
| `Mounts.SegsOfPiece` | client/src/mounts.ts:11-36 | a piece without slash is one segment, unless it is empty, one dot or two dots |
| `Mounts.UnderIffPrefix` | client/src/mounts.ts:38-46 | under-or-equal means that the canonical segments of one start those of the other; equal, that they are the same |
| `Mounts.ClaimsIff` | client/src/mounts.ts:53-58 | a mount claims exactly the paths that canonically start with its non-empty point |
| `Mounts.SharedClaimIffOverlap` | client/src/mounts.ts:41-58 | two mounts have a common local path if and only if one mount point is under or equal to the other |
| `Mounts.ValidateMounts` | client/src/mounts.ts:134-154 | the messages, in the order the two loops report them |
| `Mounts.ReportedIffFault` | client/src/mounts.ts:129-154 | a message is reported if and only if what it says of the set is so |
| `Mounts.NoFaultsIffDisjoint` | client/src/mounts.ts:129-154 | no message if and only if every entry is sound and no two points overlap |
| `Mounts.ValidMounts` | client/src/mounts.ts:161-172 | the loop computes the greedy selection |
| `Mounts.PositionsSelect` | client/src/mounts.ts:156-157 | the selection is a subsequence of the input, positions strictly increasing |
| `Mounts.AcceptedAreDisjoint` | client/src/mounts.ts:156-172 | the selection gives no message |
| `Mounts.AcceptedAvoidConfig` | client/src/mounts.ts:156-172 | no accepted mount has, canonically, the configuration folder anywhere in its point or source |
| `Mounts.SoundIff` | client/src/mounts.ts:163-167 | an entry is acceptable by itself if and only if it has a point and neither folder has such a segment |
| `Mounts.AcceptedIsMaximal` | client/src/mounts.ts:156-160 | adding any entry of the input to the selection would give a message |
| `Mounts.NothingDroppedIffNoFaults` | client/src/mounts.ts:156-172 | the selection is the whole input if and only if the input gives no message |
| `Mounts.ClaimedByOneMount` | client/src/mounts.ts:53-62 | among mounts without a message no local path is claimed twice |
| `Mounts.PrimaryExcludesIff` | client/src/mounts.ts:59-62 | the primary scope leaves out exactly the paths that canonically start with some mount's point |
| `Mounts.NudgeFindsTheClaimant` | client/src/mounts.ts:64-77 | the nudge target is the one claiming mount whatever its position, none outside every mount and none for an echo |
| `Mounts.RelIffClaimed` | client/src/mounts.ts:82-87 | a local path translates if and only if the mount claims it |
| `Mounts.RelIffUnderSource` | client/src/mounts.ts:88-93 | a source path translates if and only if it canonically starts with the source folder |
| `Mounts.SegsOfUnder` | client/src/mounts.ts:94-103 | a path built under a folder has the folder's segments, then the path's own |
| `Mounts.RelOfLocal` | client/src/mounts.ts:82-98 | mount-relative to local and back is the normal form |
| `Mounts.RelOfSource` | client/src/mounts.ts:89-103 | mount-relative to source and back is the normal form, for a whole-source mount too |
| `Mounts.LocalOfRel` | client/src/mounts.ts:79-98 | local to mount-relative and back is the same path up to canonical form, and the very path if and only if it spells the mount point as configured |
| `Mounts.SourceOfRel` | client/src/mounts.ts:88-103 | the same for source paths |
| `Mounts.SourceThroughLocal` | client/src/mounts.ts:82-103 | a source path put on the local side is claimed by its mount and comes back as the same source path up to canonical form |
| `MountIo.MountedIo.constructor` | client/src/mountio.ts:40-41 | a mount's adapter starts without a learned spelling |
| `MountIo.MountedIo.List` | client/src/mountio.ts:48-58 | the re-keyed listing and the learned spelling after it, from any spelling known before |
| `MountIo.KeyIff` | client/src/mountio.ts:24-27 | a file gets a key if and only if the mount claims it, it is not the point itself, and the first segment behind the point is not the configuration folder in any case; the key is the rest |
| `MountIo.ListedIff` | client/src/mountio.ts:50-53 | a key is listed if and only if some file of the mount has it and it is data |
| `MountIo.LastOneCounts` | client/src/mountio.ts:53 | of several files with one key the last one's stat is listed |
| `MountIo.FirstFileTeaches` | client/src/mountio.ts:54-55 | the first file of the mount teaches its own spelling of the mount point |
| `MountIo.ListedThenReadIff` | client/src/mountio.ts:36-47 | after a first listing, a key leads back to the file it was listed for if and only if that file spells the mount point as the first one does |
| `MountIo.OneSpellingOneFile` | client/src/mountio.ts:36-39 | two different files collide in one key only when they spell the mount point differently |
| `MountIo.LaterListedThenReadIff` | client/src/mountio.ts:36-57 | the same after any number of listings: the latest listing's keys lead back exactly for files spelled like the very first one ever listed, so a folder re-spelled later is not followed |
| `MountIo.SecondSpellingIsLost` | client/src/mountio.ts:36-47 | an instance: `W/a` and `w/b` under the point `W` are both listed, and the key `b` does not lead back to `w/b` |
| `PathIdentity.SameFileRules` | client/src/pathidentity.ts:18-39 | which spellings are one file under each of the four rule sets |
| `PathIdentity.IdentityIndex` | client/src/pathidentity.ts:46-50 | the loop maps every identity key to its first spelling and nothing else |
| `PathIdentity.FirstIsFirst` | client/src/pathidentity.ts:45-50 | the first spelling is the key of that identity with none before it |
| `PathIdentity.FirstIsOne` | client/src/pathidentity.ts:45-50 | nothing is found if and only if no key has the identity |
| `PathIdentity.IdentityGroups` | client/src/pathidentity.ts:56-65 | the groups, in order of first appearance, with distinct spellings in order |
| `PathIdentity.NoGroupIff` | client/src/pathidentity.ts:52-65 | no group if and only if no two different keys are one file, under all four filesystem rules |
| `BaseStore.BaseStore.constructor` | client/src/base.ts:26-36 | fresh entries with the same four fields under the same paths in the same order |
| `BaseStore.BaseStore.Set` | client/src/base.ts:38 | replaces the entry in place or appends the key; the memo stays right |
| `BaseStore.BaseStore.Delete` | client/src/base.ts:39 | removes exactly that key, those before and behind it keeping their order; the memo stays right |
| `BaseStore.BaseStore.FoldSibling` | client/src/base.ts:41-51 | in every reachable state and under any filesystem rules, whatever the memo was computed for: the first key in insertion order with the path's identity |
| `BaseStore.BaseStore.StampStat` | client/src/base.ts:55-58 | stamps the one entry and leaves its content fields, the keys and the memo alone |
| `BaseStore.SiblingsAgreeIffNoGroup` | client/src/pathidentity.ts:52-65 | every stored key finds itself if and only if no clashing group is reported for the store |
| `BaseStore.ResetKeyYields` | client/src/base.ts:38-51 | a key deleted and set again no longer represents its file when another spelling is stored |
| `ConflictName.SplitPathIs` | client/src/base.ts:90-95 | directory, stem and extension are recovered from the whole path: the split is a bijection onto well-formed parts |
| `ConflictName.MatchIff` | client/src/base.ts:128 | where the expression matches in a stem that ends in space, word, parenthesis: at the keys with text behind them, on one line, before a stamp |
| `ConflictName.MatchesIff` | client/src/base.ts:128 | what the expression matches: a one-line group, the key in any letter case, one-line text, a space, a stamp, the closing parenthesis |
| `ConflictName.IsStampIff` | client/src/base.ts:128 | a stamp is fourteen digits, then nothing or a dash and letters and digits |
| `ConflictName.OneLineIff` | client/src/base.ts:128 | one line excludes exactly LF, CR, U+2028 and U+2029 |
| `ConflictName.RoundTripIff` | client/src/base.ts:114-130 | for every path, device, date and tag, parsing a conflict copy's name gives the original back if and only if the year has four digits, the tag is of letters and digits, the device is non-empty, on one line, without slash and without a further key in it, the stem is on one line, and a name without extension has a device without dot; conflict copies of conflict copies included; a tag with a space is judged with all before its last space as part of the device |
| `ConflictName.CopyNamesDiffer` | client/src/base.ts:83-89 | two conflicts on one path and device share a name only if second and tag agree, for any tag and any year |
| `ConflictName.StampReadsBack` | client/src/base.ts:81-88 | a stamp's characters read back as year, month, day, hour, minute and second |
| `ConflictName.DayReadsBack` | client/src/base.ts:110 | a kept-both day's characters read back as year, month and day |
| `ConflictName.CopyNameSpelledOut` | client/src/base.ts:83-97 | one name written out |
| `ConflictName.KeptBothNameSpelledOut` | client/src/base.ts:103-112 | two names written out, the second note of a day counted as 2 |
| `ConflictName.KeptBothIsCopyIff` | client/src/base.ts:99-112 | a kept-both name parses as a conflict copy if and only if the note's stem holds a key on one line and the counter has fourteen digits |
| `ConflictName.KeptBothIsNoCopy` | client/src/base.ts:99-102 | so no counter below ten million million makes one, for any original; the one caller (`client/src/main.ts:1065-1066`) stops at 100 |
| `ConflictName.KeptBothCanBeCopy` | client/src/base.ts:99-112 | an instance with the smallest counter that does |
| `PushPreview.StampsConverged` | client/src/pushpreview.ts:72-84 | the loop with its early returns decides: as many files, and every stamp of the base agrees |
| `PushPreview.ConvergedIffSame` | client/src/pushpreview.ts:67-71 | for a base that lists each path once this is exactly: the same set of files and every stamp agrees |

## Left out

- User interface: modals, settings tab, setup wizard, status light, notices; no deep invariants.
- Transport, authentication, sockets, file access and `fsync`: calls into code that is not part of this model.
- The insides of `reconcileAll`, `reconcileDelta` and the sync engine: only their success or failure is used.
- `sha256hex` and the hashing of slices in `chunk` (`client/src/chunker.ts:17-23`, `47-48`): a map over the slices.
- `isMergeable`, `strictDecode`, `isTextExt` (`client/src/merge.ts:1-26`) and the invisible-difference helpers of `client/src/noteconflict.ts`: single-branch functions.
- `shapeOf` (`client/src/flipguard.ts:19-22`): shapes are values handed to `Record`; the timestamp expression is not modelled.
- FlipGuard.FlipGuard.Held: gives the set of paths; the sorted order of the list is not modelled.
- The sequencing of several mount scopes in one pass (`client/src/mountsync.ts:116-122`): `MountLoop` follows one scope, with the pass ahead of it, on it and behind it; the hooks' own work is left out.
- The mount parsers, `normMountFolder`, `MountedApi`, recipes and persistence formats: filters and defaults without an invariant of their own.
- `toJSON`, `get` and `paths` of the base store, and integer-like keys, which a JavaScript object would list first.
- `deriveNoteConflicts` (`client/src/base.ts:137-141`): a filter over the parser.
- Merge3.AnchorPass: the two maps from base index to side index are finite maps; their insertion order is not used.
- Termination of the loop pieces is proved; fairness of timers, schedulers and the network is not.
