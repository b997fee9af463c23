# Verified models of voom's evidence, backup and container tooling

This project models seven parts of the voom repository in Dafny 4.11 and proves what they
promise, over all inputs, all runs or all crashes. `dafny verify dfyconfig.toml` checks all of it.

| component | files | main results |
|---|---|---|
| greedy corpus selection | `CorpusSelection` | each pick is a best file among all that still fit the budget; without a budget, `k` picks miss at most the `(1 - 1/k)^k` share of the best coverage of any `k` files |
| threshold verdicts and publication timings | `Statistics`, `Verdict`, `Publication` | two separate implementations equal one reference without division or roots; no division by zero; medians of order statistics keep their order |
| crash-safe backup | `CrashDisk`, `Backup` | at every system call, a crash leaves the destination absent or complete; any number of failures and crashes followed by one clean attempt ends in the same outcome; the one way to lose a copy; when a copy survives every crash |
| partial fingerprints | `SamplePlan`, `SampleTotals`, `PartialFingerprint` | a plan is the one gap-separated list covering head, tail and samples; an edit is missed exactly when its byte is not in the plan |
| lazy hash lifecycle | `LazyWindow`, `EvidenceLifecycle`, `StateOnDisk`, `LifecycleStore`, `Starvation` | invariants of every interleaving, terminal revocation, what verification establishes, interruption, restart and power loss, the aged schedule |
| container guardian | `MountRoots`, `Guardian`, `LeaseProtocol` | when an operation leaves a container behind and when it ends without a status, exactly, under any engine failure; a closed lease ends the guardian within six steps with one cleanup attempt |
| frame streams | `Frames`, `NdjsonStream` | printed bodies split, scan and read back, for any cut into chunks; exactly when writer and reader are inverse |

`Basics` and `Sorting` hold shared vocabulary.

Assumptions are parameters with a stated property, never axioms. A digest is a function `h`, and a
result that needs it assumes that different inputs give different digests. The JSON codec decodes
what it encodes and prints no raw newline. The square root satisfies `sqrt(x) * sqrt(x) == x`.
Chunk sizes, iteration order over sets, drawn blocks, failing system calls, engine replies and
crash outcomes are inputs or nondeterministic choices, so the results hold for all of them.
Numbers in `Verdict` and `Publication` are exact reals.

Where the code does less than its own documentation says, the model follows the code and the
exact condition is proved:

- `back_up_file` is documented never to overwrite a non-matching destination. An entry that is there
  is replaced exactly when its metadata lookup fails and the source check, the directory creation,
  the copy and the rename succeed (`Backup.BackUpFile`).
- A backup attempt keeps every step crash-safe exactly unless a failed lookup lets it reopen a
  temporary file that the destination is linked to, as a crash after the rename may leave it; a
  finished copy is then emptied (`Backup.BackUpFile`, `Backup.FailedLookupLosesCopy`).
- A reported backup is documented as durable. It outlives every crash exactly when its directory
  is itself durable and its entry was synced (`Backup.SurvivesIff`). A retry after a failed
  directory sync reports success without syncing (`Backup.RetryAfterFailedSync`).
- `classify_reader` accepts no stream at all: the call after the terminal frame always fails
  (`NdjsonStream.ClassifyReader`), so only the scan tells a good body from one with a frame after
  the terminal one (`NdjsonStream.ScanTellsApart`).
- `_finish` does not recheck the record. Verified evidence is backed by read bytes exactly when the
  record still has the window that was read (`EvidenceLifecycle.FinishBackedIff`), which holds when
  a file's operations do not overlap (`SerialisedRunBacked`) and fails otherwise (`OverlapUnbacked`).
- On a single baseline value `classify` and `verdict` differ exactly when a threshold is passed
  (`Verdict.SingleBaselineAgreement`).
- A guardian that raises an exception outside its caught classes ends without a status. When it
  does, and when an operation leaves a container behind, is stated exactly (`Guardian.RunGuardian`);
  `Guardian.LeakRoutes` names inputs for which both happen.
- The backup handler does not bound its messages. A body is read back completely exactly when its
  frames fit the reader's bound (`NdjsonStream.HandlerReadBack`); a longer reply is refused
  (`NdjsonStream.LongReplyRefused`).
- A frame that a writer cannot encode uses up its number, so what follows is read back only up to the
  gap (`NdjsonStream.WriterReadBack`).
- An operation changes the record before it saves it. After a failed save memory and file differ
  until the next save works, and a restart then brings a revoked plan back
  (`EvidenceLifecycle.FailedSaveRevives`); a revocation is final exactly when it is on file
  (`EvidenceLifecycle.RevokedStays`).
- `StateFile.save` does not sync its directory. A power loss leaves complete records, but possibly
  older ones (`StateOnDisk.PowerLoss`), so that a revoked plan can be held again
  (`LifecycleStore.RevokedPlanReturns`).

## Model

| member | source | states |
|---|---|---|
| CorpusSelection.BestRemaining | scripts/select-test-corpus.py:325-341 | for any iteration order: a remaining file with the most new features, the smallest on a tie, or none when no remaining file adds a feature |
| CorpusSelection.GreedySelect | scripts/select-test-corpus.py:311-354 | distinct files, covered is the union of their features, total within the cap; each pick is a best file among all untaken files that fit at that moment, despite the skip branch; fewer than the maximum only when every file that would still stay within the cap, up to the last byte, adds nothing |
| CorpusSelection.PickIsBest | scripts/select-test-corpus.py:325-352 | pick i adds a feature and stays within the cap, and no free file that would stay within it adds more features, or as many and is smaller |
| CorpusSelection.CoveredIff | scripts/select-test-corpus.py:350-350 | a feature is covered if and only if a selected file has it |
| CorpusSelection.TakeBest | scripts/select-test-corpus.py:343-352 | taking the best remaining file that fits extends the greedy run, because every file dropped earlier no longer fits |
| CorpusSelection.UnionBound | scripts/select-test-corpus.py:329-338 | any files together add at most their number times the best single gain |
| CorpusSelection.GeometricDecay | scripts/select-test-corpus.py:324-352 | after n picks, `k^n (OPT - covered) <= (k-1)^n OPT` for the coverage OPT of any k or fewer files |
| CorpusSelection.NearOptimal | scripts/select-test-corpus.py:311-354 | with no cap and room for k files, `k^k (OPT - covered) <= (k-1)^k OPT`, including runs that stop early |
| CorpusSelection.SelectNearOptimal | scripts/select-test-corpus.py:311-354 | the bound holds of what the code returns without a cap, against every choice of k files |
| Statistics.MedianMonotone | scripts/media-evidence-candidates.py:299-303 | series ordered pair by pair have ordered medians |
| Statistics.MedianIff | scripts/media-evidence-candidates.py:202-202 | the median is the one value half way between the lower and the upper middle entry, which are given by counts of smaller and larger entries, without sorting |
| Statistics.RankOfEntry | scripts/media-evidence-candidates.py:287-295 | the i-th entry in ascending order has at most i smaller entries and more than i that are no larger |
| Statistics.RankUnique | scripts/media-evidence-candidates.py:287-295 | no other value has that rank |
| Statistics.MeanBalances | scripts/media-evidence-candidates.py:203-203 | the deviations from the mean cancel out |
| Statistics.VarianceFromSums | scripts/media-evidence-candidates.py:204-204 | n(n - 1) times the sample variance is n times the sum of squares less the squared sum |
| Statistics.LowMedianHighVariance | scripts/media-evidence-candidates.py:202-208 | a median at or below zero forces twice the variance to reach the squared mean |
| Verdict.SteadyBaselinePositive | scripts/media-evidence-candidates.py:204-209 | a coefficient of variation of at most 20% implies a positive median, so `classify` never divides by zero, for any real measurements |
| Verdict.ClassifyReports | scripts/media-evidence-candidates.py:199-207 | exactly when nothing is compared; the reported numbers are the medians, by their counts, and a coefficient of variation, exactly when there is one |
| Verdict.LazyKinds | scripts/media-evidence-lazy.py:835-851 | exactly when a baseline counts as zero and when a verdict is given |
| Verdict.LazyReports | scripts/media-evidence-lazy.py:835-851 | the reported numbers are the medians and the relative change |
| Verdict.LazyCv | scripts/media-evidence-lazy.py:835-851 | the variation used is the coefficient of variation, or zero for one value |
| Verdict.ClassifyIsProtocol | scripts/media-evidence-candidates.py:199-214 | `classify` gives the protocol's verdict, stated without division or square roots |
| Verdict.LazyVerdictIsProtocol | scripts/media-evidence-lazy.py:835-851 | `verdict` gives the same protocol verdict on two or more baseline values with a mean that is not negative |
| Verdict.ImplementationsAgree | docs/media-evidence-protocol.md:129-134 | the two implementations of the frozen thresholds always agree on non-negative measurements |
| Verdict.SingleBaselineAgreement | scripts/media-evidence-lazy.py:838-850 | on one baseline value they agree exactly when that value is zero or no threshold is passed |
| Publication.AddBatches | scripts/media-evidence-candidates.py:294-295 | each flush count's series grows by the time at which its first batch leaves |
| Publication.Model | scripts/media-evidence-candidates.py:271-304 | the medians of the barrier, first-ready, median-ready and first-batch series over the compared repetitions; the error cases exactly |
| Publication.ComparedExactly | scripts/media-evidence-candidates.py:283-285 | an as-found record leaves out its first repetition, an evicting one none |
| Publication.CompletionIsSum | scripts/media-evidence-candidates.py:156-158 | a completion time is the sum of the measured stages |
| Publication.ObservedExactly | scripts/media-evidence-candidates.py:290-291 | the ready rows are the observed ones, each as often as it occurs |
| Publication.CompletionsAt | scripts/media-evidence-candidates.py:287-287 | the completions are those of the rows, one each |
| Publication.SeriesAt | scripts/media-evidence-candidates.py:286-295 | each series has one entry for each repetition, and that is its time |
| Publication.BatchMeaning | scripts/media-evidence-candidates.py:287-295 | the barrier is the greatest completion, the first batch of k leaves with the k-th smallest or the last |
| Publication.ReadyMeaning | scripts/media-evidence-candidates.py:289-293 | the ready times are the smallest and the median completion of an observed file, unavailable exactly without one |
| Publication.ModelMeaning | scripts/media-evidence-candidates.py:296-304 | barrier and batch times are medians over the repetitions |
| Publication.ModelReadyMeaning | scripts/media-evidence-candidates.py:267-304 | so are the ready times, available exactly when every repetition has one |
| Publication.ReadyOrder | scripts/media-evidence-candidates.py:287-295 | in one repetition: first batch of 1 <= first ready <= median ready <= barrier |
| Publication.BatchMediansOrdered | scripts/media-evidence-candidates.py:294-303 | medians for batch sizes j <= k are ordered and at most the barrier, for all timings |
| Publication.ModelOrdered | scripts/media-evidence-candidates.py:296-304 | the whole result is ordered, and the two ready times are available together |
| CrashDisk.CrashExists | crates/voom-backup-worker/src/backup.rs:160-168 | every valid disk has a crash, so claims about all crashes are not empty |
| Backup.HashStream | crates/voom-backup-worker/src/backup.rs:181-206 | for any chunking: size and checksum of the whole file, or an error exactly when opening or a read fails |
| Backup.CopyChunks | crates/voom-backup-worker/src/backup.rs:143-159 | the copy loop leaves the source bytes in the temporary file exactly when no read or write within the content fails; no other file changes; every step is safe |
| Backup.CopySourceToTemp | crates/voom-backup-worker/src/backup.rs:132-168 | success, exactly when every call does, means a complete and synced temporary file; the source is blamed exactly for a failed open, and for a failed read unless a write failed too; the destination is spared |
| Backup.Promote | crates/voom-backup-worker/src/backup.rs:120-129 | after the rename the destination is complete; after the directory sync no crash undoes the entry |
| Backup.CopyIntoTempThenPromote | crates/voom-backup-worker/src/backup.rs:106-130 | the copy path for every combination of faults: result, destination, clean-up of the temporary file, and when its steps are crash-safe |
| Backup.ReconcileExistingDestination | crates/voom-backup-worker/src/backup.rs:91-104 | success exactly for equal contents that could be read; the source is blamed exactly when it could not be read |
| Backup.BackUpFile | crates/voom-backup-worker/src/backup.rs:51-76 | for every combination of faults: exactly when it succeeds, with the right size and checksum; which error it reports otherwise; exactly when every step is crash-safe; exactly when an existing entry is replaced, and that the file stays untouched otherwise; that a destination that was seen never changes; what a failed directory sync leaves |
| Backup.CreateSafeIff | crates/voom-backup-worker/src/backup.rs:136-138 | opening the temporary file keeps a safe destination safe exactly when the two are not linked |
| Backup.CrashKeepsSafe | crates/voom-backup-worker/src/backup.rs:106-130 | after a crash in any safe state the destination is absent or complete and a new attempt may start |
| Backup.SurvivesIff | crates/voom-backup-worker/src/backup.rs:38-46 | a copy outlives every crash exactly when its directory is durable and no unsynced absence of its entry remains |
| Backup.RetryAfterCrashes | crates/voom-backup-worker/src/backup.rs:41-45 | any attempts with any faults, each ended at any step by itself, by process death or by a crash, then one clean attempt: destination equals source and the same outcome is reported, unless an attempt truncated a linked temporary file on the disk it found; those disks are what the attempts before left behind; without a crash there is no exception |
| Backup.FailedLookupLosesCopy | crates/voom-backup-worker/src/backup.rs:69-72 | a crash after any rename may leave a complete copy that an attempt with a failed lookup then empties |
| Backup.RetryAfterFailedSync | crates/voom-backup-worker/src/backup.rs:70-72 | the retry reports success and some crash still loses the copy |
| SamplePlan.EvenlySpacedBlocks | scripts/media-evidence-fingerprint.py:149-155 | the loop yields the clipped block around each evenly spaced centre |
| SamplePlan.MakePlan | scripts/media-evidence-fingerprint.py:158-177 | the merge loop computes the plan function that the results below are about |
| SamplePlan.PlanCanonical | scripts/media-evidence-fingerprint.py:166-177 | for every candidate, size and draw: non-empty ranges in [0, size), sorted with strict gaps, covering exactly head, tail and interior blocks |
| SamplePlan.CanonicalUnique | scripts/media-evidence-fingerprint.py:171-177 | a list of that form is determined by what it covers |
| SamplePlan.PlanReads | scripts/media-evidence-fingerprint.py:142-177 | a byte is read if and only if it lies in the head, in the tail, in a drawn block or within 32 KiB of an evenly spaced centre |
| SamplePlan.CandidateReads | scripts/media-evidence-fingerprint.py:48-67 | the same in numbers, candidate by candidate |
| SamplePlan.CandidateDraws | scripts/media-evidence-fingerprint.py:57-67 | the random candidates draw 8 and 32 blocks, or all there are |
| SamplePlan.InteriorBlocksIff | scripts/media-evidence-fingerprint.py:137-139 | the interior blocks are exactly those that are neither first nor last |
| SamplePlan.FirstUnread | scripts/media-evidence-fingerprint.py:253-259 | the least uncovered offset in [low, high), or low when there is none |
| SampleTotals.SpreadPlan | scripts/media-evidence-fingerprint.py:149-177 | samples more than 96 KiB apart give exactly n + 2 ranges of 64 KiB |
| SampleTotals.SpreadPlanExact | scripts/media-evidence-fingerprint.py:149-177 | the plan has n + 2 ranges if and only if size div (n + 1) exceeds 96 KiB |
| SampleTotals.RandomTotal | scripts/media-evidence-fingerprint.py:142-177 | random sampling of a file of whole blocks reads exactly (2 + min(n, M)) blocks, however blocks merge |
| SampleTotals.LargeFixtureUnread | scripts/media-evidence-fingerprint.py:68-70 | every sampling candidate leaves a byte between 1 MiB and 7 MiB of the 8 MiB fixture unread, for every draw |
| SampleTotals.TotalIsCount | scripts/media-evidence-fingerprint.py:206-214 | the length of a plan is the number of different bytes it covers |
| PartialFingerprint.EncodeAllInjective | scripts/media-evidence-fingerprint.py:210-214 | different lists of start, length and data are fed as different bytes |
| PartialFingerprint.LittleEndianRoundTrip | scripts/media-evidence-fingerprint.py:211-211 | the eight bytes stand for the number, the lowest first |
| PartialFingerprint.ReadRange | scripts/media-evidence-fingerprint.py:185-193 | for any short reads: the bytes of the range that the file has |
| PartialFingerprint.TakeFingerprint | scripts/media-evidence-fingerprint.py:196-223 | on a stable file the specified fingerprint and the plan's byte count; a change between reads raises Drift exactly when size, mtime, device, inode or link count differs and something is read; otherwise the result mixes the first range of the old content with the rest of the new |
| PartialFingerprint.FingerprintsEqualIff | scripts/media-evidence-fingerprint.py:206-229 | for every candidate and any two files: one fingerprint if and only if size, mtime, device and inode are the same, the ctime where it is compared, and a sampling candidate finds the same bytes wherever it reads |
| PartialFingerprint.FingerprintsEqualIf | scripts/media-evidence-fingerprint.py:206-229 | one direction without any assumption on the digest |
| PartialFingerprint.MovedFactNoticed | scripts/media-evidence-fingerprint.py:436-448 | a moved size, mtime, device or inode is always noticed: detected with other bytes, a false change with the same |
| PartialFingerprint.BytesDecide | scripts/media-evidence-fingerprint.py:475-478 | with none moved, an unchanged file is equal and a changed one is detected exactly when a changed byte is read |
| PartialFingerprint.EditMissedIff | scripts/media-evidence-fingerprint.py:275-279 | a one-byte edit with restored mtime is missed if its offset is uncovered and detected otherwise |
| PartialFingerprint.MetadataEdit | scripts/media-evidence-fingerprint.py:203-205 | metadata candidates miss every such edit, unless ctime is compared and moved |
| PartialFingerprint.RegionEdit | scripts/media-evidence-fingerprint.py:335-348 | the oracle's edit at the first unread byte of a region is missed if and only if the region has an unread byte |
| PartialFingerprint.InteriorEditMissed | scripts/media-evidence-fingerprint.py:340-341 | the interior edit of the large fixture is a miss for every sampling candidate and draw |
| LazyWindow.FullPass | scripts/media-evidence-lazy.py:118-140 | for every split into chunks: digest, head/tail window and count of the whole read, or an interruption in the chunk that reaches the requested byte, exactly when there is such a chunk |
| LazyWindow.PassMatchesSeek | scripts/media-evidence-lazy.py:99-140 | the streamed window equals the one read by seeking, and the bytes read equal `fingerprint_cost`, at most 128 KiB |
| LazyWindow.WindowsEqualIff | scripts/media-evidence-lazy.py:92-140 | whatever was read, its window is that of an observed file if and only if there are as many bytes and the first and last 64 KiB agree; of a file of exactly 64 KiB more may be read |
| EvidenceLifecycle.StepOk | scripts/media-evidence-lazy.py:180-243 | every operation keeps the record invariants, in memory and on file |
| EvidenceLifecycle.ObserveOutcome | scripts/media-evidence-lazy.py:187-198 | another fingerprint withdraws provisional or verified evidence: no digest, every plan revoked, every output quarantined; the same one changes nothing; otherwise new provisional evidence |
| EvidenceLifecycle.PlanOutcome | scripts/media-evidence-lazy.py:200-206 | committable on verified, held on provisional, refused on other evidence; nothing else changes |
| EvidenceLifecycle.ProduceOutcome | scripts/media-evidence-lazy.py:208-211 | the output is kept; nothing else changes |
| EvidenceLifecycle.BeginOutcome | scripts/media-evidence-lazy.py:227-231 | a verification starts on provisional evidence only, with its fingerprint |
| EvidenceLifecycle.FinishOutcome | scripts/media-evidence-lazy.py:213-243 | on the record as it then is: withdrawn as stale or in disagreement, or confirmed with held plans committable and revoked ones revoked |
| EvidenceLifecycle.EveryRunOk | scripts/media-evidence-lazy.py:163-243 | so does every interleaving of any operations on any files, with interruptions, restarts and failed saves |
| EvidenceLifecycle.RunFromStart | scripts/media-evidence-lazy.py:163-243 | in memory and on file: a digest exactly in verified, committable plans only in verified, no held plan in verified, all plans revoked in stale and disagreement |
| EvidenceLifecycle.AgreeAfter | scripts/media-evidence-lazy.py:172-223 | memory and file agree after every operation whose save works, whatever failed before, and after every restart; a failed save leaves the file alone |
| EvidenceLifecycle.RevokedStays | scripts/media-evidence-lazy.py:213-220 | a revoked plan stays revoked in every run without a new `plan` of its id, with any failed saves and restarts, if and only if its revocation is on file |
| EvidenceLifecycle.QuarantinedStays | scripts/media-evidence-lazy.py:180-185 | the same for a quarantined output and `produce` |
| EvidenceLifecycle.FailedSaveRevives | scripts/media-evidence-lazy.py:187-198 | a plan revoked by an observation whose save fails is held again after a restart |
| EvidenceLifecycle.VerifyOutcome | scripts/media-evidence-lazy.py:225-243 | verifying provisional evidence, for any reading: stale with plans revoked and outputs quarantined iff the stat before or after differs from the observed one, otherwise verified with the digest of the bytes read iff their ends agree with the observed ones, otherwise in disagreement |
| EvidenceLifecycle.InteriorIrrelevant | scripts/media-evidence-lazy.py:236-242 | readings that differ only between the ends give the record the same state |
| EvidenceLifecycle.SerialisedRunBacked | scripts/media-evidence-lazy.py:225-243 | when operations on one file do not overlap, verified evidence in memory and on file always has read bytes with its digest and its window, whichever saves fail |
| EvidenceLifecycle.SerialisedFromStart | scripts/media-evidence-lazy.py:163-243 | the same for every such run from the start |
| EvidenceLifecycle.FinishBackedIff | scripts/media-evidence-lazy.py:213-223 | a finishing verification is backed exactly when the record still carries the window of the read bytes |
| EvidenceLifecycle.OverlapUnbacked | scripts/media-evidence-lazy.py:187-223 | two observations during a verification leave new evidence verified by old bytes, for every same-size edit of head or tail |
| EvidenceLifecycle.InterruptedVerify | scripts/media-evidence-lazy.py:225-243 | an interrupted verification leaves the saved records unchanged; after a restart the same reading gives the same record, if that record was on file |
| StateOnDisk.WriteTemporary | scripts/media-evidence-lazy.py:154-159 | for any chunks and any failing call: the states on the way are one system call apart and each still has the old versions; a complete, synced temporary file exactly when no call failed |
| StateOnDisk.Replaced | scripts/media-evidence-lazy.py:160-160 | the rename makes the new version visible and adds it to those a power loss may leave |
| StateOnDisk.SaveVersion | scripts/media-evidence-lazy.py:154-160 | at every system call of a save but the last a power loss leaves what it could have left before; the new version is visible and may be left exactly when no call failed |
| StateOnDisk.PowerLoss | scripts/media-evidence-lazy.py:143-160 | a version can be left by a power loss if and only if it was saved since the directory was last synced |
| LifecycleStore.StateFile.Save | scripts/media-evidence-lazy.py:154-160 | the new records are visible exactly when no call failed; the states on the way are one system call apart, and a power loss at any of them leaves complete records, old or new |
| LifecycleStore.Lifecycle.constructor | scripts/media-evidence-lazy.py:166-170 | a new process starts from the saved records |
| LifecycleStore.Lifecycle.Observe | scripts/media-evidence-lazy.py:187-198 | takes the observe step, with its save working or failing, and reports the fingerprint's bytes |
| LifecycleStore.Lifecycle.PlanOn | scripts/media-evidence-lazy.py:200-206 | takes the plan step, with its save working or failing; refuses exactly on evidence that is neither provisional nor verified |
| LifecycleStore.Lifecycle.Produce | scripts/media-evidence-lazy.py:208-211 | takes the produce step, with its save working or failing, allowed in every state |
| LifecycleStore.Lifecycle.BeginVerify | scripts/media-evidence-lazy.py:227-231 | refuses unless provisional, otherwise captures the expected fingerprint; saves nothing |
| LifecycleStore.Lifecycle.FinishVerify | scripts/media-evidence-lazy.py:213-223 | applies the outcome to the record as it is now, and saves it unless the save fails |
| LifecycleStore.Lifecycle.Verify | scripts/media-evidence-lazy.py:225-243 | with any operations of other threads in between and after the finish: begin, those operations, and the finish or the interruption, as the steps of the lifecycle; exactly when it is refused, stopped or not saved; the state it reports is the one after the operations that followed |
| LifecycleStore.RevokedPlanReturns | scripts/media-evidence-lazy.py:154-160 | after a plan is revoked by a change of its file, some power loss leaves it held |
| LifecycleStore.SetAll | scripts/media-evidence-lazy.py:182-185 | the loop sets every entry and no other |
| LifecycleStore.Promoted | scripts/media-evidence-lazy.py:218-220 | the loop makes held plans committable and leaves revoked ones |
| Starvation.Simulate | scripts/media-evidence-lazy.py:478-492 | for any sizes: the aged policy verifies min(B, T div k) background files, each at its own multiple of k, in order; the backlog equals that number; the other policy verifies none |
| Starvation.ScheduleAt | scripts/media-evidence-lazy.py:485-488 | background file i is verified at tick (i + 1) * k |
| MountRoots.CheckRoots | containers/ffmpeg/runtime.py:40-96 | accepts exactly non-empty lists of absolute, resolved, pairwise unnested directories other than the root, without comma, newline or NUL, with a resolved working directory in one of them |
| MountRoots.WithinIff | containers/ffmpeg/runtime.py:36-37 | a path lies in a root if and only if the components of the root begin those of the path |
| MountRoots.MountArgumentFields | containers/ffmpeg/runtime.py:239-243 | without a comma in the root, the mount argument splits back into its fields |
| MountRoots.SharedIffNested | containers/ffmpeg/runtime.py:36-37 | two roots share a path if and only if one lies in the other |
| MountRoots.ApartIff | containers/ffmpeg/runtime.py:91-93 | the check passes if and only if no path belongs to two mounts |
| Guardian.Remove | containers/ffmpeg/runtime.py:246-256 | a removal that returns has removed the container; after a failed `rm` only a successful inventory counts |
| Guardian.Reconcile | containers/ffmpeg/runtime.py:258-266 | exactly the owned containers that it reaches and whose removal takes effect are gone, none with another name or without the label; exactly when it returns and when it raises outside the caught classes |
| Guardian.WaitLoop | containers/ffmpeg/runtime.py:298-301 | ends no later than the poll at which the lease is closed, with the client's status if it ended by then |
| Guardian.RunGuardian | containers/ffmpeg/runtime.py:280-323 | under any failures: exactly when the operation leaves no container, exactly when the process ends without a status, and the status otherwise: the client's own, 128 plus its signal, or 125; other containers are untouched, cleanup is attempted exactly when an engine exists |
| Guardian.LeakRoutes | containers/ffmpeg/runtime.py:258-309 | failures of create, listing and inspection for which a container stays or no status is returned |
| LeaseProtocol.EveryRun | containers/ffmpeg/runtime.py:280-345 | in every run the lease is open exactly while the launcher lives and cleanup happens at most once, for a reason |
| LeaseProtocol.ClosedLeaseCleansUp | containers/ffmpeg/runtime.py:326-345 | however the launcher ended, six guardian steps later the guardian is done with its cleanup attempt |
| LeaseProtocol.CallerDeathCleansUp | containers/ffmpeg/runtime.py:336-345 | after the caller's death and one more launcher turn, the same |
| LeaseProtocol.NoEarlyCleanup | containers/ffmpeg/runtime.py:298-309 | no cleanup begins while launcher and client live and nothing failed |
| LeaseProtocol.EndedClientCleansUp | containers/ffmpeg/runtime.py:298-309 | once the client has ended or a step has failed, two guardian steps finish the guardian with its cleanup |
| LeaseProtocol.NoStartAfterClose | containers/ffmpeg/runtime.py:286-301 | once the lease is closed no client is started |
| LeaseProtocol.LauncherTurn | containers/ffmpeg/runtime.py:336-345 | the launcher ends exactly when the guardian is done or the caller has died |
| LeaseProtocol.ClientIsStarted | containers/ffmpeg/runtime.py:285-301 | with every command succeeding four steps start the client, which runs until it ends |
| Frames.BodyFromFrames | crates/voom-backup-worker/src/handler.rs:219-230 | the loop prints each encoded frame and a newline |
| Frames.LinesOfBody | crates/voom-conformance/src/negative_fixture.rs:55-58 | splitting a printed body and dropping empty pieces gives back the encoded frames |
| Frames.HasFrameAfterTerminal | crates/voom-conformance/src/negative_fixture.rs:53-75 | the scan's result and errors in line order |
| Frames.ScanFirstLine | crates/voom-conformance/src/negative_fixture.rs:55-74 | the decisions about a line: skipped if empty, then decoding, lease, earlier terminal frame |
| Frames.ScanLastLine | crates/voom-conformance/src/negative_fixture.rs:55-74 | the same for a last line without a newline |
| Frames.ScanBody | crates/voom-conformance/src/negative_fixture.rs:53-75 | on any body of one lease it reports a frame after a terminal one exactly when there is one |
| Frames.HandlerWellFormed | crates/voom-backup-worker/src/handler.rs:90-230 | every handler body is numbered from 0, has one terminal frame, last, a result exactly on success, and scans clean |
| Frames.HandlerSays | crates/voom-backup-worker/src/handler.rs:33-41 | the failure class is that of the backup's result |
| Frames.HandleOperation | crates/voom-backup-worker/src/handler.rs:90-139 | an undecodable payload touches nothing; otherwise the body has a result exactly when the backup succeeds, and the destination then holds the copy |
| NdjsonStream.ReadLine | crates/voom-worker-protocol/src/wire/ndjson.rs:116-239 | the line, truncation, read and size errors do not depend on how the bytes arrive; a reported size lies between the bound and the bound plus one chunk |
| NdjsonStream.NextFrame | crates/voom-worker-protocol/src/wire/ndjson.rs:106-198 | lease, number and terminal checks in order; repeated numbers dropped; the reader it leaves, after failures too |
| NdjsonStream.NextByLine | crates/voom-worker-protocol/src/wire/ndjson.rs:137-197 | the reader's decisions about a line, in order: size, decoding, lease, number, terminal |
| NdjsonStream.NextAtEnd | crates/voom-worker-protocol/src/wire/ndjson.rs:116-135 | without a complete line: a clean end, a truncated line, a read error or a line above the bound |
| NdjsonStream.NextAfterTerminal | crates/voom-worker-protocol/src/wire/ndjson.rs:107-109 | after the terminal frame every call fails |
| NdjsonStream.ReadBack | crates/voom-worker-protocol/src/wire/ndjson.rs:106-198 | exactly what is read of any printed body with rising numbers and one final terminal frame, whatever follows: every frame up to the first that is too long or skips a number |
| NdjsonStream.ReceivedIff | crates/voom-worker-protocol/src/wire/ndjson.rs:1-20 | all frames are delivered if and only if each fits the bound and no number is skipped |
| NdjsonStream.RepeatsDropped | crates/voom-worker-protocol/src/wire/ndjson.rs:6-8 | a body with any frames of already seen numbers in it is read like the body without them, whatever follows, as long as those that are reached fit the bound |
| NdjsonStream.LongRepeatRefused | crates/voom-worker-protocol/src/wire/ndjson.rs:106-158 | a repeated frame above the bound ends the reading |
| NdjsonStream.HandlerReadBack | crates/voom-backup-worker/src/handler.rs:141-194 | a handler body is read back completely if and only if its frames fit the bound |
| NdjsonStream.LongReplyRefused | crates/voom-backup-worker/src/handler.rs:196-206 | a reply longer than the bound is refused by the reader |
| NdjsonStream.NdjsonWriter.Emit | crates/voom-worker-protocol/src/wire/ndjson.rs:281-317 | numbers and appends a frame; refuses a wrong lease or a frame after the terminal one without change; a failed encoding or write uses up the number |
| NdjsonStream.WriterReadBack | crates/voom-worker-protocol/src/wire/ndjson.rs:1-20 | what a writer wrote up to its terminal frame, a reader gets back if and only if every frame fits the bound and no number was lost |
| NdjsonStream.NdjsonWriter.ReadBackIff | crates/voom-worker-protocol/src/wire/ndjson.rs:242-318 | the output of a writer object that has sent its terminal frame is read back completely if and only if its frames fit the bound and no frame was lost |
| NdjsonStream.ClassifyReader | crates/voom-conformance/src/negative_fixture.rs:32-51 | every stream is rejected, with the error of its last outcome |
| NdjsonStream.FixtureBytes | crates/voom-conformance/src/negative_fixture.rs:77-131 | the pushed and popped bytes are the fixture's body |
| NdjsonStream.FixturesRejected | crates/voom-conformance/src/negative_fixture.rs:13-30 | each fixture is rejected for its own reason |
| NdjsonStream.ScanTellsApart | crates/voom-conformance/src/negative_fixture.rs:16-20 | the scan tells the frame-after-terminal fixture from every handler body; the classifier answers alike for both if and only if the handler's frames fit the bound |

## Left out

- Feature extraction, database queries and table output of the corpus script: a file's feature set is an input.
- Floating-point rounding and the four-digit rounding of reported numbers in the verdicts.
- `guardrails` (memory and CPU limits against the baseline medians), `select` (the best eligible candidate by wall time, then by hash time) and the record checks of `compare` in the candidates script.
- Integer widths: frame numbers and byte counts are unbounded; encoded starts and lengths are bounded by a 63-bit file size.
- The contents of error messages, frame payloads and timestamps; a frame that the handler or the fixtures cannot encode.
- Symbolic links: a link at the source or destination counts as a path that is not a regular file, and one at the temporary path is excluded by `Backup.Setting`.
- Partial creation of missing parent directories: a parent exists or not, and is durable or not, as a whole.
- Backup.BackUpFile: assumes one writer per destination and a source that is durable, stays as it is and is not linked from the temporary path; with a failed lookup of the destination, source and destination must be different paths. Directory entries may reach the disk independently of each other, also the two of one rename.
- LifecycleStore.StateFile.Save: assumes that the directory of the state file is itself durable.
- Guardian.RunGuardian: assumes that no other process creates or removes containers of this name meanwhile, and does not model the end of a client that outlives cleanup.
- NdjsonStream.NextFrame: leaves out the byte count in a size error, which ReadLine bounds.
- NdjsonStream.WriterReadBack: speaks of what was written whole; what a reader makes of the output after a write cut short is not modelled.
- Engine selection, image checks, pid watching, process spawning and signals in the container runtime.
- The corpus cost runs, record validation, privacy checks and timing capture of the evidence scripts.
- HTTP, TLS, the command line and the control plane.
