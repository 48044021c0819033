# Durable state in the Kobra launcher and packager: a Dafny model

The launcher changes durable state one step at a time, and the process can die between or inside any two steps. This
project models the five places where that matters and proves what survives.

| modules | what they model |
|---|---|
| `Basics`, `Text`, `Names`, `Numerals`, `Order` | shared vocabulary: optional values, string operations, device names, decimal numerals, key order |
| `FolderModel`, `SwapSpec`, `SwapProofs`, `RecoveryTheorems` | the game folder, the directory swap and its recovery |
| `UpdateSpec`, `UpdateProofs`, `UpdateRuns`, `UpdateTheorems`, `UpdateDetails`, `UpdateAnswers`, `UpdateReports`, `UpdateLife`, `UpdateExactness`, `UpdateLauncher`, `UpdateArchive`, `GameFolder` | the apply pipeline, what it answers and why, requests and cancellations, retention, start-up, whole runs, what launcher/ holds after them, the pipeline with the archive checks put in, and the class that performs it call by call |
| `Versions`, `ReleaseOrders` | the launcher's and the packager's orders of versions and of releases |
| `Json`, `JsonText`, `JsonSound`, `JsonCanonical`, `JsonForm`, `JsonPrefix`, `JsonEncoder` | JSON (RFC 8259, sections 2 to 7): parser, every way to write a value and that nothing else is read, canonical form and what it looks like, prefixes, the encoder |
| `SaveFile`, `SaveSpec`, `SaveProofs`, `SaveTheorems`, `SaveRuns`, `SaveRevisions`, `SaveRestarts`, `SaveHazards`, `SaveConcurrency`, `SaveReads`, `SaveAnswers`, `SaveRefusals`, `ConfigStore`, `SaveEngine` | the save engine: file format, what is read and answered, atomic write, revisions, restarts, interleavings, settings, and the class that performs them |
| `DownloadSpec`, `DownloadProofs`, `DownloadTheorems`, `Downloader` | the resumable archive download |
| `ArchivePaths`, `ArchiveSpec`, `ArchiveProofs`, `ArchiveTrees`, `ArchiveBudget`, `ArchiveTheorems`, `Packager`, `Installer` | the update archive, from the packager's index to the launcher's staging directories |
| `ConfigMerge`, `ConfigOrigins`, `ConfigSchema`, `ConfigHistories`, `ConfigLaunch`, `Floats`, `Shortest`, `ShortestDigits`, `JsonNumbers`, `LauncherSchema`, `LauncherReaders`, `LauncherConfig`, `LauncherSettings` | the recursive configuration merge, the typed rewrite after it, both over whole release histories, the launch's reader against the merge's, numbers as a float64 keeps and writes them, and the launcher's own schema |
| `Quota` | the per-session write quota |

## How failures are modelled

Every system call consumes one turn of a script that the theorems quantify over. A turn lets the call work, refuses it
(with or without having done part of the work), or kills the process in it. A write, a removal, an extraction or a copy
can stop part way; a rename and a marker write are atomic. Once the process is dead, calls do nothing until the next
start. The operations are functions from one state to the next; the classes `GameFolder.Folder`, `SaveEngine.Saves`,
`Downloader.Download` and `Installer.StagingRoot` run the source's own statements and loops against mutable fields, and
each of their methods is proved to end in the state its function gives, for every script. The theorems are about the
functions.

Save files are modelled as text, so that a torn copy is any prefix of the bytes written. Directory trees are absent,
torn or whole. SHA-256 is a parameter: an arbitrary function, returning 64 hex digits where the parsing of hashes
matters. Times are nanoseconds. Integers are unbounded except where 64 bits change an answer: the write quota
(`Quota.BytesAcceptedExactly`), the counter of a release (`Versions.OverflowingReleaseRanksLowest`), the budget of an
extraction (`ArchiveBudget.SizeIsBoundedExactlyWhen`) and the disk space an update asks for
(`UpdateDetails.SpaceGateHoldsExactlyWhen`). Sizes of bytes that were really read or written never get that far.

A configuration update is the merge, the schema check, the decoding over the defaults and the rewritten document. The
theorems about it hold for any schema of leaves, tables and objects whose readers accept what they wrote
(`ConfigSchema.Sound`), and `LauncherSchema` is the launcher's. A refused update leaves the document as it was. Two
readers look at the local file. The launch decodes each number into 64 bits itself. The merge reads it into a float64
and writes that with the fewest significant digits that are read back as it, so that a number is changed unless it is the
one written for its float64 (`Shortest.Shown`, `LauncherSchema.ReadsAsShown`). What the merge makes of a number written
with a fraction or an exponent, which the launch refuses, is left open but for being a number it writes. What a game runs
with, and which files it accepts, is stated with the launch's reader.

## What the update theorems need, exactly

`UpdateExactness.SafeMachinesAreExact` proves that the update life is safe on every run exactly on machines where four
things hold, and each of the four has its own counterexample:

- across volumes, the removal of `game.new/` after a promotion is all or nothing (`launcher/internal/update/movedir.go:60`);
- removing or rewriting a marker file is never refused (`launcher/internal/update/swap.go:169`);
- inside recovery a call works or the process dies, because start-up runs Apply after a refused recovery all the same
  (`launcher/internal/update/startup.go:67`);
- every start finds the update directory.

One launcher process runs at a time.

## Where the code and its own words disagree

The model follows the code.

- `launcher/internal/update/apply.go:460-464` says a failed swap stays retryable; `failTerminal` drops the marker, so it does not (`UpdateTheorems.MarkerSurvivesIffRetryable`).
- `launcher/internal/update/apply.go:643-655` means to catch a publisher who swaps the archive address; both sides of its comparison are the marker's own address, so it never refuses (`UpdateDetails.ReconcileHoldsToThreeFields`).
- `launcher/internal/update/download.go:380` says one byte over the declared size is a refusal; a longer body whose length was not announced is cut off at the declared size instead (`DownloadTheorems.CalmAttemptSucceedsExactly`).
- `launcher/internal/update/download.go:436` and `:484` keep the record of a complete partial so that it can be resumed; `matches` refuses it, so the file is fetched again (`DownloadTheorems.CompleteIsNotResumed`).
- `packaging/internal/pack/collect.go:37-40` wants no name to pass the packager that the launcher refuses; the seven reserved characters do (`ArchiveTheorems.AcceptedExactlyWhenPlain`, `ArchiveTheorems.BuiltPassesGate`).
- `launcher/internal/update/configmerge.go:155-172` lets the local value of a setting win. An empty one wins once: writing the merged document omits it, and the next release's value is installed (`LauncherSettings.EmptySettingIsLost`). This is so for `server.csp`, `server.cross_origin_embedder_policy` and `update.patch_base_url`. A number that is not the shortest decimal of its float64 is changed into that by the first update (`LauncherSettings.NumberIsShown`): 2^53 + 1 into 2^53 (`LauncherSettings.LastBitIsLost`), and 2^60, which a float64 holds, into 1152921504606847000, which none holds and which then stays (`LauncherSettings.HoldingIsNotEnough`). No other setting the release does not own is at risk (`LauncherSettings.SettingsAtRisk`).
- `launcher/internal/update/configmerge.go:113-124` refuses a merge that is not a valid configuration. One declared number of 2^63 - 512 or more, which the launch accepts, is enough: written from its float64, it leaves the 64-bit range, and every update is refused from then on (`LauncherSettings.UpdatesGoThroughExactlyWhen`, `LauncherSettings.NoLimitStopsUpdates`).
- `launcher/internal/update/configmerge.go:194-197` gives a release its own `mime_types` whole; every default type the release leaves out comes back with the decoding (`LauncherSettings.DefaultTypesStay`). A default written that way counts as local from then on and beats every later release (`ConfigHistories.FirstMergeDecides`).
- `launcher/internal/update/apply.go:478-483` keeps the marker of a failed merge so that the next start retries it. A merge that stops after `launcher.config.json` and before a later file is not retried: the folder reports the new release, the next start answers already_current and drops the marker, and launcher/ stays mixed (`UpdateLauncher.MixedLauncherStays`, `UpdateLauncher.LauncherIsCompleteExactlyWhen`). In walk order `launcher.exe` and `port-deny-list.json` come after the configuration.
- `packaging/internal/pack/config.go:367-381` orders releases by number where the launcher also does (`launcher/internal/update/manifest.go:328-336`); where a counter does not fit 64 bits the packager ranks it above its month and the launcher below everything (`ReleaseOrders.OrdersAgreeExactlyWhen`).
- `launcher/internal/update/extract.go:122-123` creates nothing for an entry beyond total_size; a declared size whose 64-bit sum wraps is admitted (`ArchiveBudget.OverflowExceeds`). Verify refuses such an archive first (`ArchiveBudget.AcceptedStaysWithinBounds`).
- `launcher/internal/update/runtime.go:303-310` asks for the peak disk requirement; from a total_size of 2^62 on the sum wraps and a full disk passes (`UpdateDetails.FullDiskPasses`).
- `launcher/internal/storage/storage.go:1149` merges settings into whatever is there; over a settings file that holds `null` it stops in a nil map, and no merge ever repairs the file (`ConfigStore.NullIsForGood`).
- `launcher/internal/update/configmerge.go:172` promises that unknown local keys survive the merge. They do survive the merge modelled here; the schema check that follows it refuses unknown keys (`launcher/internal/config/schema/launcher.config.schema.json:7`).
- `launcher/internal/storage/storage.go:812-818` serves a backup without verifying its checksum when the live file does not parse, while the two other fallbacks verify it (`SaveTheorems.UncheckedBackupIsServed`).
- `launcher/internal/storage/storage.go:962-963` ignores a backup that cannot be moved to the trash; the deletion answers success and the next read serves that backup (`SaveReads.DeletedIsGone`).
- `launcher/internal/storage/storage.go:653-654` treats a failed sidecar write as harmless; after a restart it costs the revision (`SaveHazards.AcknowledgedSaveForgotten`).

## Model

| member | source | states |
|---|---|---|
| SwapProofs.SwapKeeps | launcher/internal/update/swap.go:199-277 | From a settled folder a swap stopped at any call leaves the folder such that recovery would choose a whole tree, which is the old game or the staged one, with the other as the only spare; success means game/ is the staged tree. |
| SwapProofs.PromotePlaces | launcher/internal/update/movedir.go:33-66 | Copy-then-rename promotion has the same ends as one rename: either nothing a reader sees has moved, or game/ is the whole source tree. |
| SwapProofs.RecoverKeeps | launcher/internal/update/swap.go:305-427 | A recovery stopped at any call leaves the folder recoverable to the same tree, and one that finishes leaves game/ whole and equal to the tree chosen before it. |
| RecoveryTheorems.UndisturbedRecoverInstallsChosen | launcher/internal/update/swap.go:305-427 | From any disk whatsoever an undisturbed recovery installs exactly the chosen tree, leaves no copy, marker or game.new/, and game/ is whole if and only if the chosen tree was. |
| RecoveryTheorems.RecoverTwiceIsRecoverOnce | launcher/internal/update/swap.go:305-427 | On the settled folder an uninterrupted recovery leaves, the next recovery does nothing and reports none. |
| RecoveryTheorems.RecoveriesKeep | launcher/internal/update/swap.go:305-427 | Any chain of interrupted recoveries stays within the invariant and keeps the chosen tree among the two it started with. |
| RecoveryTheorems.SwapThenAnyRecoveries | launcher/internal/update/swap.go:199-427 | A swap stopped anywhere, any chain of interrupted recoveries and one clean recovery end with game/ whole and equal to the old or the new release. |
| RecoveryTheorems.CopiesAreNeverRead | launcher/internal/update/movedir.go:159-170 | Whatever is refused or dies, recoveries of two folders that differ only in the temporary copies beside game/ report the same action and end alike but for the copies, and alike altogether where the first sweep succeeds. |
| GameFolder.Folder.PromoteDir | launcher/internal/update/movedir.go:33-66 | The method, call by call, ends in the state its specification gives for every script of failures and crashes. |
| GameFolder.Folder.Swap | launcher/internal/update/swap.go:199-277 | Likewise for the swap, with its rollback of the first rename. |
| GameFolder.Folder.Recover | launcher/internal/update/swap.go:305-427 | Likewise for recovery, including which action it reports. |
| GameFolder.Folder.MergeLauncherInto | launcher/internal/update/extract.go:247-280 | The loop over the staged launcher files, stopping at the first failure, ends in the specified state. |
| GameFolder.Folder.CopyFilePreservingMode | launcher/internal/update/extract.go:284-357 | Rename over the live file, or move it aside, put the new one and restore on failure. |
| GameFolder.Folder.FailRetryable | launcher/internal/update/apply.go:543-573 | Counts the failure in the marker and drops the marker when the budget is spent. |
| GameFolder.Folder.FailTerminal | launcher/internal/update/apply.go:577-593 | Drops the marker. |
| GameFolder.Folder.Apply | launcher/internal/update/apply.go:82-513 | The whole ordered pipeline, every exit with its outcome, reason and retryable flag, against the specification. |
| GameFolder.Folder.Startup | launcher/internal/update/startup.go:53-109 | Recover, the counter reset after a rollback, then Apply. |
| GameFolder.Folder.WritePending | launcher/internal/update/runtime.go:197-209 | Clears an older cancel flag before the marker is written. |
| GameFolder.Folder.RecordUpdateIntent | launcher/internal/update/intent.go:34-84 | Writes a marker only for a valid release newer than the one the folder reports, or than the server's own where the folder reports none. |
| GameFolder.Folder.CancelUpdateIntent | launcher/internal/server/update.go:103-111 | Drops the marker and the old flag, then leaves a flag. |
| GameFolder.Folder.NoteSuccessfulStart | launcher/internal/update/retention.go:83-127 | Counts starts of the installed release and retires game.old/ at the second. |
| UpdateProofs.PendingEnds | launcher/internal/update/apply.go:82-513 | How every exit of the pipeline leaves the folder: untouched, swapped, or one recovery away, and whether the marker stands. |
| UpdateAnswers.FirstRefusalAnswers | launcher/internal/update/apply.go:115-345 | Whatever the calls meet, the first of fifteen things wrong with marker, folder, manifest, launcher, disk, download or archive is the answer, retryable or not as listed, and nothing but the request is touched. |
| UpdateAnswers.EveryAnswerHasItsCause | launcher/internal/update/apply.go:115-513 | And every answer has its cause: the first thing wrong, or a later step only where nothing is wrong. |
| UpdateAnswers.InstalledExactlyWhenNothingStops | launcher/internal/update/apply.go:82-513 | Undisturbed over a folder with a game/, the target is installed if and only if nothing stops it; then the whole folder is as stated, the old game kept and the request gone; otherwise the first thing is the answer, and what was staged is gone. |
| UpdateAnswers.OldLauncherIsRefused | launcher/internal/update/apply.go:226-241 | A launcher older than launcher_min, or either of them unreadable, is answered launcher_min and nothing but the request is touched. |
| UpdateAnswers.NothingToApply | launcher/internal/update/apply.go:84-112 | Without the folder to itself or without a marker Apply does nothing and says which, and only then. |
| UpdateLife.RecordedHoldsTheManifest | launcher/internal/update/intent.go:34-84 | A request is recorded if and only if it is wanted; the marker holds a later manifest to exactly the release, and to size and hash where the first one declared them, and to its address. |
| UpdateLife.RequestIsInstalled | launcher/internal/update/startup.go:53-109 | A recorded request that moves the folder forward is installed by the next undisturbed start, with the old game kept and the request gone. |
| UpdateLife.CancellationIsRecorded | launcher/internal/server/update.go:103-111 | A cancellation that is not cut short leaves no marker, a flag, and everything else as it was. |
| UpdateLife.CancelledIsNeverApplied | launcher/internal/server/update.go:97-111 | After it no start of any run applies anything or changes launcher/, on any machine, until the next request. |
| UpdateLife.RunningApplyIsCancelled | launcher/internal/update/apply.go:413-440 | An Apply that is staging when the flag is written ends cancelled, with game/ and launcher/ as they were and nothing staged. |
| UpdateReports.RecoverySaysWhatItDid | launcher/internal/update/swap.go:305-427 | From any disk an undisturbed recovery reports forward, back, cleaned or nothing exactly where that is what it did. |
| UpdateReports.RollbackForgetsStarts | launcher/internal/update/startup.go:80-84 | A start that rolled back leaves no counter of starts; any other leaves it as found. |
| UpdateReports.OneRefusalIsUndone | launcher/internal/update/swap.go:199-277 | A swap in which any one call is refused goes through or is undone, and recovery would leave game/ as it is. |
| UpdateReports.OneRefusalKeepsAGame | launcher/internal/update/swap.go:372-394 | A recovery rolling forward never loses game/ to one refused call. |
| UpdateReports.SwapNeedsBothTrees | launcher/internal/update/swap.go:199-222 | Without both trees a swap touches nothing. |
| UpdateReports.FolderReports | launcher/internal/update/retention.go:149-180 | A game/ that names its release is that release, whatever launcher/ says; otherwise launcher/ says, and the target after an installation. |
| UpdateReports.OneRefusalReplacesOrKeeps | launcher/internal/update/extract.go:284-357 | A file that cannot be renamed over is moved aside and replaced all the same, leaving nothing behind; another refused call leaves it as it was, and no other file changes. |
| UpdateReports.MovedFileIsPutBack | launcher/internal/update/extract.go:330-350 | A file moved aside in vain is put back. |
| UpdateReports.TornBundleIsDropped | launcher/internal/update/apply.go:478-487 | A torn launcher.new/ is dropped, not merged, and the request tried again. |
| UpdateRuns.EveryRunIsSafe | launcher/internal/update/apply.go:82-513 | Over every run of starts, heartbeats, requests and cancellations, each cut short at any call, some whole release can be recovered and the folder never reports a pending target that recovery would not install. |
| UpdateTheorems.ShortCutIsTrue | launcher/internal/update/apply.go:185-200 | After any run, already_current is answered only when game/ holds the target. |
| UpdateTheorems.SurvivedStartIsRunnable | launcher/internal/update/startup.go:53-109 | After any run, a start that survives leaves game/ whole, or absent with a whole backup and the swap marker. |
| UpdateTheorems.UnappliedLeavesTheFolder | launcher/internal/update/apply.go:82-513 | Every outcome but applied and launcher_merge_failed leaves game/ and launcher/ as found, except a swap whose restoring rename failed, which leaves the marker for recovery. |
| UpdateTheorems.MarkerSurvivesIffRetryable | launcher/internal/update/apply.go:543-593 | The pending marker survives an attempted Apply if and only if the result says retryable. |
| UpdateTheorems.CancellationLeavesNothing | launcher/internal/update/apply.go:82-513 | Undisturbed on a recovered folder, a cancelled Apply leaves neither marker, flag nor game.new/, and game/ and launcher/ as found. |
| UpdateTheorems.RetryBudgetBounds | launcher/internal/update/runtime.go:54 | Over any run one marker causes at most three counted failures; its remaining allowance is the measure. |
| UpdateTheorems.RecordedRequestIsFresh | launcher/internal/update/runtime.go:197-209 | A recorded request leaves no older cancel flag. |
| UpdateTheorems.OldCancelNeverCancels | launcher/internal/update/runtime.go:197-209 | While nobody cancels, no start of any run reports a cancellation. |
| UpdateExactness.SafeMachinesAreExact | launcher/internal/update/swap.go:199-427 | The update life is safe on every run if and only if: across volumes the removal of game.new/ is all or nothing, markers are never refused, recovery is not refused half way, and every start finds the update directory. |
| UpdateExactness.TornStagingBreaks | launcher/internal/update/movedir.go:54-66 | Across volumes a torn removal of game.new/ after promotion lets recovery install the torn tree. |
| UpdateExactness.LostMarkersBreak | launcher/internal/update/swap.go:167-175 | A lost marker removal makes recovery undo a completed update that launcher/ already reports. |
| UpdateExactness.LostSidecarBreaks | launcher/internal/update/startup.go:53-109 | A start without its update directory puts a torn backup in place of a good game/. |
| UpdateExactness.RefusedRecoveryBreaks | launcher/internal/update/startup.go:65-109 | A recovery refused half way followed by Apply in the same start tears the only whole tree. |
| UpdateLauncher.AppliedMeansLive | launcher/internal/update/extract.go:247-280 | An Apply that answers applied, whatever failed on the way, has every file of the bundle live in launcher/ at the target release. |
| UpdateLauncher.ApplyMerges | launcher/internal/update/apply.go:470-486 | However Apply ends and wherever it dies, if the configuration is the bundle's last file or not in it, a launcher/ that reports the target is complete. |
| UpdateLauncher.LauncherIsCompleteExactlyWhen | launcher/internal/update/apply.go:185-200 | Over every run of starts, heartbeats, cancellations and requests for any releases, a start drops its request as done only over a complete launcher/ of that release, if and only if no valid release ships a launcher file after launcher.config.json. |
| UpdateLauncher.MixedLauncherStays | launcher/internal/update/apply.go:478-486 | A merge that dies just after the configuration leaves the rest unmerged for good: the next undisturbed start drops the request. |
| UpdateArchive.InstalledIsPublished | launcher/internal/update/apply.go:300-440 | With the download, Verify and Extract in the place of the pipeline's answers: whatever an Apply installs was asked for by a marker and one manifest that passed every gate, is byte for byte the declared length of what the address serves whatever attempts were broken off before, has the published digest, holds every non-empty indexed file, and was staged as indexed within total_size. |
| UpdateDetails.SpaceGateHoldsExactlyWhen | launcher/internal/update/runtime.go:311-324 | The free-space gate keeps out every disk that is too small if and only if the need fits 64 bits. |
| UpdateDetails.RequiredIsPeak | launcher/internal/update/runtime.go:303-325 | What the free space is compared with is archive, two copies and a twentieth, at least 64 MiB, cut off to 64 bits once. |
| UpdateDetails.ReconcileHoldsToThreeFields | launcher/internal/update/apply.go:630-657 | Reconciliation accepts exactly the manifests that agree in release, size and hash; the comparison of addresses never refuses. |
| UpdateDetails.SwappedAddressIsAccepted | launcher/internal/update/apply.go:643-655 | A manifest naming another archive address for the same release is accepted. |
| UpdateDetails.NothingIsInstalledUnchecked | launcher/internal/update/apply.go:82-513 | Remark to PendingEnds: an Apply that installs anything had a valid, forward, uncancelled marker within its budget and a manifest, archive and staged tree that passed every gate, the free-space gate as its 64-bit sum has it. |
| UpdateDetails.OnlySecondStartRetires | launcher/internal/update/retention.go:83-127 | Whatever fails, a start removes nothing of game.old/ unless the same release has started before. |
| UpdateDetails.SecondStartRetires | launcher/internal/update/retention.go:83-127 | Undisturbed, the backup is gone after a start if and only if it was the second of its release. |
| Versions.ParseVersion | launcher/internal/update/manifest.go:362-380 | The parsing loop against its specification, 64-bit overflow included. |
| Versions.ParsedExactlyWhen | launcher/internal/update/manifest.go:362-380 | A version is read if and only if every part is a 64-bit number and not negative, and then as those numbers. |
| Versions.VAndSpaceAreIgnored | launcher/internal/update/manifest.go:362-370 | White space around it and one leading v are no part of it. |
| Versions.CompareVersions | launcher/internal/update/manifest.go:294-321 | The comparison loop against the order on component lists. |
| Versions.CompareMeans | launcher/internal/update/manifest.go:294-321 | The comparison is the sign of the first differing component, missing ones being zero. |
| Versions.CompareEqualUpToZeros | launcher/internal/update/manifest.go:294-321 | Two parseable versions compare equal if and only if they are equal up to trailing zeros. |
| Versions.CompareTransitive | launcher/internal/update/manifest.go:294-321 | The order is transitive on parseable versions. |
| Versions.CompareSymmetric | launcher/internal/update/manifest.go:294-321 | Swapping the arguments negates the result. |
| Versions.ReleaseNewerIsStrictWeakOrder | launcher/internal/update/manifest.go:328-336 | ReleaseNewer is irreflexive, asymmetric, transitive and negatively transitive, on all strings. |
| Versions.UpdateChainsNeverCycle | launcher/internal/update/manifest.go:328-336 | No chain of updates returns to where it started. |
| Versions.CompareSemver | packaging/internal/pack/config.go:415-452 | The packager's comparison loop against its specification. |
| Versions.ComparatorsAgree | packaging/internal/pack/config.go:415-452 | On bare x.y.z the packager's and the launcher's orders agree. |
| Versions.PublishedFloorIsMet | launcher/internal/update/manifest.go:261-279 | A launcher_min the publisher's gate accepts is met by that launcher and any newer one. |
| Versions.FloorMetExactlyWhen | launcher/internal/update/manifest.go:261-279 | The floor is met if and only if there is none, or both versions are readable and the launcher is not before it component by component. |
| ReleaseOrders.CompareReleases | packaging/internal/pack/config.go:367-384 | The packager's loop over the parts of two releases against its specification, the dropped error of Atoi included. |
| ReleaseOrders.ReleaseOrderIs | packaging/internal/pack/config.go:367-384 | On valid releases it is the order by year, month and counter, the counter cut off at 2^63 - 1. |
| ReleaseOrders.PartsCountAs | packaging/internal/pack/config.go:370-384 | A part counts as its number, the nearest 64-bit one, or zero where it is none. |
| ReleaseOrders.LongerComesLater | packaging/internal/pack/config.go:370-384 | Of two that agree the longer comes later. |
| ReleaseOrders.ReleaseParses | launcher/internal/update/manifest.go:328-380 | The launcher reads a valid release if and only if its counter fits 64 bits. |
| ReleaseOrders.OrdersAgreeExactlyWhen | packaging/internal/pack/config.go:367-384 | Packager and launcher agree which of two valid releases is newer if and only if neither counter overflows, or both do in one month, or the one that does is of an earlier month. |
| Versions.OverflowingReleaseRanksLowest | launcher/internal/update/manifest.go:328-380 | Remark to ReleaseNewerIsStrictWeakOrder: a well-formed release whose counter overflows 64 bits never compares as newer. |
| JsonText.ReadsBack | launcher/internal/storage/storage.go:1274-1286 | Every layout of a value, with any white space, member order and spelling, is read as that value. |
| JsonSound.AcceptedIsWritten | launcher/internal/storage/storage.go:1274-1286 | Whatever is read is there: the text starts with a way to write the value it is read as. |
| JsonSound.ReadExactlyWhenWritten | launcher/internal/storage/storage.go:1231-1235 | A whole text is read as a value if and only if it is one of the ways to write it. |
| JsonSound.CanonicalOnlyOfValues | launcher/internal/storage/storage.go:1274-1286 | A text has a canonical form only if it starts with a value, and it is that of the value. |
| JsonSound.NumberExactlyWhen | launcher/internal/storage/storage.go:1274-1286 | The literals read as numbers are exactly those of the grammar. |
| JsonSound.WhiteSpaceExactly | launcher/internal/storage/storage.go:1274-1286 | And white space exactly its four characters. |
| JsonCanonical.ParsedIsWellFormed | launcher/internal/storage/storage.go:1274-1286 | Whatever the decoder accepts holds only number literals of the grammar. |
| JsonCanonical.DecodeEncode | launcher/internal/storage/storage.go:1288-1345 | Decoding the canonical text gives back the value and stops at its end. |
| JsonCanonical.EncodeInjective | launcher/internal/storage/storage.go:1288-1345 | Different values have different canonical texts. |
| JsonCanonical.CanonicalIdempotent | launcher/internal/storage/storage.go:1274-1345 | Canonicalising twice is canonicalising once. |
| JsonCanonical.CanonicalIgnoresLayout | launcher/internal/storage/storage.go:1274-1345 | Two texts have one canonical form if and only if they mean one value. |
| JsonCanonical.MemberOrderIsLayout | launcher/internal/storage/storage.go:1274-1345 | Two members of different names may be written in either order: the canonical form is the same. |
| JsonForm.OrdinaryIsWrittenAsItself | launcher/internal/storage/storage.go:1288-1350 | A string that needs no escape is written as itself. |
| JsonForm.OthersAreEscaped | launcher/internal/storage/storage.go:1288-1350 | Every other character by its short escape, or by four lower-case hex digits where it has none. |
| JsonForm.CanonicalIsNeat | launcher/internal/storage/storage.go:1288-1350 | A canonical text holds no control character and no markup, and no white space outside strings. |
| JsonEncoder.EncodeCanonical | launcher/internal/storage/storage.go:1288-1345 | The recursive encoder appends exactly the canonical text to its builder. |
| JsonEncoder.CanonicaliseJson | launcher/internal/storage/storage.go:1274-1286 | Decoder and encoder together compute the canonical form. |
| JsonPrefix.CutObjectIsBad | launcher/internal/storage/storage.go:1231-1246 | The text of an object cut inside the object is not a value at all. |
| Order.SortKeys | launcher/internal/storage/storage.go:1315-1320 | Sorting loop: the keys come out in the one strictly ascending order. |
| Order.SortedAscends | launcher/internal/storage/storage.go:1315-1320 | That order is strictly ascending, so each key comes out once. |
| SaveFile.WrittenReadsBack | launcher/internal/storage/storage.go:605-643 | A stored save is parsed back member for member, its payload is the canonical text, and the checksum passes. |
| SaveFile.CutSaveIsNoSave | launcher/internal/storage/storage.go:1231-1246 | A prefix of a stored save is no save, except the one missing only the final newline. |
| SaveFile.EnvelopeMembers | launcher/internal/storage/storage.go:606-628 | A save has exactly these members, the optional ones only where they say something. |
| SaveReads.SaveExactlyWhen | launcher/internal/storage/storage.go:1231-1246 | A file is a save if and only if it writes an object with the members of one, of the right types, and its payload is that member. |
| SaveReads.VerifiedExactlyWhen | launcher/internal/storage/storage.go:1259-1269 | A save passes its check if and only if it has no checksum or that of the canonical form of its payload. |
| SaveReads.ChangedPayloadIsCaught | launcher/internal/storage/storage.go:1259-1269 | Where the digest tells them apart, a save with the checksum of one value passes if and only if that value is its payload. |
| SaveReads.ReadableExactlyWhen | launcher/internal/storage/storage.go:785-833 | A slot is readable if and only if its live file passes, or its backup does, or its backup parses and its live file does not; the live file comes first. |
| SaveReads.GoodBackupIsServed | launcher/internal/storage/storage.go:790-829 | A backup that passes its check is never out of reach. |
| SaveReads.DeletedIsGone | launcher/internal/storage/storage.go:948-971 | After a deletion the slot is not found, if and only if its backup went too or fails its check, and no other slot changes. |
| SaveAnswers.SaveAnswersExactly | launcher/internal/storage/storage.go:575-602 | No slot, a stale revision, no JSON: refused in this order without a trace, and only for that; anything else is attempted as the next revision. |
| SaveAnswers.SavedIsStored | launcher/internal/storage/storage.go:604-675 | A save that answers success is in the file member for member, with the creation time it replaces, and the file it replaces is the backup. |
| SaveRefusals.OneRefusalOfAWrite | launcher/internal/storage/storage.go:323-407 | With any one call refused a write leaves no temporary file and the old save readable, and fails if and only if that call mattered. |
| SaveRefusals.OneRefusalOfACopy | launcher/internal/storage/storage.go:412-440 | Across devices one refused call leaves the whole file or none. |
| SaveRefusals.SlotExactlyWhen | launcher/internal/storage/storage.go:1356-1379 | Which names are slots, device names listed. |
| SaveProofs.WriteLeaves | launcher/internal/storage/storage.go:323-437 | A write stopped at any call leaves the file and its backup in one of the states of a rotation, touches nothing else, and success means new file and old backup. |
| SaveTheorems.WriteKeepsOrReplaces | launcher/internal/storage/storage.go:323-437 | Over a sound save, one write stopped anywhere, renamed or copied across devices, leaves a reader with the old payload or the new. |
| SaveTheorems.SurvivesExactlyWhenSound | launcher/internal/storage/storage.go:370-377 | A readable save survives every write, wherever it stops, if and only if its live file is absent or passes its check. |
| SaveTheorems.UnsoundIsLost | launcher/internal/storage/storage.go:370-377 | A save readable only from its backup is lost when the process dies between dropping that backup and renaming. |
| SaveTheorems.TwoTornCopiesLose | launcher/internal/storage/storage.go:412-437 | Two interrupted writes across devices can lose a save that one cannot. |
| SaveTheorems.ReadsAreChecked | launcher/internal/storage/storage.go:785-833 | A served payload is that of the live file or its backup and passed its check, except a backup standing in for a live file that does not parse. |
| SaveTheorems.UncheckedBackupIsServed | launcher/internal/storage/storage.go:811-818 | That exception is real: any backup that parses is served over a live file cut to nothing, but not once the live file is gone. |
| SaveRuns.SaveKeepsOrReplaces | launcher/internal/storage/storage.go:575-675 | One WriteSave, every exit, stopped anywhere: old payload or new, and the new one if it answers success. |
| SaveRuns.SlotsAreIndependent | launcher/internal/storage/storage.go:575-675 | A save touches no other slot. |
| SaveRuns.EveryRunReadsACandidate | launcher/internal/storage/storage.go:785-833 | After any number of saves and restarts on one device a reader finds the last acknowledged payload or one attempted after it. |
| SaveRuns.NeverLost | launcher/internal/storage/storage.go:785-833 | Once a payload has been readable no run makes the slot unreadable or not found. |
| SaveRevisions.EvictsOldest | launcher/internal/storage/storage.go:690-722 | Pruning a window evicts exactly the revisions that fall out of the next one. |
| SaveRestarts.CompletedSaveSlides | launcher/internal/storage/storage.go:652-722 | A completed save takes the next revision and the sidecars slide by one. |
| SaveRestarts.OtherSlotsStayTidy | launcher/internal/storage/storage.go:652-722 | A save, stopped anywhere, leaves the sidecars and counter of every other slot in order. |
| SaveRestarts.CompletedRunsStayTidy | launcher/internal/storage/storage.go:449-722 | Through any run of completed saves and restarts every slot's sidecars are exactly its live revision and the keep_revisions before it, and restarts recover every counter. |
| SaveRestarts.RestartRemembers | launcher/internal/storage/storage.go:449-496 | InitRevisions over a window recovers exactly its newest revision. |
| SaveHazards.RestartSees | launcher/internal/storage/storage.go:449-496 | After a save refused or stopped anywhere the restart sees the new revision exactly when its sidecar was written, and none when only the backup is left. |
| SaveHazards.RestartWithoutSidecars | launcher/internal/storage/storage.go:449-496 | Without sidecars a restart takes the revision from the save, or one where it names none. |
| SaveHazards.RestartAgreesExactlyWhen | launcher/internal/storage/storage.go:652-681 | The restart agrees with the header of the save it finds if and only if that is not the new save with its sidecar missing. |
| SaveHazards.AcknowledgedSaveForgotten | launcher/internal/storage/storage.go:652-661 | If the sidecar write fails, an acknowledged save is forgotten by a restart and a second save with the same if_revision succeeds. |
| SaveHazards.BackupOnlyIsRevisionZero | launcher/internal/storage/storage.go:460-491 | A slot left with only its backup is still read but counted from zero. |
| SaveHazards.DeletedRevisionReturns | launcher/internal/storage/storage.go:948-971 | Deleting a slot leaves its sidecars, so after the next save a restart brings the old revision back. |
| SaveConcurrency.LockIsNeededAndEnough | launcher/internal/storage/storage.go:596-603 | Every interleaving of saves and deletions answers consecutive revisions under true conditions if and only if the write lock is taken. |
| SaveConcurrency.LoneOperationIsAnswered | launcher/internal/storage/storage.go:575-675 | A thread that meets no other is answered as it should be and leaves the lock free. |
| SaveConcurrency.OneWinnerPerRevision | launcher/internal/storage/storage.go:725-739 | In every interleaving under the lock, between deletions, of all saves carrying one if_revision at most one succeeds. |
| SaveConcurrency.RevisionsAreConsecutive | launcher/internal/storage/storage.go:575-675 | In every interleaving under the lock, between deletions successive successes of a slot have successive revisions. |
| SaveEngine.Saves.WriteAtomic | launcher/internal/storage/storage.go:323-408 | The method, call by call, ends in the specified state for every script. |
| SaveEngine.Saves.RenameCrossDevice | launcher/internal/storage/storage.go:412-437 | Likewise for the copy across devices. |
| SaveEngine.Saves.PruneRevisions | launcher/internal/storage/storage.go:690-722 | Scan, sort and evict loops against the specification. |
| SaveEngine.Saves.InitRevisions | launcher/internal/storage/storage.go:449-496 | The nested scan rebuilds exactly the specified revision map. |
| SaveEngine.Saves.WriteSave | launcher/internal/storage/storage.go:575-675 | Conflict, malformed body, write, bump, prune and sidecar, in order. |
| SaveEngine.Saves.ReadSave | launcher/internal/storage/storage.go:785-833 | Live file, parse, checksum and the three backup fallbacks. |
| SaveEngine.Saves.DeleteSave | launcher/internal/storage/storage.go:948-971 | Moves the slot and its backup away and resets the counter. |
| SaveEngine.Saves.MergeConfig | launcher/internal/storage/storage.go:1149-1193 | Revision check, the panic over a document `null`, merge of top-level keys, atomic write. |
| ConfigStore.MergeKeepsOrApplies | launcher/internal/storage/storage.go:1149-1193 | On one device a settings merge stopped anywhere leaves the old document or the merged one. |
| ConfigStore.SettingsReadExactly | launcher/internal/storage/storage.go:1113-1176 | Settings are the members of the object the whole text writes, and none of any other text. |
| ConfigStore.MergeAnswersExactly | launcher/internal/storage/storage.go:1149-1194 | A stale revision is a conflict, a null document stops the program, anything else is attempted; undisturbed it succeeds. |
| ConfigStore.MergeKeepsSaves | launcher/internal/storage/storage.go:1149-1194 | No merge touches a save. |
| ConfigStore.SettingsSurvive | launcher/internal/storage/storage.go:1113-1193 | Through any run of merges a setting holds its first value or one some merge gave it. |
| ConfigStore.NullIsForGood | launcher/internal/storage/storage.go:1168-1177 | Through any run of merges the settings document is `null` if and only if it was at the start. |
| ConfigStore.TornConfigForgets | launcher/internal/storage/storage.go:1113-1193 | Across devices a torn settings file hides its good backup, and the next merge drops every setting it does not mention. |
| DownloadProofs.AttemptKeeps | launcher/internal/update/download.go:213-440 | One attempt, answered in any way and stopped anywhere, leaves a partial file its record may vouch for, never longer than declared, and success is exactly the declared bytes and their digest. |
| DownloadTheorems.ResumedEqualsStraight | launcher/internal/update/download.go:213-440 | After any history of failed, cancelled and interrupted attempts a successful download equals a straight one. |
| DownloadTheorems.NeverSplicedExactlyWhenSure | launcher/internal/update/download.go:240-263 | Over all histories and archives bytes of two archives are never joined if and only if the partial's record can always be removed. |
| DownloadTheorems.CalmAttemptSucceedsExactly | launcher/internal/update/download.go:291-440 | An undisturbed attempt with an acceptable answer succeeds if and only if the archive has at least the declared bytes. |
| DownloadTheorems.CompleteIsNotResumed | launcher/internal/update/download.go:148-161 | Remark to CalmAttemptSucceedsExactly: a complete partial is never continued. |
| DownloadTheorems.RefusedExactlyWhen | launcher/internal/update/download.go:213-240 | An insecure address, no size or too large a size is refused, in this order, before anything is touched, and only these are. |
| DownloadTheorems.ContinuedExactlyWhen | launcher/internal/update/download.go:148-160 | A partial file is continued if and only if a record of its very length vouches for it and more is to come. |
| DownloadTheorems.BrokenOffIsContinued | launcher/internal/update/download.go:291-440 | What the player, the server or the network broke off is continued where it stopped, and completed by the rest. |
| DownloadTheorems.WrongAnswerIsRefused | launcher/internal/update/download.go:309-366 | An answer that announces too much, or is not for the range asked for, is refused before a byte is written. |
| DownloadTheorems.NotContinuedIsCleared | launcher/internal/update/download.go:240-285 | What is not continued is cleared away first. |
| DownloadTheorems.UnreadableIsDropped | launcher/internal/update/download.go:367-378 | Bytes that cannot be read back are dropped. |
| DownloadTheorems.BrokenReadSaysWhy | launcher/internal/update/download.go:416-426 | A broken read is a cancellation if and only if the player has asked. |
| DownloadTheorems.SuccessIsRecorded | launcher/internal/update/download.go:428-440 | The end of a body is a success if and only if it is long enough, and is recorded either way. |
| DownloadTheorems.StandardRangeIsRead | launcher/internal/update/download.go:445-468 | A Content-Range of RFC 9110, section 14.4, is read as its first position. |
| DownloadTheorems.UnsatisfiedRangeIsRefused | launcher/internal/update/download.go:445-468 | The unsatisfied form is refused. |
| Downloader.Download.DownloadArchive | launcher/internal/update/download.go:213-284 | The checks, the choice to resume and the transfer, against the specification. |
| Downloader.Download.CopyBody | launcher/internal/update/download.go:371-439 | The read and write loop against the specification. |
| ArchivePaths.AcceptedNameIsCanonical | launcher/internal/update/archive.go:81-149 | An accepted name is clean, not below data/, and free of back-slashes, roots, drives, reserved characters, device names and trailing dots or blanks. |
| ArchivePaths.StepBackIsUndone | launcher/internal/update/archive.go:81-140 | A segment and the step back out of it lead nowhere, and neither do empty segments and dots. |
| ArchivePaths.PackagedNameIsAccepted | packaging/internal/pack/schema.go:224-255 | Of the names the packager lets through, the launcher lets in exactly those without one of seven reserved characters. |
| ArchivePaths.TargetsAreDistinct | launcher/internal/update/extract.go:212-233 | Different members go to different places. |
| ArchiveProofs.TargetIsConfined | launcher/internal/update/extract.go:212-233 | Whatever a member is called, its place is below a staging directory with no dot segment. |
| ArchiveBudget.ExtractStaysWithinBounds | launcher/internal/update/extract.go:84-188 | Of any archive at all Extract writes only below the staging directories, and at most total_size bytes unless some declared size overflows the 64-bit sum. |
| ArchiveBudget.SizeIsBoundedExactlyWhen | launcher/internal/update/extract.go:122-127 | No archive exceeds the budget through a member of a given declared size if and only if budget and size add up to a 64-bit number. |
| ArchiveBudget.OverflowExceeds | launcher/internal/update/extract.go:122-127 | The archive that exceeds it: a first file of the whole budget, then one whose declared size overflows the sum. |
| ArchiveBudget.AcceptedStaysWithinBounds | launcher/internal/update/verify.go:158-211 | Of an archive Verify accepts Extract never writes more than total_size, whatever the sizes. |
| ArchiveProofs.TotalAgreesExactlyWhenComplete | launcher/internal/update/verify.go:158-211 | For distinct members the total agrees with the index if and only if every missing file is empty. |
| ArchiveProofs.AcceptedIsComplete | launcher/internal/update/verify.go:103-215 | An accepted archive of distinct members holds every non-empty indexed file with its size and hash. |
| ArchiveProofs.DuplicateHidesMissing | launcher/internal/update/verify.go:158-211 | A file stored twice hides a missing one of the same size. |
| ArchiveProofs.AcceptedArchivesAreOne | launcher/internal/update/verify.go:123-156 | All archives accepted for one manifest have one digest and, where declared, one size. |
| ArchiveProofs.ExtractedAsIndexed | launcher/internal/update/extract.go:89-188 | Even without Verify, an extraction that succeeds or breaks off leaves only indexed files, each with its size, hash and mode. |
| ArchiveProofs.VerifiesExactlyWhen | launcher/internal/update/verify.go:103-215 | Verify accepts if and only if the manifest is unsigned, size and hash are the declared ones, every member passes and the files add up. |
| ArchiveProofs.HashMatchesExactlyWhen | launcher/internal/update/verify.go:280-306 | A declared hash matches if and only if it is the tagged digest up to case and surrounding white space. |
| ArchiveTrees.StagedIsATree | launcher/internal/update/extract.go:65-205 | Whatever the archive, what is staged is a tree: no file where a directory is needed. |
| ArchiveTrees.DirectoriesAreMade | launcher/internal/update/extract.go:110-125 | An extraction that succeeds has made exactly the directories among the members. |
| ArchiveTrees.BrokenFileIsRemoved | launcher/internal/update/extract.go:150-190 | A file that ends early or is not the indexed one is not left behind. |
| ArchiveTrees.ModeExactly | launcher/internal/update/extract.go:384-395 | The mode is the index's, else the member's, else 644. |
| ArchiveProofs.AcceptedUnpacks | launcher/internal/update/extract.go:65-200 | An archive Verify accepts unpacks completely, file for file, if its members have places of their own. |
| ArchiveTheorems.ShippedHolds | packaging/internal/pack/collect.go:333-351 | A release ships every file below game/ and launcher/ but its manifest, once. |
| ArchiveTheorems.PackageThenInstall | packaging/internal/pack/archive.go:181-271 | Package then install is the identity: Verify accepts, and Extract leaves exactly the shipped files with content and mode, each at its own place. |
| ArchiveTheorems.AcceptedExactlyWhenPlain | packaging/internal/pack/collect.go:114-194 | A scanned package is accepted by the launcher if and only if no shipped name has a reserved character. |
| ArchiveTheorems.GateImpliesAccepted | packaging/internal/pack/archive.go:544-612 | Whatever archive the packager's own check passes, with distinct plain names and a manifest that adds up, the launcher accepts. |
| ArchiveTheorems.BuiltPassesGate | packaging/internal/pack/archive.go:544-612 | Every built package passes the packager's own check, plain names or not. |
| Packager.BuildFileIndex | packaging/internal/pack/manifest.go:162-204 | The index loop: entries and total of exactly the shipped files, or a refusal. |
| Packager.BuildUpdateArchive | packaging/internal/pack/archive.go:181-271 | The archive loop: one regular member per shipped file. |
| Packager.CheckArchive | packaging/internal/pack/archive.go:544-612 | The streaming comparison decides that members and index match in both directions. |
| Installer.Verify | launcher/internal/update/verify.go:103-215 | The checks in order and the accumulating walk, against the specification. |
| Installer.BuildIndex | launcher/internal/update/verify.go:251-260 | The index by clean path, the last entry winning. |
| Installer.StagingRoot.Extract | launcher/internal/update/extract.go:65-200 | The extraction loop with its budget, against the specification. |
| ConfigMerge.MergeConfigDocs | launcher/internal/update/configmerge.go:173-229 | The loop and recursion compute the merge and the two lists of key paths. |
| ConfigMerge.SelfMerge | launcher/internal/update/configmerge.go:173-229 | Merging a document with itself is the identity. |
| ConfigMerge.MergeIdempotent | launcher/internal/update/configmerge.go:173-229 | Merging the same release again, or the result into the local document, changes nothing. |
| ConfigOrigins.MergesAtEveryLevel | launcher/internal/update/configmerge.go:202-213 | Where both sides have objects the objects are merged and their key sets unite, at any depth. |
| ConfigOrigins.OriginsAreTrue | launcher/internal/update/configmerge.go:173-240 | Every key path listed for one side is in the result as that side had it. |
| ConfigOrigins.OriginsAreComplete | launcher/internal/update/configmerge.go:173-240 | Every value in the result lies under a listed key path. |
| ConfigSchema.RewriteIsStable | launcher/internal/config/config.go:275-288 | What is decoded over the defaults and written back is accepted again and written back unchanged. |
| ConfigSchema.RewriteAt | launcher/internal/config/config.go:275-288 | Each place of the document is read, defaulted and written on its own. |
| ConfigSchema.OnlyKnownPlaces | launcher/internal/config/schema/launcher.config.schema.json:7 | A document with anything in a place the schema does not know is refused. |
| ConfigHistories.ValidMergesAreAccepted | launcher/internal/update/configmerge.go:117-124 | Two documents the merge can read merge to one it accepts. |
| ConfigHistories.InstalledIsStable | launcher/internal/update/configmerge.go:122-139 | After any history with an installed release the document is accepted by every later merge and written back unchanged. |
| ConfigHistories.FirstMergeDecides | launcher/internal/update/configmerge.go:113-139 | An unowned setting is the local one, else the first release's, else the default, and no later release changes it, unless it is empty and omitted. |
| ConfigHistories.EmptyIsLost | launcher/internal/config/config.go:46 | One update drops an empty local member that writing omits; the next installs the release's value. |
| ConfigHistories.OwnedFollowsLatest | launcher/internal/update/configmerge.go:194-200 | Once a release is installed, a release-owned member is the latest declaration as the launcher reads and writes it. |
| ConfigHistories.TableFollowsLatest | launcher/internal/config/config.go:221-234 | Of a release-owned table every entry is the latest declaration's, or the default it does not replace. |
| ConfigHistories.KeysAreTheSchemas | launcher/internal/update/configmerge.go:126-139 | Once a release is installed, the keys of every object are those of the schema but for the empty members that writing omits. |
| LauncherSchema.MergeReaderReadsAsShown | launcher/internal/update/configmerge.go:242-257 | The reader that takes a whole number into a float64, writes the shortest decimal of that and reads it into 64 bits has every property assumed of the merge's reader. |
| ConfigLaunch.LaunchReadsInstalled | launcher/internal/config/config.go:260-288 | And the next launch accepts it and runs with exactly what it says, though it reads numbers in its own way. |
| ConfigLaunch.UpdateIsRefusedExactlyWhen | launcher/internal/update/configmerge.go:113-124 | Of a local file the launch accepts and a release the merge can read, the merge is refused if and only if the merge cannot read the local file. |
| ConfigLaunch.ReadableExactlyWhen | launcher/internal/update/configmerge.go:242-257 | It can if and only if it can read each declared value. |
| ConfigLaunch.LocalSettingIsSafeExactlyWhen | launcher/internal/update/configmerge.go:53-60 | What the launch runs with at a declared setting stays through every sequence of valid releases if and only if the merge cannot read the file at all; or it reads the value as the launch does and the setting is neither release-owned nor an empty member that writing omits, or the schema admits no other value. |
| Floats.FloatIsHeld | launcher/internal/update/configmerge.go:242-257 | Rounding a whole number to 53 bits twice is rounding it once. |
| Floats.FloatFitsExactlyWhen | launcher/internal/update/configmerge.go:242-257 | A 64-bit number rounds out of the 64-bit range if and only if it is 2^63 - 512 or more. |
| Shortest.ShownReads | launcher/internal/update/configmerge.go:113-124 | Whatever number is written for a float64 is read back as that float64. |
| Shortest.ShownIsStable | launcher/internal/update/configmerge.go:113-124 | Reading and writing it again changes nothing more. |
| Shortest.DecimalIsShortest | launcher/internal/update/configmerge.go:113-124 | No number read as the same float64 ends in more zeros, and of those that end in as many none is nearer to what the float64 holds. |
| ShortestDigits.FewestDigits | launcher/internal/update/configmerge.go:113-124 | None can be written with fewer significant digits. |
| ShortestDigits.NoOtherIsAsNear | launcher/internal/update/configmerge.go:113-124 | Of those with as many zeros every other is further away, so the number written is the only one it can be. |
| Shortest.ShownFitsExactlyWhen | launcher/internal/update/configmerge.go:113-124 | A 64-bit number is written as one if and only if it is below 2^63 - 512. |
| Shortest.ManyDigits | launcher/internal/update/configmerge.go:113-124 | 1234567890123456789 is held as 1234567890123456768 and written as 1234567890123456800. |
| LauncherConfig.SameLauncher | launcher/internal/config/config.go:260-288 | The launcher's schema as the launch and as the merge reads it differ in numbers only, and agree on whatever the merge writes. |
| LauncherSchema.LauncherSound | launcher/internal/config/schema/launcher.config.schema.json:1-343 | The launcher's schema and defaults have the properties the theorems ask for: its readers accept what they write, and every default is valid. |
| LauncherConfig.PlainIsValid | launcher/internal/config/config.go:196-256 | A document with the four required members and nothing else is accepted. |
| LauncherSettings.UpdatesGoThroughExactlyWhen | launcher/internal/update/configmerge.go:113-124 | Of a local file the launch accepts and a release the merge can read, the merge is accepted if and only if every declared number is below 2^63 - 512. |
| LauncherSettings.SettingsAtRisk | launcher/internal/update/configmerge.go:40-60 | What the launch runs with at a declared setting can be changed by some valid releases if and only if every declared number is below 2^63 - 512 and the setting is release, game_id, game_name or locales; or csp, cross_origin_embedder_policy or patch_base_url and empty; or a number that is not the one written for its float64. |
| LauncherSettings.NumberIsShown | launcher/internal/update/configmerge.go:113-139 | The first update leaves the shortest decimal of the float64 where the launch ran with the declared number. |
| LauncherSettings.BytesBecome | launcher/internal/update/configmerge.go:113-139 | A declared write quota below 2^63 - 512 is safe if and only if it is that decimal, and any update leaves that decimal. |
| LauncherSettings.HoldingIsNotEnough | launcher/internal/update/configmerge.go:113-139 | A quota of 2^60, which a float64 holds, becomes 1152921504606847000 and is at risk; one of 1152921504606847000, which none holds, is safe. |
| LauncherSettings.LastBitIsLost | launcher/internal/update/configmerge.go:242-257 | A write quota of 2^53 + 1 bytes, which the launch runs with, is 2^53 after any update. |
| LauncherSettings.NoLimitStopsUpdates | launcher/internal/update/configmerge.go:113-124 | With a write quota of 2^63 - 1, which the launch accepts, every update is refused. |
| LauncherSettings.DefaultTypesStay | launcher/internal/update/configmerge.go:194-197 | A default MIME type the release's table leaves out is installed all the same. |
| LauncherSettings.EmptySettingIsLost | launcher/internal/update/configmerge.go:126-139 | Any of the three empty settings is gone after one update and the release's after the next. |
| Quota.Store.Allow | launcher/internal/session/session.go:403-449 | The counters and the verdict, the missing session included, against the specification. |
| Quota.TwiceTheLimit | launcher/internal/session/session.go:199-449 | From the creation of a session, with a clock that does not go back, no closed interval of one window sees more than twice the limits accepted, and a window never more than the limits. |
| Quota.TwiceIsReached | launcher/internal/session/session.go:199-449 | Whatever the limits, twice both is reached in one interval of a new session, so no smaller bound holds. |
| Quota.RetryIsHonoured | launcher/internal/session/session.go:421-428 | A refusal asks for 1 to 60 seconds and that much later a write within the limit is accepted. |
| Quota.RetryIsLeast | launcher/internal/session/session.go:421-428 | It is the least whole number of seconds to the end of the window. |
| Quota.RetryAfterGoingBack | launcher/internal/session/session.go:415-428 | With a clock that went back it is 60. |
| Quota.VerdictExactlyWhen | launcher/internal/session/session.go:403-449 | Which limit refuses a write, zero meaning the default and a negative one none, and what is counted. |
| Quota.BytesAcceptedExactly | launcher/internal/session/session.go:437-441 | The byte check accepts exactly what fits, and any size whose 64-bit sum overflows. |

Nothing was executed: every statement above is one the verifier proves of the model.

## Left out

- HTTP server, handlers, cookies, CSRF, static serving and browser detection: plumbing with one-branch properties.
- The session store apart from the quota (bootstrap tokens, expiry, capacity, writer election): one-branch properties.
- The instance lock of the launcher: its reclaiming of a stale lock gives no mutual exclusion to state a theorem about.
- Mods, trash retention, the save list and the writer claim of a save: easy next to the rest of the engine. The quarantine of stray temporary files likewise.
- Progress and result records, event logs, user messages and timestamps: data nobody reads back; a progress write appears only as a call that can fail.
- The data/ snapshot: one yes-or-no answer of the world around Apply. In the apply pipeline the check of the merged configuration is one too; what it writes is modelled in the configuration modules.
- A release that changes the configuration schema or its defaults: one schema holds through a history.
- Signatures: a signed manifest is refused, as in a build without a verifier.
- Real SHA-256, zstd, tar and ZIP encodings, URL resolution and redirects, TOML and JSON schema validation: parameters or data.
- File contents and permissions in the swap model: a tree is absent, torn or whole with its release.
- Bytes below characters: texts are sequences of code points, so a copy cut inside one character and invalid UTF-8 are not modelled; nor is encoding/json's nesting limit of 10000, its case-insensitive matching of header members, or two members of one header name where an earlier one has the wrong type.
- Read errors other than a missing file, and calls that only look (stat, directory listings): they always answer.
- The free-space check and directory creation before an atomic write are one call that may be refused; the sync and close of the temporary file are another.
- Case-insensitive file systems: two members that differ only in case are distinct places here.
- UpdateDetails.NothingIsInstalledUnchecked: the answers of Verify and Extract are inputs here; `UpdateArchive.InstalledIsPublished` puts the functions, and the download, in their place.
- SaveEngine.Saves.DeleteSave: moving a deleted save to the trash is one call; its copy across devices, which leaves the save live until the copy is complete, is not modelled.
- ConfigStore.Merge: the settings document is a value written in its canonical text, because the spelling of untouched nested values does not change any answer.
- The revision counter of a slot wrapping around after 2^63 saves: the theorems ask for one more step of room.
- Reader.Read returning nothing without an end or an error: a read here delivers at least one byte or ends the body.
