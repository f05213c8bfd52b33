# Verified model of limine-manager

limine-manager keeps a Limine boot configuration in step with a Btrfs/Snapper system. This project
models the parts of it that have to hold up when any step fails, and its parsers, printers and
algorithms, and proves what they promise. `dafny verify dfyconfig.toml` checks everything.

## How it is modelled

- **Disk.** `Filesystem.Disk` is a tree from path to bytes, mode and owner. A schedule, which no contract
  restricts, decides for every call whether it fails; the calls and their answers are logged and the
  failures counted, so contracts can say "without a fault", "under one fault" and "exactly when this call
  was refused". Every moment the disk goes through is recorded, so contracts speak about all intermediate
  states (`Shows`, `Evolves`) and not only about the last one; `Evolves` also bounds what was asked to be
  unlinked. A moment also says which contents and which directory entries are not synchronised and what they
  may fall back to, so `MayRecover` gives what a power failure can leave. Generated sibling names carry a
  clock tick and are therefore fresh.
- **Secure Boot apply.** `SecureFileOps`, `ApplyService`, `EfiImageTransaction`,
  `SecureBootTransaction`, `SecureBootTools` and `SecureBootApplyService` follow the source file by
  file, as classes and methods over one disk; exceptions are outcomes. The external tools are a
  `Toolchain`: what a command leaves in the EFI image is arbitrary unless it succeeds.
  `SecureBootAgreement` is about whole runs of applies, `PowerFailure` about a crash at any moment of one.
- **Btrfs rollback.** `BtrfsTopology` maps subvolume ids to paths, and a move carries everything nested
  below its source. `RollbackService` runs the forward steps and the compensating moves on it,
  `RollbackPlanner` decides what may be run, `SnapshotPaths` follows the path of a snapshot from the menu
  entry through the mount options back to the planner.
- **Refresh.** `RefreshProtocol` is a transition system: requesters and the holder of the refresh lock
  interleave step by step.
- **Text.** `UnifiedDiff`, `KernelCommandLine`, `BootCommandLine`, `ConfigLoader` with
  `ConfigRoundTrip` and `ConfigNumbers`, over the shared modules `Text` and `Sorting`; `KernelSelection`
  and `BackupService` are the two sorted listings. What the two parsers accept, and what it means, is told
  once more by the text itself: `CommandLineGrammar` and `ConfigMeaning`.

## Where the code falls short of its promise

Each of these is stated for all inputs or runs by the members named, with an instance or a family of them.

- `quote_argument` quotes for white space it knows and for double quotes, so an argument it leaves
  unquoted that contains `'`, a vertical tab or a form feed is not read back, nor is an empty one
  (`KernelCommandLine.RoundTripExactly`, an if and only if; `SingleQuoteIsLost`).
- `EfiImageTransaction::commit` may unlink its backup and then fail; from then on the image cannot be
  restored. It happens exactly when the `unlink` worked and the `fsync` of the directory was refused
  (`EfiImageTransaction.EfiTransaction.Commit`; every run under such a schedule in `CommitAndSpend`, one
  that loses the old bytes in `SpentRun`). The service reports that case as a failed rollback.
- The cleanup `unlink` of a created target (`src/application/apply_service.cpp:169`) is not checked. The
  new file stays behind an ordinary error exactly when a create plan was renamed into place, a later step
  failed and that `unlink` was refused (`LeftBehind`, an if and only if in `ApplyService.Contract` for the
  plain and in `SecureBootApplyService.ProtectedContract` for the protected apply; every run under such a
  schedule in `ApplyAndLeave`, one run in `LeakedRun`). It takes two failures.
- An exception between `clear_pending` and the end of a refresh run loses a consumed request
  (`RefreshProtocol.ThrowLosesRequest`; `SafeThrowKeepsInv` and `UnsafeThrowLoses` say exactly when, and
  `NoRequestIsLost` and `FirstUnsafeThrow` over whole runs).
- A snapshot subvolume configured with an empty, `.` or `..` part inside it, as in `a//b`, is accepted and
  written to the menu and can be booted, but the booted system is never recognised, since the mount options
  show the subvolume's own name (`SnapshotPaths.AcceptedSnapshotReadBack`, an if and only if;
  `DoubledSlashIsAccepted`). A comma is accepted too, and splits the `rootflags` into two mount options, of
  which the first names another path (`CommaSplitsOption`).
- A generated command line does not parse back to what was meant when a detected value contains white space
  or a quoting character. It fails the validator's own checks when no root subvolume was detected, when an
  encrypted root is not mounted from its mapper, and when the encryption parameter does not name it: for
  `sd-encrypt` a LUKS UUID that is not one, for `encrypt` a mapper name that is empty or starts with a colon
  (`BootCommandLine.GeneratorSatisfiesValidator`, an if and only if; `ColonMapper`).
- `std::stoull` accepts a minus sign and wraps around. Which negative numbers get through, and as what, is
  `ConfigNumbers.NegativeNumberInFile`, an if and only if: every one whose digits fit the type for `retain`
  and `max_snapshots`, the last 3600 (and `-0`) for `debounce_seconds`, and one for `schema_version`
  (`NegativeRetention` for `retain = -1`).
- The planner checks that the preserved and replacement names are unused, but not that nothing is nested
  below them (`RollbackPlanner.EligibleIsExecutable`, an if and only if; `NestedButEligible`).
- `render` does not print `mkinitcpio_config` (`ConfigRoundTrip.RoundTrip`; `MkinitcpioIsLost` for a file that
  sets only that, an if and only if).

## Model

| member | source | states |
|---|---|---|
| `SecureBootApplyService.ApplyPlan` | src/application/secure_boot_apply_service.cpp:53-90 | the dispatch: unchanged plans do nothing, unprotected ones are a plain apply, protected ones are refused without an EFI path and otherwise keep `ProtectedContract` |
| `SecureBootApplyService.ApplyProtected` | src/application/secure_boot_apply_service.cpp:64-89 | for every pattern of failures: success means the configuration holds the generated bytes durably and the image went through all four stages with its digest, and the only new files are the target and its backup; a clean error means both files are exactly what they were (bytes, mode, owner), unless a created target stays behind, exactly when it was renamed into place and its removal was refused; any mixed state is a reported failed rollback; a fault-free run fails only for a stale plan, an unreadable image or a malformed digest |
| `SecureBootApplyService.SuccessIsInstalled` | src/application/secure_boot_apply_service.cpp:64-89 | a protected apply that reports success has installed the generated text, under the old mode and owner, and enrolled its hash in a signed image |
| `SecureBootApplyService.UpdateAndCommit` | src/application/secure_boot_apply_service.cpp:69-78 | the rest of the `try` block: it finishes, committed and without the backup of the image, or leaves a transaction from which both originals can be recovered |
| `SecureBootApplyService.RollBackAndClose` | src/application/secure_boot_apply_service.cpp:80-89 | handler and both destructors: whatever they manage, the outcome reported matches what is on the disk; a restorable image is back unless three attempts failed, a restorable configuration unless two did |
| `SecureBootApplyService.Retry` | src/application/secure_boot_transaction.cpp:86-112 | a rollback, first or repeated, keeps the transaction recoverable, and the file of a finished half stays as it is |
| `SecureBootAgreement.AgreementOverRuns` | src/application/secure_boot_apply_service.cpp:66-79 | over every run of protected applies without a failed rollback, the digest enrolled in the image stays the hash of the installed configuration, the configuration is the text of the last success under its first mode and owner, and the image changes only with a success |
| `SecureBootTransaction.Transaction.RecordApply` | src/application/secure_boot_transaction.cpp:42-50 | whatever the result: accepted exactly once, on an active transaction; a refusal changes nothing |
| `SecureBootTransaction.Transaction.Commit` | src/application/secure_boot_transaction.cpp:52-62 | idempotent, refused after a rollback, and a failed commit leaves both halves pending |
| `SecureBootTransaction.Transaction.RollbackConfig` | src/application/secure_boot_transaction.cpp:64-80 | the pending flag is cleared only once the target is the backup again (or gone, for a created file); the branch for an inconsistent state is unreachable |
| `SecureBootTransaction.Transaction.Rollback` | src/application/secure_boot_transaction.cpp:86-112 | both halves are attempted independently, so one failure leaves at most one of two restorable halves pending; a half is cleared only when restored, a cleared half is never touched, and nothing outside the pending halves changes |
| `SecureBootTransaction.Drive` | src/application/secure_boot_transaction.cpp:42-112 | over any sequence of record, rollback and commit calls with any failures: EFI-pending equals the active flag, committed implies nothing pending, and until a commit gets past its unlink, also after commits that failed earlier, the original image is in the backup or restored |
| `EfiImageTransaction.EfiTransaction.Begin` | src/infrastructure/efi_image_transaction.cpp:34-46 | the constructor: a complete copy of the image under a fresh name, synchronised with its directory, or no transaction and no new file, unless its removal was refused |
| `EfiImageTransaction.EfiTransaction.Commit` | src/infrastructure/efi_image_transaction.cpp:70-76 | success drops the backup; a failure keeps it, unless the `unlink` was made and the directory `fsync` refused |
| `EfiImageTransaction.CommitAndSpend` | src/infrastructure/secure_file_ops.cpp:174-177 | under every schedule that refuses only that `fsync`, commit fails with the backup gone |
| `EfiImageTransaction.SpentRun` | src/infrastructure/secure_file_ops.cpp:174-177 | a concrete run after which neither commit nor rollback brings the old image back |
| `EfiImageTransaction.EfiTransaction.Rollback` | src/infrastructure/efi_image_transaction.cpp:78-85 | the image becomes the backup before the backup goes, and the transaction stays active until both steps worked; then the backup is gone |
| `SecureBootTools.UpdateLimineImage` | src/infrastructure/secure_boot_tools.cpp:35-54 | on success the image is the result of strip, enroll, sign and verify, each run once in this order, so it carries the digest and a signature; only the image is touched |
| `SecureBootTools.Digest` | src/infrastructure/secure_boot_tools.cpp:23-33 | the hash of the file's bytes, refused unless it has 128 characters |
| `ApplyService.Apply` | src/application/apply_service.cpp:59-177 | for every pattern of failures, at every intermediate state the target is its old file or the complete generated one; each outcome fixes what is on the disk, success was confirmed by reading the target back, a failed internal rollback leaves a durable backup of the old file, and a created target stays behind an error exactly when it was renamed into place and its removal refused; nothing is touched without the lock, and the only new files left are the target, backups of it and files whose removal was refused |
| `ApplyService.SaveBackup` | src/application/apply_service.cpp:124-129 | a backup is recorded exactly when it is complete and its directory synchronised |
| `ApplyService.InstallGenerated` | src/application/apply_service.cpp:131-158 | the generated bytes appear atomically under the old mode and owner; success exactly when no call failed |
| `ApplyService.Compensate` | src/application/apply_service.cpp:159-176 | the handler restores the old state, reports where the backup is, or leaves a created target whose `unlink` is refused; the temporary file is gone unless its removal was refused |
| `ChangePlanner.PlanDecides` | src/application/change_planner.cpp:12-23 | a plan creates a missing file, changes nothing exactly when the installed text is the generated one but for a last line end, and otherwise updates; it installs the generated text with its last line ended |
| `ApplyService.AppliedIsInstalled` | src/application/apply_service.cpp:59-177 | an apply that reports success, whatever failed on the way, leaves the generated text at the target: nothing is touched where it was there already; otherwise bytes, old mode and owner (0644 and the own ones for a new file) and the backup are what they should be |
| `ApplyService.ApplyAndLeave` | src/application/apply_service.cpp:152-170 | under every schedule that refuses only reading and unlinking the target, a create plan ends in an ordinary error with the new file in place |
| `ApplyService.LeakedRun` | src/application/apply_service.cpp:152-170 | a concrete run of that kind |
| `ApplyService.ReplanIsUnchanged` | src/application/change_planner.cpp:12-20 | after a successful apply, planning with the same text finds nothing to do |
| `ApplyService.FaultFreeApplySucceeds` | src/application/apply_service.cpp:59-177 | planning and applying without a fault succeeds for every target with a file name, and the target then holds the generated text |
| `PowerFailure.TargetIsOldOrComplete` | src/application/apply_service.cpp:131-150 | a power failure at any moment of any apply leaves the target as it was or completely written |
| `PowerFailure.ProtectedTargetIsOldOrComplete` | src/application/secure_boot_apply_service.cpp:64-89 | the same while the EFI image is changed along |
| `PowerFailure.OldFileSurvives` | src/application/apply_service.cpp:124-150 | at every such moment the old configuration is on the medium, at the target or in a synchronised backup |
| `PowerFailure.SuccessIsPermanent` | src/application/apply_service.cpp:145-158 | what a successful apply reported survives any later power failure, its backup included |
| `PowerFailure.RerunContinues` | src/application/change_planner.cpp:12-20 | planning again after the failure finds the work done or the very plan that was interrupted |
| `SecureFileOps.RenameInto` | src/infrastructure/secure_file_ops.cpp:155-158 | rename and directory `fsync`: the target changes exactly when the rename is not refused, and recovers to nothing else |
| `SecureFileOps.CopyFileSecure` | src/infrastructure/secure_file_ops.cpp:102-130 | the source's bytes with the given mode and owner, synchronised, in a file that did not exist; nothing else changes, and a failure leaves no copy unless its removal was refused |
| `SecureFileOps.AtomicRestoreFile` | src/infrastructure/secure_file_ops.cpp:132-163 | bytes, mode and owner of the backup at the target; at every intermediate state the target is old or complete; success exactly when both files are restorable and nothing failed; no other new file is left unless its removal was refused |
| `SecureFileOps.ReplaceFromBackup` | src/application/apply_service.cpp:41-53 | the same steps with mode and owner given by the caller |
| `SecureFileOps.RemoveRegularFileSecure` | src/infrastructure/secure_file_ops.cpp:165-178 | success means the file is gone; a missing file is a success; the log says which of the three calls an error comes from, and the file is gone exactly when its `unlink` worked |
| `Filesystem.Disk.WriteAll` | src/infrastructure/secure_file_ops.cpp:55-66 | under any short writes and interruptions the data is appended completely, or the call failed |
| `Filesystem.Disk.ReadAll` | src/infrastructure/secure_file_ops.cpp:68-83 | under any block sizes and interruptions all bytes of the file, or the call failed |
| `Filesystem.GuardedBeside` | src/application/apply_service.cpp:41-53 | working on generated siblings never shows at the guarded path, at any intermediate state |
| `RollbackService.Execute` | src/application/rollback_service.cpp:65-144 | for every pattern of faults no subvolume is lost, at most one is added and the old root is always at the target or the preserved name; under one fault the old topology is back, with the new subvolume parked if it was ever created, and the top level is unmounted; success puts the copy of the snapshot at the target, confirmed by a listing after the last move and synchronised; without a fault exactly the executable plans succeed |
| `RollbackService.Forward` | src/application/rollback_service.cpp:98-117 | snapshot, preserve, switch, verify, with the progress flags describing the topology exactly |
| `RollbackService.Compensate` | src/application/rollback_service.cpp:118-132 | safe whatever fails; without a failure the root is at its name and only the parked copy remains; each of the two moves is tried whether the other works or not |
| `RollbackService.CompensationIsSafe` | src/application/rollback_service.cpp:56-61 | a compensating move loses nothing from any safe topology |
| `BtrfsTopology.MovedIsReversible` | src/application/rollback_service.cpp:105-131 | moving a subvolume with everything nested below it to a free place and back is the identity |
| `BtrfsTopology.BtrfsClient.MoveSubvolume` | src/infrastructure/btrfs_client.cpp:97-100 | needs a present source and a free destination; carries nested subvolumes; changes nothing on failure |
| `RollbackPlanner.Build` | src/application/rollback_planner.cpp:80-199 | a plan is eligible if and only if all checks hold, which is if and only if none of the diagnostics is an error; the diagnostics are exactly those of the checks that fail or pass; it names the device without the bracketed path of the root source, the booted snapshot as source, the subvolume of `rootflags=subvol=` without slashes in front as target, and the two new names spelled out |
| `RollbackPlanner.EligibleIsExecutable` | src/application/rollback_planner.cpp:96-186 | on the topology an eligible plan was made for, its source and target exist, and it is executable if and only if nothing is nested below the two unused names |
| `RollbackPlanner.PlannedNamesApart` | src/application/rollback_planner.cpp:169-175 | target, preserved, replacement and the service's failed path are apart from each other, as paths and as prefixes |
| `RollbackPlanner.SourceIsApart` | src/application/rollback_planner.cpp:96-175 | the source of an eligible plan is none of the names the rollback gives out |
| `RollbackPlanner.PlanAndExecute` | src/main.cpp:524-543 | planning and executing on an unchanged topology is safe at every intermediate state under all faults, restores it under one, and without a fault succeeds exactly for eligible facts with a mount source and nothing nested below the new names |
| `RollbackPlanner.NestedButEligible` | src/application/rollback_planner.cpp:169-186 | eligible facts whose plan cannot be executed |
| `SnapshotPaths.SnapshotPrefix` | src/application/rollback_planner.cpp:27-33 | the two loops leave the path without the slashes around it, and nothing else goes |
| `SnapshotPaths.RootflagsSubvolumeIsRoot` | src/application/rollback_planner.cpp:49-60 | the subvolume of `rootflags=subvol=` without slashes in front, and none without that flag |
| `SnapshotPaths.OnlyPathsAreParsed` | src/application/rollback_planner.cpp:35-47 | a number comes only from directory, slash, digits and `/snapshot`, and is their decimal value, even where the unsigned length subtraction wraps |
| `SnapshotPaths.SnapshotPathReadBack` | src/application/rollback_planner.cpp:27-47 | the path as it is written for snapshot n is read back as n if and only if the configured directory is neither empty nor ends in a slash |
| `SnapshotPaths.SnapshotCommandLineReadBack` | src/application/preview_service.cpp:28-34 | whatever the other arguments: the `rootflags` the menu sets for snapshot n name n under that same condition, and the printed command line parses back to all of its arguments if and only if each of them survives the printer |
| `SnapshotPaths.OwnNameReadBack` | src/application/rollback_planner.cpp:27-47 | the name of the subvolume that the written path leads to is read as n if and only if the stripped directory is such a name itself |
| `SnapshotPaths.FindOption` | src/infrastructure/system_detector.cpp:54-68 | the loop finds the first mount option with a key |
| `SnapshotPaths.DetectedPath` | src/infrastructure/system_detector.cpp:259-261 | of the path in the mount options exactly one leading slash is dropped |
| `SnapshotPaths.BootedSnapshotReadBack` | src/infrastructure/system_detector.cpp:259-261 | booted from the entry of snapshot n, with the mounted subvolume's own name in the mount options, the planner recognises n if and only if the directory stripped of outer slashes has no empty, `.` or `..` part, for directories without a comma |
| `SnapshotPaths.AcceptedSnapshotReadBack` | src/config/config_loader.cpp:190-191 | the same for every accepted configuration, and the loader accepts every directory that is not empty |
| `SnapshotPaths.DoubledSlashIsAccepted` | src/config/config_loader.cpp:190-191 | an accepted configuration, `a//b`, none of whose booted snapshots is recognised |
| `SnapshotPaths.CommaSplitsOption` | src/application/preview_service.cpp:28-34 | with a comma in the directory the first mount option of the `rootflags` ends there, and names another path |
| `RefreshProtocol.StepKeepsInv` | src/main.cpp:473-510 | every step of requesters and worker but an exception keeps each request served, marked, or carried by the worker |
| `RefreshProtocol.NoRequestIsLost` | src/application/automation.cpp:41-62 | over every interleaving, harmless exceptions included, when no command holds the lock each request has its marker or was followed by a discovery whose run completed |
| `RefreshProtocol.LoopExitServesAll` | src/main.cpp:507-510 | a command that leaves its loop has served every request made so far, in the same runs |
| `RefreshProtocol.ThrowLosesRequest` | src/main.cpp:474-477 | a concrete run in which an exception loses a request |
| `RefreshProtocol.SafeThrowKeepsInv` | src/main.cpp:474-477 | an exception is harmless while the marker is in place or none was consumed |
| `RefreshProtocol.UnsafeThrowLoses` | src/main.cpp:474-477 | anywhere else each request that was still waiting is left without marker, run or lock holder |
| `RefreshProtocol.FirstUnsafeThrow` | src/main.cpp:474-477 | the first exception of a run that is not harmless leaves no marker and no lock holder, and exactly the requests served before are served |
| `RefreshProtocol.NothingIsInvented` | src/main.cpp:473-510 | over every run, exceptions of any kind included, there is a marker, another pass of the loop, or a re-created marker only for a request that no later run has completed, but for the one that just missed the look at the marker |
| `RefreshProtocol.QuietRefresh` | src/main.cpp:473-510 | a command left alone discovers once and ends with no marker and no lock |
| `RefreshProtocol.CoalescedRefresh` | src/main.cpp:504-507 | a request during the run costs exactly one more run of the same command |
| `RefreshProtocol.DeclinedRefresh` | src/main.cpp:481-499 | a command whose run is declined leaves a marker exactly if it found one |
| `UnifiedDiff.FillTable` | src/render/unified_diff_renderer.cpp:31-39 | each cell of the table is the length of the longest common subsequence of the two suffixes |
| `UnifiedDiff.LcsIsBound` | src/render/unified_diff_renderer.cpp:31-39 | no common subsequence is longer than the recurrence says |
| `UnifiedDiff.LcsIsReached` | src/render/unified_diff_renderer.cpp:31-39 | and some common subsequence is that long |
| `UnifiedDiff.Walk` | src/render/unified_diff_renderer.cpp:44-57 | the greedy walk is an edit script between the two texts that keeps exactly that many lines, taking at each place the edit the code chooses |
| `UnifiedDiff.GreedyIsUnique` | src/render/unified_diff_renderer.cpp:45-56 | there is only one such script, so the printed diff is fully determined |
| `UnifiedDiff.ScriptIsMinimal` | src/render/unified_diff_renderer.cpp:41-57 | no edit script between the two texts has fewer added and removed lines |
| `UnifiedDiff.Render` | src/render/unified_diff_renderer.cpp:25-58 | the printed text, line by line: the old file (`/dev/null` exactly for a create plan), the new one, the decimal numbers of their lines, then a minimal script |
| `UnifiedDiff.DiffReconstructsBoth` | src/render/unified_diff_renderer.cpp:9-57 | for a built plan the kept and removed lines are byte for byte the installed text, the kept and added ones the generated text |
| `KernelCommandLine.Parse` | src/domain/kernel_cmdline.cpp:34-81 | the tokenizer loop refines the scanner `Parsed`, errors included; what that reads is `ParsedByPieces` |
| `CommandLineGrammar.ParsedByPieces` | src/domain/kernel_cmdline.cpp:34-81 | a text is accepted if and only if it is made of blanks, characters bare or behind a backslash, and closed quotations of either kind, and then its arguments are what these pieces mean between the blanks, the empty ones dropped |
| `KernelCommandLine.Render` | src/domain/kernel_cmdline.cpp:134-142 | the printing loop gives `Rendered`, the text the round trip theorems are about |
| `KernelCommandLine.RoundTripExactly` | src/domain/kernel_cmdline.cpp:16-80 | parsing what was printed gives the same arguments if and only if each is non-empty and none that is left unquoted contains `'`, vertical tab or form feed |
| `KernelCommandLine.SingleQuoteIsLost` | src/domain/kernel_cmdline.cpp:16-29 | the argument `'` is printed as it is, which cannot be parsed |
| `KernelCommandLine.SpacedReadBack` | src/domain/kernel_cmdline.cpp:34-81 | arguments joined by blanks without quoting are parsed back if and only if none is empty and none contains white space or a quoting character |
| `KernelCommandLine.SetThenValue` | src/domain/kernel_cmdline.cpp:90-128 | a value that was set is read back, and every other key reads as before |
| `KernelCommandLine.EraseThenValues` | src/domain/kernel_cmdline.cpp:100-132 | an erased key has no values left, and every other key keeps all of its own |
| `KernelCommandLine.CommandLine.Set` | src/domain/kernel_cmdline.cpp:118-128 | the first matching argument is replaced in place, or the argument is appended |
| `KernelCommandLine.CommandLine.Erase` | src/domain/kernel_cmdline.cpp:130-132 | all arguments of a key go, the others keep their order |
| `KernelCommandLine.SetExactly` | src/domain/kernel_cmdline.cpp:118-128 | setting a key replaces its first argument, bare or with a value, and nothing else, or adds one at the end |
| `KernelCommandLine.ErasedExactly` | src/domain/kernel_cmdline.cpp:130-132 | erasing a key drops exactly the arguments `key` and `key=...` |
| `BootCommandLine.GenerateCmdline` | src/infrastructure/system_detector.cpp:217-238 | the text built by appending, spelled out, `rw` at its end; it is also the blank-separated list of its arguments; there is none exactly when the UUID it needs is unknown |
| `BootCommandLine.GeneratorSatisfiesValidator` | src/application/validation_service.cpp:245-318 | whenever a command line is generated: it parses to its arguments exactly for clean values, and they pass the command line, root, encryption and rootflags checks exactly when a root subvolume was detected, an encrypted root is mounted from its mapper and the parameter of the hook in use names it |
| `BootCommandLine.CryptdeviceIsParsed` | src/application/validation_service.cpp:67-79 | the generated `cryptdevice` value is read as the LUKS UUID up to its first colon and the text up to the next colon, and not at all if either is empty |
| `BootCommandLine.CryptdeviceIsJudged` | src/application/validation_service.cpp:67-129 | the validator accepts any `cryptdevice=device:mapper`, options behind it or not, exactly when both are there and the mapper, the LUKS UUID, the PARTUUID (both in any case) or the device path is the root's |
| `BootCommandLine.RdLuksNameIsJudged` | src/application/validation_service.cpp:81-129 | the same for any `rd.luks.name`, with or without a mapper: hexadecimal digits and dashes that are the LUKS UUID in any case, or the mapper of the root |
| `BootCommandLine.RootIsJudged` | src/application/validation_service.cpp:259-265 | `root=` passes exactly as the mounted device or as the UUID of its filesystem |
| `BootCommandLine.MapperNameOf` | src/application/validation_service.cpp:271-273 | the mapper name is the detected one, or else the last part of the mounted device |
| `BootCommandLine.ColonMapper` | src/application/validation_service.cpp:67-79 | detected values whose generated command line the validator refuses |
| `ConfigLoader.Load` | src/config/config_loader.cpp:215-258 | the line loop computes `Loaded`, the function of the round trip and of `ConfigMeaning`; a missing file is an error only when asked for |
| `ConfigMeaning.LineForms` | src/config/config_loader.cpp:233-255 | exactly how blank and comment lines, sections and settings may be written, case and blanks included; any other line is an error |
| `ConfigMeaning.SwitchIsRead` | src/config/config_loader.cpp:25-32 | a switch is on for `true`, `yes`, `1`, off for `false`, `no`, `0`, in any case, and an error for every other word |
| `ConfigMeaning.NumberIsRead` | src/config/config_loader.cpp:34-45 | a number is decimal digits of 64 bits, white space and a sign before them or not; a minus sign negates it modulo the width |
| `ConfigMeaning.ListIsWritten` | src/config/config_loader.cpp:47-61 | a list is what stands between the commas, without the blanks around it and the empty items |
| `ConfigMeaning.AssignedExactly` | src/config/config_loader.cpp:73-177 | every section and key by name, with the field it sets and what its value means there; no other field changes, and unknown names or meaningless values are errors |
| `ConfigMeaning.AcceptedExactly` | src/config/config_loader.cpp:179-212 | the validation, with the themes in any case and with `_` for `-` |
| `ConfigMeaning.SettingInFile` | src/config/config_loader.cpp:215-258 | a section and a setting written behind any lines that are read without error change the configuration exactly as `AssignedExactly` says, if the result is admissible, and are an error otherwise |
| `ConfigMeaning.ProtectionInFile` | src/config/config_loader.cpp:25-32 | behind any accepted file `protect_config` turns the protection on, off, or is an error, by its word |
| `ConfigMeaning.OtherLinesInFile` | src/config/config_loader.cpp:236-250 | comments, blank lines and bare sections change nothing, and malformed lines are errors |
| `ConfigMeaning.SettingNeedsSection` | src/config/config_loader.cpp:246-247 | a setting before the first section is an error |
| `ConfigMeaning.LastLineInFile` | src/config/config_loader.cpp:233 | the last line needs no line end |
| `ConfigMeaning.EmptyFile` | include/limine_manager/config/config.hpp:13-44 | what holds without any setting: protected applies, no automatic ones, five backups, no limit on snapshots |
| `ConfigNumbers.NegativeSize` | src/config/config_loader.cpp:34-45 | a value with a minus sign is read exactly when its digits fit the type, as the negation modulo the width |
| `ConfigNumbers.NegativeNumberInFile` | src/config/config_loader.cpp:179-214 | appended to any accepted file, a negative number is accepted with its wrapped value exactly when it fits and passes the validation |
| `ConfigNumbers.MinusOneIsRead` | src/config/config_loader.cpp:34-45 | `-1` is read as the largest number of the type |
| `ConfigNumbers.NegativeRetention` | src/config/config_loader.cpp:111-116 | `retain = -1` is the largest number |
| `ConfigLoader.ParseList` | src/config/config_loader.cpp:47-61 | the loop gives the trimmed non-empty items between the commas |
| `ConfigLoader.JoinList` | src/config/config_loader.cpp:63-71 | the loop that writes a list puts a comma and a blank between its items, which `ConfigRoundTrip.ListIsRead` reads back |
| `ConfigLoader.Render` | src/config/config_loader.cpp:260-309 | the printed text is the lines of `RenderedLines`, with the options in any order |
| `ConfigMeaning.SectionsInOrder` | src/config/config_loader.cpp:266-305 | the printed text is the nine sections one after the other |
| `ConfigMeaning.PrintedSection` | src/config/config_loader.cpp:266-305 | each section is printed as its header, its settings by name in the order given, and a blank line |
| `ConfigMeaning.PrintedSetting` | src/config/config_loader.cpp:266-308 | a setting is printed as `key = value`, switches as `true` or `false`, numbers without leading zeros, lists with `, `, the empty EFI path as `auto` |
| `ConfigRoundTrip.LoadStores` | src/config/config_loader.cpp:73-177 | every configuration the loader can build has only printable keys and values |
| `ConfigRoundTrip.SettingIsCopied` | src/config/config_loader.cpp:73-177 | printing any one setting and assigning what was printed copies exactly that setting |
| `ConfigRoundTrip.RoundTrip` | src/config/config_loader.cpp:215-309 | whatever text the loader accepts, loading the print of its configuration gives the same configuration in every field but `mkinitcpio_config` |
| `ConfigRoundTrip.MkinitcpioIsLost` | src/config/config_loader.cpp:92-93 | a file that sets only `mkinitcpio_config` is loaded, and its print loads to the same configuration if and only if it set the default |
| `ConfigRoundTrip.SecondRoundTrip` | src/config/config_loader.cpp:215-309 | printing and loading once more changes nothing at all |
| `ConfigRoundTrip.ListIsRead` | src/config/config_loader.cpp:47-71 | a joined list is read back item by item |
| `BackupService.List` | src/application/backup_service.cpp:22-48 | the backups newest first, whatever order the directory has; complete unless an entry could not be inspected |
| `BackupService.ListOrder` | src/application/backup_service.cpp:41-46 | sorted means newest first, and those of one time by descending file name |
| `BackupService.Prune` | src/application/backup_service.cpp:57-71 | only backups beyond the newest `retain` go, even when a removal throws midway or the list was incomplete; without a fault exactly the newest stay; the number returned is the number of backups gone, and it fails exactly when the last thing it did is a refused removal |
| `BackupService.RoundKeepsNewest` | src/application/backup_service.cpp:57-71 | a successful update followed by a prune leaves the newest backups, the newest of all holding the bytes just replaced |
| `BackupService.RetentionOverRuns` | src/application/backup_service.cpp:22-71 | over every run of updates and prunes the backups are exactly the newest `retain` of all that ever existed |
| `BackupService.NewestSurvive` | src/application/backup_service.cpp:57-71 | over every run of applies and prunes, whatever fails in them, the newest `retain` of all backups that ever existed are still there |
| `BackupService.SurvivorsAreUnchanged` | src/application/backup_service.cpp:57-71 | and every backup that is left is the file it was when it was made |
| `KernelSelection.PrecedesIsStrictWeakOrder` | src/application/preview_service.cpp:76-88 | the comparator is a strict weak order |
| `KernelSelection.SelectKernels` | src/application/preview_service.cpp:57-90 | each kernel that is included (every one, if nothing is listed) and not excluded as often as it was given, and no other; sorted and stable |
| `KernelSelection.SelectionOrder` | src/application/preview_service.cpp:70-90 | listed kernels come first in configured order, then running ones, then by name in dictionary order |
| `Sorting.SortIsStable` | src/application/preview_service.cpp:75-89 | a stable sort by any strict weak order: sorted, a permutation, equal elements in their old order |
| `Text.LinesOfJoin` | src/config/config_loader.cpp:233-236 | lines without line ends are read back one by one |
| `Text.JoinOfLines` | src/render/unified_diff_renderer.cpp:9-21 | a text that ends in a line end is the join of its lines |
| `Text.LinesOfRest` | src/render/unified_diff_renderer.cpp:9-21 | text behind the last line end is a line as well |
| `Text.MountSourceIsDevice` | src/infrastructure/btrfs_client.cpp:43-48 | a mount source `device[path]` names the device, and any other source itself |
| `Text.LowerIsLowerCase` | src/config/config_loader.cpp:19-23 | lower case replaces the 26 capital letters and nothing else |
| `Text.LessIsLexicographic` | src/application/preview_service.cpp:88 | the order of names is the dictionary order of their characters |

## Left out

- Process execution, descriptors, `flock`, the runtime directory and message texts: only success, failure and the effect on the disk are kept; a lock is one call that may fail, and it excludes the other commands.
- Other programs changing the modelled files while a command runs, except the stale-plan check, and except that a read-back may deliver other bytes after a fault.
- BLAKE2b, `b2sum` output, `sbattach`, `limine enroll-config` and `sbctl`: uninterpreted functions of the image and the digest (`Toolchain`), which touch nothing but the image.
- Power failures and the EFI image: its backup lies in the directory for temporary files, which may not survive one, so `PowerFailure` is about the configuration and its backups only.
- Set-id bits that the kernel clears on `fchown`, time stamps, extended attributes, hard links, directories as `rename` destinations.
- SecureBootTransaction.Drive: recorded results name files apart from each other and from the EFI half, as `apply` produces them; commit calls after a partial rollback are included, but only the flag invariants and the survival of the image are claimed for them.
- Filesystem.Disk.WriteAll: the number of interruptions and zero-byte writes is finite but arbitrary; an endless series is not modelled.
- BackupService.RetentionOverRuns: modification times are the creation ticks of the backups, strictly increasing, and user files that happen to match the backup name pattern are not modelled.
- RollbackService.Execute: a failing Btrfs command changes nothing; commands that fail after taking effect are not modelled.
- RefreshProtocol.NoRequestIsLost: runs with an exception that is not harmless are excluded, since the code does lose requests there; creating, testing and removing the marker file are atomic.
- SnapshotPaths.BootedSnapshotReadBack: that the mount options show the subvolume's own name with one leading slash, however its path was given, and that no symbolic link lies on that path, are assumptions.
- RollbackPlanner.EligibleIsExecutable: plain directories are not in the topology. A snapshot onto an existing directory goes inside it where the model refuses, and a plain directory that is not empty at an unused name stops the move although no subvolume is below it.
- ConfigRoundTrip.RoundTrip: the path of the source file has no line end; the order of the options, fixed by `std::map`, is generalised to every enumeration.
- RollbackPlanner.Build: the texts of diagnostics; only their severities and codes are kept.
- `SystemDetector::detect`, `kernel_discovery.cpp`, `select_menu_snapshots`, menu construction, themes, status and JSON output, CLI parsing and completion: wrappers, tables or easy members.
- The `restore` command, which uses the plain apply and is outside the agreement of configuration and image.
