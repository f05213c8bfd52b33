/** `secure_boot_apply_service.cpp`: configuration and EFI image change together or not at all. */
module SecureBootApplyService {
  import opened Wrappers
  import opened Filesystem
  import opened SecureFileOps
  import opened ChangePlanner
  import opened ApplyService
  import opened EfiImageTransaction
  import opened SecureBootTransaction
  import opened SecureBootTools

  /** How a protected apply ends: normally, with an error that leaves nothing to repair, or with
      an error whose message says that an automatic rollback failed as well. */
  datatype ProtectedOutcome = Success(result: ApplyResult) | CleanError | RollbackFailed

  /** Some generated backup still holds the node. */
  ghost predicate Survives(files: Files, node: Option<Node>) {
    exists p: Path :: p.Generated? && At(files, p) == node
  }

  /** The all-or-nothing promise of a protected apply, for every pattern of failing system calls
      and commands. Only the last outcome allows a mixed state, and there both originals still
      exist, unless the EFI image went through all four stages before its backup was dropped. */
  ghost predicate ProtectedContract(tools: Toolchain, plan: ChangePlan, efi: Path, s: Snap, t: Snap,
                                    euid: nat, egid: nat, outcome: ProtectedOutcome, leaked: bool)
  {
    var before, now := At(s.files, plan.target), At(t.files, plan.target);
    var image, imageNow := At(s.files, efi), At(t.files, efi);
    var installed := Some(Installed(plan, before, euid, egid));
    var digest := tools.hash(plan.generated);
    && t.Valid()
    && Evolves(s, t, {plan.target, efi})
    && Shows(s, t, plan.target, {before, installed})
    && match outcome
       case Success(result) =>
         && !leaked && t.faults == s.faults && Current(plan, s.files)
         && result.changed && result.target == plan.target
         && now == installed && t.Durable(plan.target) && Updated(tools, imageNow, digest)
         && (result.backup.Some? <==> before.Some?)
         && (result.backup.Some? ==> At(t.files, result.backup.value) == before)
       case CleanError =>
         && imageNow == image
         && (leaked <==> now != before)
         && (leaked <==> LeftBehind(plan, s, t))
         && (leaked ==> before == None && now == installed && t.faults >= s.faults + 2)
       case RollbackFailed =>
         && !leaked && t.faults > s.faults
         && now in {before, installed}
         && (now == before || plan.kind == Create || Survives(t.files, before))
         && (imageNow == image || Survives(t.files, image) || Updated(tools, imageNow, digest))
  }

  ghost predicate Holds(saved: Path, transaction: Transaction, s: Snap, plan: ChangePlan)
    reads transaction, transaction.efi, transaction.efi.disk
  {
    && saved.Generated? && !Past(saved, s.clock) && Past(saved, transaction.efi.disk.clock)
    && saved != transaction.efi.backup
    && At(transaction.efi.disk.files, saved) == At(s.files, plan.target)
  }

  /** What the driver knows of the running transaction from its start until its destruction.
      `saved` is the generated backup of the old configuration, once there is one. */
  ghost predicate Recoverable(transaction: Transaction, tools: Toolchain, plan: ChangePlan, s: Snap, saved: Path)
    reads transaction, transaction.efi, transaction.efi.disk
  {
    var efi, disk := transaction.efi, transaction.efi.disk;
    var before := At(s.files, plan.target);
    var values := {before, Some(Installed(plan, before, disk.euid, disk.egid))};
    && transaction.Valid() && !transaction.committed && plan.HasChanges()
    && plan.target != efi.image && Past(plan.target, s.clock) && Past(efi.image, s.clock)
    && efi.backup.Generated? && !Past(efi.backup, s.clock)
    && Some(efi.original) == At(s.files, efi.image)
    && Evolves(s, disk.State(), {plan.target, efi.image})
    && Shows(s, disk.State(), plan.target, values) && At(disk.files, plan.target) in values
    && (!transaction.efiPending ==> At(disk.files, efi.image) == Some(efi.original))
    && (efi.spent ==> Updated(tools, At(disk.files, efi.image), tools.hash(plan.generated)))
    && (disk.faults == s.faults && transaction.efiPending ==>
          At(disk.files, efi.backup) == Some(efi.original) && Readable(disk.files, efi.image))
    && (transaction.configPending ==>
          var result := transaction.applyResult.value;
          && result.target == plan.target && Current(plan, s.files)
          && (result.backup.Some? <==> before.Some?)
          && (result.backup.Some? ==> result.backup.value == saved && Holds(saved, transaction, s, plan)))
  }

  /** The configuration half once it needs no rollback, by the error that ended the `try` block. */
  ghost predicate Settled(transaction: Transaction, plan: ChangePlan, s: Snap, error: ProtectedOutcome,
                          leaked: bool, saved: Path)
    reads transaction, transaction.efi, transaction.efi.disk
  {
    var before, now := At(s.files, plan.target), At(transaction.efi.disk.files, plan.target);
    && !error.Success?
    && (error.CleanError? ==>
          && (leaked <==> now != before)
          && (leaked ==> plan.kind == Create && before == None && LeftBehind(plan, s, transaction.efi.disk.State())
                         && transaction.efi.disk.faults >= s.faults + 2))
    && (error.RollbackFailed? ==>
          && !leaked && Current(plan, s.files) && plan.kind == Update && Holds(saved, transaction, s, plan)
          && transaction.efi.disk.faults >= s.faults + 2)
  }

  /** Up to `t` a created target stays behind exactly when its removal was refused. */
  ghost predicate LeftWhenRefused(plan: ChangePlan, s: Snap, t: Snap, leaked: bool) {
    plan.kind == Create ==> (leaked <==> Happened(s, t, Call(Unlinking, plan.target, true)))
  }

  /** The middle of the `try` block: nothing has been committed, the EFI backup is intact. */
  ghost predicate Uncommitted(transaction: Transaction, tools: Toolchain, plan: ChangePlan, s: Snap, saved: Path)
    reads transaction, transaction.efi, transaction.efi.disk
  {
    var efi, disk := transaction.efi, transaction.efi.disk;
    && Recoverable(transaction, tools, plan, s, saved) && !efi.spent
    && transaction.efiPending && transaction.configPending
    && At(disk.files, plan.target) == Some(Installed(plan, At(s.files, plan.target), disk.euid, disk.egid))
    && disk.State().Durable(plan.target)
    && At(disk.files, efi.backup) == Some(efi.original)
    && LeftWhenRefused(plan, s, disk.State(), false)
  }

  /** A stretch of the run that leaves the configuration alone keeps it as it is. */
  lemma ExtendRun(s: Snap, t: Snap, u: Snap, touched: set<Path>, plan: ChangePlan, efi: Path, euid: nat, egid: nat)
    requires Evolves(s, t, {plan.target, efi}) && Evolves(t, u, touched)
    requires Past(plan.target, s.clock) && plan.target !in touched
    requires forall p :: p in touched ==> p == efi || !Past(p, s.clock)
    requires
      var values := {At(s.files, plan.target), Some(Installed(plan, At(s.files, plan.target), euid, egid))};
      At(t.files, plan.target) in values && Shows(s, t, plan.target, values)
    ensures Evolves(s, u, {plan.target, efi}) && At(u.files, plan.target) == At(t.files, plan.target)
    ensures
      var values := {At(s.files, plan.target), Some(Installed(plan, At(s.files, plan.target), euid, egid))};
      Shows(s, u, plan.target, values)
    ensures forall leaked :: LeftWhenRefused(plan, s, t, leaked) <==> LeftWhenRefused(plan, s, u, leaked)
  {
    RefusedBefore(s, t, u, touched, plan.target);
    var values := {At(s.files, plan.target), Some(Installed(plan, At(s.files, plan.target), euid, egid))};
    Chain(s, t, u, {plan.target, efi}, touched, {plan.target, efi});
    ShowsUntouched(t, u, plan.target, touched, values);
    ShowsChain(s, t, u, plan.target, values);
  }

  /** The only new files are the target, backups of it, and `extra`. */
  ghost predicate OnlyBackups(plan: ChangePlan, s: Snap, files: Files, extra: set<Path>) {
    forall p :: p in files && p !in s.files && p !in extra ==> p == plan.target || BackupOf(p, plan.target)
  }

  lemma StillOnlyBackups(plan: ChangePlan, s: Snap, t: Snap, u: Snap, touched: set<Path>, extra: set<Path>)
    requires OnlyBackups(plan, s, t.files, extra) && Evolves(t, u, touched) && u.clock == t.clock && u.Valid()
    requires forall p :: p in touched && p in u.files ==> p in s.files || p in extra
    ensures OnlyBackups(plan, s, u.files, extra)
  {
    forall p | p in u.files && p !in s.files && p !in extra ensures p == plan.target || BackupOf(p, plan.target) {
      assert At(u.Now().files, p) == At(t.Now().files, p);
    }
  }

  /** The digest of the installed configuration, between the two hooks. */
  method DigestInstalled(disk: Disk, tools: Toolchain, target: Path) returns (digest: Option<string>)
    requires disk.Valid()
    modifies disk`faults, disk`calls, disk`log
    ensures disk.Valid() && Observed(old(disk.State()), disk.State())
    ensures digest.Some? ==>
      && disk.faults == old(disk.faults) && Readable(disk.files, target)
      && digest.value == tools.hash(disk.files[target].bytes) && |digest.value| == 128
    ensures digest.None? ==>
      || disk.faults > old(disk.faults) || !Readable(disk.files, target)
      || |tools.hash(disk.files[target].bytes)| != 128
  {
    var hook := disk.Fails(Hooked, target);   // after_config_apply
    if hook { return None; }
    digest := Digest(disk, tools, target);
    if digest.None? { return; }
    hook := disk.Fails(Hooked, target);       // after_digest
    if hook { digest := None; }
  }

  /** Digest of the installed configuration and the four commands on the image. */
  method Enroll(transaction: Transaction, tools: Toolchain, plan: ChangePlan, ghost s: Snap, ghost saved: Path)
    returns (ok: bool)
    requires Uncommitted(transaction, tools, plan, s, saved)
    modifies transaction.efi.disk
    ensures Uncommitted(transaction, tools, plan, s, saved)
    ensures old(OnlyBackups(plan, s, transaction.efi.disk.files, {transaction.efi.backup})) ==>
      OnlyBackups(plan, s, transaction.efi.disk.files, {transaction.efi.backup})
    ensures ok ==>
      && Updated(tools, At(transaction.efi.disk.files, transaction.efi.image), tools.hash(plan.generated))
      && transaction.efi.disk.faults == old(transaction.efi.disk.faults)
    ensures !ok ==>
      transaction.efi.disk.faults > old(transaction.efi.disk.faults) || |tools.hash(plan.generated)| != 128
    ensures old(transaction.efi.disk.faults) <= transaction.efi.disk.faults
  {
    var efi, disk := transaction.efi, transaction.efi.disk;
    ghost var t0 := disk.State();
    ok := false;
    var digest := DigestInstalled(disk, tools, plan.target);
    ghost var t := disk.State();
    Looked(t0, t);
    ExtendRun(s, t0, t, {}, plan, efi.image, disk.euid, disk.egid);
    if digest.None? { return; }
    ok := UpdateLimineImage(disk, tools, efi.image, digest.value);
    ghost var u := disk.State();
    ExtendRun(s, t, u, {efi.image}, plan, efi.image, disk.euid, disk.egid);
    assert At(u.files, efi.backup) == At(t.files, efi.backup);
    assert At(s.files, plan.target).Some? ==> At(u.files, saved) == At(t.files, saved);
    if OnlyBackups(plan, s, t.files, {efi.backup}) { StillOnlyBackups(plan, s, t, u, {efi.image}, {efi.backup}); }
  }

  /** `commit` once the image is updated: it ends the run, or leaves both halves to be rolled back. */
  method CommitBoth(transaction: Transaction, tools: Toolchain, plan: ChangePlan, ghost s: Snap, ghost saved: Path)
    returns (finished: bool)
    requires Uncommitted(transaction, tools, plan, s, saved)
    requires OnlyBackups(plan, s, transaction.efi.disk.files, {transaction.efi.backup})
    requires Updated(tools, At(transaction.efi.disk.files, transaction.efi.image), tools.hash(plan.generated))
    modifies transaction, transaction.efi, transaction.efi.disk
    ensures finished ==>
      var disk := transaction.efi.disk;
      var before := At(s.files, plan.target);
      var installed := Some(Installed(plan, before, disk.euid, disk.egid));
      && disk.Valid() && disk.faults == old(disk.faults)
      && Evolves(s, disk.State(), {plan.target, transaction.efi.image})
      && Shows(s, disk.State(), plan.target, {before, installed}) && At(disk.files, plan.target) == installed
      && disk.State().Durable(plan.target)
      && Updated(tools, At(disk.files, transaction.efi.image), tools.hash(plan.generated))
      && (before.Some? ==> At(disk.files, saved) == before)
      && transaction.committed && OnlyBackups(plan, s, disk.files, {})
    ensures !finished ==>
      && Recoverable(transaction, tools, plan, s, saved) && transaction.efiPending && transaction.configPending
      && LeftWhenRefused(plan, s, transaction.efi.disk.State(), false)
      && transaction.efi.disk.faults > old(transaction.efi.disk.faults)
    ensures old(transaction.efi.disk.faults) <= transaction.efi.disk.faults
  {
    var efi, disk := transaction.efi, transaction.efi.disk;
    finished := false;
    var hook := disk.Fails(Hooked, plan.target);   // after_efi_update, before_commit
    if hook { return; }
    ghost var t := disk.State();
    finished := transaction.Commit();
    ghost var u := disk.State();
    ExtendRun(s, t, u, {efi.backup}, plan, efi.image, disk.euid, disk.egid);
    assert At(u.files, efi.image) == At(t.files, efi.image);
    assert At(s.files, plan.target).Some? ==> At(u.files, saved) == At(t.files, saved);
    StillOnlyBackups(plan, s, t, u, {efi.backup}, {efi.backup});
  }

  /** The rest of the `try` block after the configuration is recorded. */
  method UpdateAndCommit(transaction: Transaction, tools: Toolchain, plan: ChangePlan, ghost s: Snap, ghost saved: Path)
    returns (finished: bool)
    requires Uncommitted(transaction, tools, plan, s, saved)
    requires OnlyBackups(plan, s, transaction.efi.disk.files, {transaction.efi.backup})
    modifies transaction, transaction.efi, transaction.efi.disk
    ensures finished ==>
      var disk := transaction.efi.disk;
      var before := At(s.files, plan.target);
      var installed := Some(Installed(plan, before, disk.euid, disk.egid));
      && disk.Valid() && disk.faults == old(disk.faults)
      && Evolves(s, disk.State(), {plan.target, transaction.efi.image})
      && Shows(s, disk.State(), plan.target, {before, installed}) && At(disk.files, plan.target) == installed
      && disk.State().Durable(plan.target)
      && Updated(tools, At(disk.files, transaction.efi.image), tools.hash(plan.generated))
      && (before.Some? ==> At(disk.files, saved) == before)
      && transaction.committed && OnlyBackups(plan, s, disk.files, {})
    ensures !finished ==>
      && Recoverable(transaction, tools, plan, s, saved) && transaction.efiPending && transaction.configPending
      && LeftWhenRefused(plan, s, transaction.efi.disk.State(), false)
      && (|| transaction.efi.disk.faults > old(transaction.efi.disk.faults)
          || |tools.hash(plan.generated)| != 128)
    ensures old(transaction.efi.disk.faults) <= transaction.efi.disk.faults
  {
    finished := Enroll(transaction, tools, plan, s, saved);
    if !finished { return; }
    finished := CommitBoth(transaction, tools, plan, s, saved);
  }

  /** The `try` block from `record_apply` on. */
  method RecordAndCommit(transaction: Transaction, tools: Toolchain, plan: ChangePlan, result: ApplyResult,
                         ghost s: Snap) returns (outcome: ProtectedOutcome, ghost saved: Path)
    requires Recoverable(transaction, tools, plan, s, plan.target) && transaction.efiPending && !transaction.efi.spent
    requires !transaction.configPending && transaction.applyResult == None
    requires transaction.efi.disk.State().Durable(plan.target) && Current(plan, s.files)
    requires
      At(transaction.efi.disk.files, plan.target) ==
        Some(Installed(plan, At(s.files, plan.target), transaction.efi.disk.euid, transaction.efi.disk.egid))
    requires At(transaction.efi.disk.files, transaction.efi.backup) == Some(transaction.efi.original)
    requires result.changed && result.target == plan.target
    requires result.backup.Some? <==> At(s.files, plan.target).Some?
    requires result.backup.Some? ==> Holds(result.backup.value, transaction, s, plan)
    requires LeftWhenRefused(plan, s, transaction.efi.disk.State(), false) && transaction.efi.disk.faults == s.faults
    requires OnlyBackups(plan, s, transaction.efi.disk.files, {transaction.efi.backup})
    modifies transaction, transaction.efi, transaction.efi.disk
    ensures outcome.Success? ==>
      && transaction.committed && OnlyBackups(plan, s, transaction.efi.disk.files, {})
      && ProtectedContract(tools, plan, transaction.efi.image, s, transaction.efi.disk.State(),
                           transaction.efi.disk.euid, transaction.efi.disk.egid, outcome, false)
    ensures !outcome.Success? ==>
      && Recoverable(transaction, tools, plan, s, saved) && transaction.efiPending && transaction.configPending
      && outcome.CleanError? && LeftWhenRefused(plan, s, transaction.efi.disk.State(), false)
    ensures transaction.efi.disk.faults == s.faults && !outcome.Success? ==>
      |tools.hash(plan.generated)| != 128
    ensures s.faults <= transaction.efi.disk.faults
  {
    saved := if result.backup.Some? then result.backup.value else plan.target;
    var recorded := transaction.RecordApply(result);
    var finished := UpdateAndCommit(transaction, tools, plan, s, saved);
    outcome := if finished then Success(result) else CleanError;
  }

  /** How an apply inside the `try` block continues what was known when it began. */
  lemma AppliedWithin(plan: ChangePlan, s: Snap, t: Snap, u: Snap, efi: Path, euid: nat, egid: nat, outcome: Outcome,
                      leaked: bool)
    requires Evolves(s, t, {plan.target, efi}) && At(t.files, plan.target) == At(s.files, plan.target)
    requires
      Shows(s, t, plan.target, {At(s.files, plan.target), Some(Installed(plan, At(s.files, plan.target), euid, egid))})
    requires Contract(plan, t, u, euid, egid, outcome, leaked) && LeftWhenRefused(plan, s, t, false)
    ensures Evolves(s, u, {plan.target, efi})
    ensures
      Shows(s, u, plan.target, {At(s.files, plan.target), Some(Installed(plan, At(s.files, plan.target), euid, egid))})
    ensures LeftWhenRefused(plan, s, u, leaked) && (leaked ==> LeftBehind(plan, s, u))
  {
    var values := {At(s.files, plan.target), Some(Installed(plan, At(s.files, plan.target), euid, egid))};
    Chain(s, t, u, {plan.target, efi}, {plan.target}, {plan.target, efi});
    ShowsChain(s, t, u, plan.target, values);
    HappenedChain(s, t, u, Call(Unlinking, plan.target, true));
    HappenedChain(s, t, u, Call(Renaming, plan.target, false));
  }

  /** The `try` block. When it fails, the configuration is either recorded for rollback or settled. */
  method TryApply(transaction: Transaction, tools: Toolchain, plan: ChangePlan, ghost s: Snap)
    returns (outcome: ProtectedOutcome, ghost leaked: bool, ghost saved: Path)
    requires Recoverable(transaction, tools, plan, s, plan.target)
    requires transaction.efiPending && !transaction.configPending && transaction.applyResult == None
    requires At(transaction.efi.disk.files, plan.target) == At(s.files, plan.target)
    requires At(transaction.efi.disk.files, transaction.efi.image) == At(s.files, transaction.efi.image)
    requires At(transaction.efi.disk.files, transaction.efi.backup) == Some(transaction.efi.original)
    requires !transaction.efi.spent && plan.HasChanges() && s.faults == transaction.efi.disk.faults
    requires OnlyBackups(plan, s, transaction.efi.disk.files, {transaction.efi.backup})
    requires LeftWhenRefused(plan, s, transaction.efi.disk.State(), false)
    modifies transaction, transaction.efi, transaction.efi.disk
    ensures outcome.Success? ==>
      && transaction.committed && OnlyBackups(plan, s, transaction.efi.disk.files, {})
      && ProtectedContract(tools, plan, transaction.efi.image, s, transaction.efi.disk.State(),
                           transaction.efi.disk.euid, transaction.efi.disk.egid, outcome, leaked)
    ensures !outcome.Success? ==>
      && Recoverable(transaction, tools, plan, s, saved) && transaction.efiPending
      && (transaction.configPending ==> outcome.CleanError? && !leaked)
      && (!transaction.configPending ==> Settled(transaction, plan, s, outcome, leaked, saved))
      && (outcome.CleanError? ==> LeftWhenRefused(plan, s, transaction.efi.disk.State(), leaked))
    ensures transaction.efi.disk.faults == s.faults && !outcome.Success? ==>
      !Current(plan, s.files) || !ValidTarget(plan.target) || |tools.hash(plan.generated)| != 128
  {
    var efi, disk := transaction.efi, transaction.efi.disk;
    ghost var t := disk.State();
    var applied;
    saved := plan.target;
    applied, leaked := Apply(disk, plan);
    AppliedWithin(plan, s, t, disk.State(), efi.image, disk.euid, disk.egid, applied, leaked);
    assert At(disk.files, efi.image) == At(t.files, efi.image);
    assert At(disk.files, efi.backup) == At(t.files, efi.backup);
    match applied
    case Rejected => return CleanError, false, saved;
    case Aborted => return CleanError, leaked, saved;
    case Unrecovered(backup) => return RollbackFailed, false, backup;
    case Applied(result) =>
      outcome, saved := RecordAndCommit(transaction, tools, plan, result, s);
  }

  ghost predicate ImageBack(transaction: Transaction)
    reads transaction, transaction.efi, transaction.efi.disk
  {
    At(transaction.efi.disk.files, transaction.efi.image) == Some(transaction.efi.original)
  }

  /** The EFI image is its original again, or can become it. */
  ghost predicate ImageRestorable(transaction: Transaction)
    reads transaction, transaction.efi, transaction.efi.disk
  {
    var efi, disk := transaction.efi, transaction.efi.disk;
    || ImageBack(transaction)
    || (At(disk.files, efi.backup) == Some(efi.original) && At(disk.files, efi.image) != Some(Special))
  }

  /** One `rollback` call on the running transaction: whatever fails, it stays recoverable. */
  method Retry(transaction: Transaction, tools: Toolchain, plan: ChangePlan, ghost s: Snap,
               ghost error: ProtectedOutcome, ghost leaked: bool, ghost saved: Path) returns (ok: bool)
    requires Recoverable(transaction, tools, plan, s, saved)
    requires transaction.configPending ==> error.CleanError? && !leaked
    requires !transaction.configPending ==> Settled(transaction, plan, s, error, leaked, saved)
    modifies transaction, transaction.efi, transaction.efi.disk
    ensures Recoverable(transaction, tools, plan, s, saved)
    ensures ok && old(LeftWhenRefused(plan, s, transaction.efi.disk.State(), leaked)) ==>
      LeftWhenRefused(plan, s, transaction.efi.disk.State(), leaked)
    ensures transaction.configPending ==> error.CleanError? && !leaked
    ensures !transaction.configPending ==> Settled(transaction, plan, s, error, leaked, saved)
    ensures ok == !transaction.RollbackPending()
    ensures !old(transaction.RollbackPending()) ==>
      unchanged(transaction) && unchanged(transaction.efi) && unchanged(transaction.efi.disk)
    ensures old(!transaction.configPending) ==>
      At(transaction.efi.disk.files, plan.target) == old(At(transaction.efi.disk.files, plan.target))
    ensures old(!transaction.efiPending) ==>
      At(transaction.efi.disk.files, transaction.efi.image) ==
        old(At(transaction.efi.disk.files, transaction.efi.image))
    ensures !ok ==> transaction.efi.disk.faults > s.faults
    ensures old(ImageBack(transaction)) ==> ImageBack(transaction)
    ensures old(ImageRestorable(transaction)) ==>
      && ImageRestorable(transaction)
      && (transaction.efi.disk.faults == old(transaction.efi.disk.faults) ==> ImageBack(transaction))
    ensures transaction.configPending ==> old(transaction.configPending)
    ensures old(transaction.ConfigRestorable()) && transaction.configPending ==>
      transaction.ConfigRestorable() && transaction.efi.disk.faults > old(transaction.efi.disk.faults)
    ensures old(transaction.efi.disk.faults) <= transaction.efi.disk.faults
  {
    ghost var t, touched := transaction.efi.disk.State(), transaction.Pending();
    ok := transaction.Rollback();
    ghost var u := transaction.efi.disk.State();
    Chain(s, t, u, {plan.target, transaction.efi.image}, touched, {plan.target, transaction.efi.image});
    ghost var before, disk := At(s.files, plan.target), transaction.efi.disk;
    ghost var values := {before, Some(Installed(plan, before, disk.euid, disk.egid))};
    if plan.target !in touched { ShowsUntouched(t, u, plan.target, touched, values); }
    assert Shows(t, u, plan.target, values);
    ShowsChain(s, t, u, plan.target, values);
    HappenedChain(s, t, u, Call(Unlinking, plan.target, true));
  }

  /** The destructor of the EFI half, after that of the transaction around it. */
  method DestroyEfi(transaction: Transaction, tools: Toolchain, plan: ChangePlan, ghost s: Snap,
                    ghost error: ProtectedOutcome, ghost leaked: bool, ghost saved: Path)
    requires Recoverable(transaction, tools, plan, s, saved) && transaction.efiPending
    requires transaction.configPending ==> error.CleanError? && !leaked
    requires !transaction.configPending ==> Settled(transaction, plan, s, error, leaked, saved)
    requires transaction.efi.disk.faults > s.faults
    modifies transaction.efi, transaction.efi.disk
    ensures ProtectedContract(tools, plan, transaction.efi.image, s, transaction.efi.disk.State(),
                              transaction.efi.disk.euid, transaction.efi.disk.egid, RollbackFailed, false)
    ensures At(transaction.efi.disk.files, plan.target) == old(At(transaction.efi.disk.files, plan.target))
    ensures old(ImageBack(transaction)) ==> ImageBack(transaction)
    ensures old(ImageRestorable(transaction)) && transaction.efi.disk.faults == old(transaction.efi.disk.faults) ==>
      ImageBack(transaction)
    ensures old(transaction.efi.disk.faults) <= transaction.efi.disk.faults
  {
    var efi, disk := transaction.efi, transaction.efi.disk;
    ghost var t := disk.State();
    var _ := efi.Rollback();
    ghost var u := disk.State();
    ExtendRun(s, t, u, {efi.image, efi.backup}, plan, efi.image, disk.euid, disk.egid);
    if At(t.files, plan.target) != At(s.files, plan.target) && plan.kind == Update {
      assert At(t.files, saved) == At(s.files, plan.target);
      assert At(u.files, saved) == At(t.files, saved);
    }
  }

  /** The handler's `rollback`, and the destructor of the transaction. */
  method RollBackTwice(transaction: Transaction, tools: Toolchain, plan: ChangePlan, ghost s: Snap,
                       ghost error: ProtectedOutcome, ghost leaked: bool, ghost saved: Path) returns (restored: bool)
    requires Recoverable(transaction, tools, plan, s, saved)
    requires transaction.configPending ==> error.CleanError? && !leaked
    requires !transaction.configPending ==> Settled(transaction, plan, s, error, leaked, saved)
    modifies transaction, transaction.efi, transaction.efi.disk
    ensures Recoverable(transaction, tools, plan, s, saved)
    ensures transaction.configPending ==> error.CleanError? && !leaked
    ensures !transaction.configPending ==> Settled(transaction, plan, s, error, leaked, saved)
    ensures restored ==> !transaction.RollbackPending()
    ensures restored && old(LeftWhenRefused(plan, s, transaction.efi.disk.State(), leaked)) ==>
      LeftWhenRefused(plan, s, transaction.efi.disk.State(), leaked)
    ensures !restored ==> transaction.efi.disk.faults > s.faults
    ensures old(ImageRestorable(transaction)) ==>
      && ImageRestorable(transaction)
      && (transaction.efi.disk.faults <= old(transaction.efi.disk.faults) + 1 ==> ImageBack(transaction))
    ensures old(transaction.ConfigRestorable()) && transaction.configPending ==>
      transaction.efi.disk.faults > old(transaction.efi.disk.faults) + 1
    ensures old(transaction.efi.disk.faults) <= transaction.efi.disk.faults
  {
    restored := Retry(transaction, tools, plan, s, error, leaked, saved);
    if !transaction.committed && transaction.RollbackPending() {
      var _ := Retry(transaction, tools, plan, s, error, leaked, saved);   // ~SecureBootTransaction
    }
  }

  /** The handler's `rollback`, then the destructors: each half that is still pending is retried. So a
      restorable image is back unless three attempts failed, a restorable configuration unless two did. */
  method RollBackAndClose(transaction: Transaction, tools: Toolchain, plan: ChangePlan, ghost s: Snap,
                          error: ProtectedOutcome, ghost leaked: bool, ghost saved: Path)
    returns (outcome: ProtectedOutcome)
    requires Recoverable(transaction, tools, plan, s, saved)
    requires transaction.configPending ==> error.CleanError? && !leaked
    requires !transaction.configPending ==> Settled(transaction, plan, s, error, leaked, saved)
    requires error.CleanError? ==> LeftWhenRefused(plan, s, transaction.efi.disk.State(), leaked)
    modifies transaction, transaction.efi, transaction.efi.disk
    ensures ProtectedContract(tools, plan, transaction.efi.image, s, transaction.efi.disk.State(),
                              transaction.efi.disk.euid, transaction.efi.disk.egid, outcome,
                              leaked && outcome.CleanError?)
    ensures old(ImageRestorable(transaction)) && transaction.efi.disk.faults <= old(transaction.efi.disk.faults) + 2 ==>
      ImageBack(transaction)
    ensures old(transaction.configPending && transaction.ConfigRestorable()) &&
            transaction.efi.disk.faults <= old(transaction.efi.disk.faults) + 1 ==>
      At(transaction.efi.disk.files, plan.target) == At(s.files, plan.target)
    ensures !outcome.Success? && old(transaction.efi.disk.faults) <= transaction.efi.disk.faults
  {
    var restored := RollBackTwice(transaction, tools, plan, s, error, leaked, saved);
    outcome := if restored then error else RollbackFailed;
    if transaction.efi.active {
      DestroyEfi(transaction, tools, plan, s, error, leaked, saved);       // ~EfiImageTransaction
    }
  }

  /** The protected part of `SecureBootApplyService::apply`. */
  method ApplyProtected(disk: Disk, tools: Toolchain, plan: ChangePlan, efi: Path)
    returns (outcome: ProtectedOutcome, ghost leaked: bool)
    requires disk.Valid() && plan.HasChanges()
    requires plan.target != efi && Past(plan.target, disk.clock) && Past(efi, disk.clock)
    modifies disk
    ensures ProtectedContract(tools, plan, efi, old(disk.State()), disk.State(), disk.euid, disk.egid, outcome, leaked)
    ensures outcome.Success? ==> OnlyBackups(plan, old(disk.State()), disk.files, {})
    ensures disk.faults == old(disk.faults) && !outcome.Success? ==>
      || !old(Current(plan, disk.files)) || !ValidTarget(plan.target) || !old(Readable(disk.files, efi))
      || |tools.hash(plan.generated)| != 128
  {
    ghost var s, saved := disk.State(), plan.target;
    ghost var before := At(s.files, plan.target);
    ghost var values := {before, Some(Installed(plan, before, disk.euid, disk.egid))};
    outcome, leaked := CleanError, false;
    var efiHalf := EfiTransaction.Begin(disk, efi);
    ghost var t := disk.State();
    if efiHalf == null {
      ShowsUntouched(s, t, plan.target, {}, values);
      return;
    }
    var transaction := new Transaction(efiHalf);
    ShowsUntouched(s, t, plan.target, {}, values);
    assert LeftWhenRefused(plan, s, t, false);
    outcome, leaked, saved := TryApply(transaction, tools, plan, s);
    if !outcome.Success? {
      outcome := RollBackAndClose(transaction, tools, plan, s, outcome, leaked, saved);
      leaked := leaked && outcome.CleanError?;
    }
  }

  /** The part of the discovered system this service looks at. */
  datatype SecureBootInfo = SecureBootInfo(enabled: bool, efiExecutable: Option<Path>)

  /** A protected apply that reports success has installed the generated text. */
  lemma SuccessIsInstalled(tools: Toolchain, plan: ChangePlan, generated: string, efi: Path, s: Snap, t: Snap,
                           euid: nat, egid: nat, outcome: ProtectedOutcome, leaked: bool)
    requires At(s.files, plan.target) != Some(Special) && plan == Build(s.files, plan.target, generated)
    requires ProtectedContract(tools, plan, efi, s, t, euid, egid, outcome, leaked) && outcome.Success?
    ensures
      var before, text := At(s.files, plan.target), if Open(generated) then generated + "\n" else generated;
      && Updated(tools, At(t.files, efi), tools.hash(text))
      && if before.None? then At(t.files, plan.target) == Some(Regular(text, 0x1A4, euid, egid))
         else At(t.files, plan.target) == Some(before.value.(bytes := text))
  {
    PlanDecides(s.files, plan.target, generated);
  }

  /** `SecureBootApplyService::apply`: a change is protected when Secure Boot is enabled and
      protection is on; it is then refused if the EFI executable is unknown. */
  method ApplyPlan(disk: Disk, tools: Toolchain, plan: ChangePlan, secureBoot: SecureBootInfo, protect: bool)
    returns (outcome: ProtectedOutcome, ghost leaked: bool)
    requires disk.Valid() && Past(plan.target, disk.clock)
    requires secureBoot.efiExecutable.Some? ==>
      secureBoot.efiExecutable.value != plan.target && Past(secureBoot.efiExecutable.value, disk.clock)
    modifies disk
    ensures !plan.HasChanges() ==> outcome == Success(ApplyResult(false, plan.target, None)) && unchanged(disk)
    ensures plan.HasChanges() && secureBoot.enabled && protect ==>
      if secureBoot.efiExecutable.None? then outcome.CleanError? && !leaked && unchanged(disk)
      else ProtectedContract(tools, plan, secureBoot.efiExecutable.value, old(disk.State()), disk.State(),
                             disk.euid, disk.egid, outcome, leaked)
    ensures plan.HasChanges() && !(secureBoot.enabled && protect) ==>
      exists plain :: Contract(plan, old(disk.State()), disk.State(), disk.euid, disk.egid, plain, leaked)
                   && outcome == match plain
                                 case Applied(result) => Success(result)
                                 case Rejected => CleanError
                                 case Aborted => CleanError
                                 case Unrecovered(_) => RollbackFailed
  {
    leaked := false;
    if !plan.HasChanges() {
      return Success(ApplyResult(false, plan.target, None)), false;
    }
    if !secureBoot.enabled || !protect {
      var plain;
      plain, leaked := Apply(disk, plan);
      match plain
      case Applied(result) => return Success(result), leaked;
      case Rejected => return CleanError, leaked;
      case Aborted => return CleanError, leaked;
      case Unrecovered(_) => return RollbackFailed, leaked;
    }
    if secureBoot.efiExecutable.None? { return CleanError, false; }
    outcome, leaked := ApplyProtected(disk, tools, plan, secureBoot.efiExecutable.value);
  }
}
