/** `apply_service.cpp`: the generated configuration is installed by backup, temporary file,
    atomic rename and read-back, and compensated when a step fails. */
module ApplyService {
  import opened Wrappers
  import opened Filesystem
  import opened SecureFileOps
  import opened ChangePlanner

  datatype ApplyResult = ApplyResult(changed: bool, target: Path, backup: Option<Path>)

  /** How `apply` ends: normally, with an exception before anything was touched, with the
      exception of the failed step, or with "apply failed and automatic rollback also failed". */
  datatype Outcome =
    | Applied(result: ApplyResult)
    | Rejected
    | Aborted
    | Unrecovered(backup: Path)

  const CREATE_MODE: nat := 420   // octal 0644

  predicate ValidTarget(target: Path) {
    target.Named? ==> target.name != [] && target.name[|target.name| - 1] != '/'
  }

  ghost predicate EndsInSlash(name: string) { exists front :: name == front + "/" }

  lemma SlashIsLast(name: string)
    ensures EndsInSlash(name) <==> name != [] && name[|name| - 1] == '/'
  {
    if name != [] && name[|name| - 1] == '/' { assert name == name[..|name| - 1] + "/"; }
  }

  /** The target still is what the plan was made for. */
  predicate Current(plan: ChangePlan, files: Files) {
    match plan.kind
    case Unchanged => true
    case Create => plan.target !in files
    case Update =>
      && Readable(files, plan.target)
      && NormalizeNewline(files[plan.target].bytes) == plan.installed
  }

  /** The node a plan installs: the generated bytes under the old mode and owner. */
  function Installed(plan: ChangePlan, before: Option<Node>, euid: nat, egid: nat): Node {
    match before
    case Some(Regular(_, mode, uid, gid)) => Regular(plan.generated, mode, uid, gid)
    case _ => Regular(plan.generated, CREATE_MODE, euid, egid)
  }

  function Saved(files: Files, backup: Option<Path>, node: Option<Node>): Files {
    if backup.Some? && node.Some? then files[backup.value := node.value] else files
  }

  /** A fresh backup that still is the file the target was. */
  ghost predicate HoldsBackup(target: Path, backup: Path, s: Snap, t: Snap) {
    && backup.Generated? && backup.of == target && backup.suffix == ".bak"
    && s.clock <= backup.tick < t.clock
    && At(t.files, backup) == At(s.files, target) && t.Durable(backup)
  }

  /** A synchronised backup of the target, made since `clock`. */
  ghost predicate SafeCopy(m: Moment, target: Path, backup: Path, clock: nat) {
    && backup.Generated? && backup.of == target && backup.suffix == ".bak" && clock <= backup.tick
    && backup !in m.dirty && backup !in m.names
  }

  ghost predicate InsuredAt(s: Snap, m: Moment, target: Path) {
    || At(s.files, target) == None
    || Agree(m, s.Now(), s.clock, {})
    || exists backup: Path :: SafeCopy(m, target, backup, s.clock) && At(m.files, backup) == At(s.files, target)
  }

  /** A power failure at any moment between `s` and `t` leaves the old file: at the target, or in
      a backup. */
  ghost predicate Insured(s: Snap, t: Snap, target: Path) {
    forall k :: |s.trace| <= k < |t.trace| ==> InsuredAt(s, t.trace[k], target)
  }

  /** A created target was renamed into place, and its removal was refused. */
  ghost predicate LeftBehind(plan: ChangePlan, s: Snap, t: Snap) {
    && plan.kind == Create
    && Happened(s, t, Call(Renaming, plan.target, false))
    && Happened(s, t, Call(Unlinking, plan.target, true))
  }

  /** A refused removal of a created target is one that leaves it behind. */
  ghost predicate RefusedIsLeft(plan: ChangePlan, s: Snap, t: Snap, leaked: bool) {
    plan.kind == Create && Happened(s, t, Call(Unlinking, plan.target, true)) ==> leaked
  }

  /** Everything `ApplyService::apply` promises about the disk, for every pattern of failures.
      `leaked` says that a created target stays behind: exactly when it was renamed into place and
      the unchecked `unlink` of the handler (line 169) is refused. */
  ghost predicate Contract(plan: ChangePlan, s: Snap, t: Snap, euid: nat, egid: nat, outcome: Outcome, leaked: bool) {
    var before, now := At(s.files, plan.target), At(t.files, plan.target);
    var installed := Some(Installed(plan, before, euid, egid));
    && t.Valid()
    && Guarded(s, t, plan.target, {before, installed})
    && Insured(s, t, plan.target)
    && (leaked <==> LeftBehind(plan, s, t)) && RefusedIsLeft(plan, s, t, leaked)
    && match outcome
       case Applied(result) =>
         && !leaked && t.faults == s.faults && result.target == plan.target
         && result.changed == plan.HasChanges()
         && (!result.changed ==> result.backup == None && t.files == s.files)
         && (result.changed ==>
               && Current(plan, s.files) && now == installed && t.Durable(plan.target)
               && (result.backup.Some? <==> before.Some?)
               && (result.backup.Some? ==> HoldsBackup(plan.target, result.backup.value, s, t))
               && t.files == Saved(s.files, result.backup, before)[plan.target := installed.value])
       case Rejected =>
         && !leaked && t.files == s.files
         && (t.faults > s.faults || !Current(plan, s.files) || !ValidTarget(plan.target))
       case Aborted =>
         && Current(plan, s.files) && t.faults > s.faults
         && now == (if leaked then installed else before)
         && (leaked ==> t.faults >= s.faults + 2)
       case Unrecovered(backup) =>
         && !leaked && plan.kind == Update && Current(plan, s.files) && t.faults >= s.faults + 2
         && HoldsBackup(plan.target, backup, s, t)
  }

  ghost predicate Attempted(s: Snap, t: Snap, kind: Kind, p: Path) {
    Happened(s, t, Call(kind, p, false)) || Happened(s, t, Call(kind, p, true))
  }

  ghost predicate FaultElsewhere(s: Snap, t: Snap, p: Path) {
    exists k :: |s.log| <= k < |t.log| && t.log[k].fault && t.log[k].path != p
  }

  /** Which calls decide how the apply of a valid create plan ends. */
  ghost predicate CreateLog(plan: ChangePlan, s: Snap, t: Snap, outcome: Outcome) {
    match outcome
    case Applied(_) => Happened(s, t, Call(Reading, plan.target, false))
    case Rejected =>
      Happened(s, t, Call(Locking, plan.target, true)) || Happened(s, t, Call(Inspecting, plan.target, true))
    case Aborted =>
      if Happened(s, t, Call(Renaming, plan.target, false)) then Attempted(s, t, Unlinking, plan.target)
      else Happened(s, t, Call(Renaming, plan.target, true)) || FaultElsewhere(s, t, plan.target)
    case Unrecovered(_) => false
  }

  predicate BackupOf(p: Path, target: Path) { p.Generated? && p.of == target && p.suffix == ".bak" }

  /** Of the files that are new, only the target, backups of it, those in `extra` and those whose
      removal was refused are left. */
  ghost predicate Tidy(target: Path, s: Snap, t: Snap, extra: set<Path>) {
    forall p :: p in t.files && p !in s.files && p !in extra ==>
      p == target || BackupOf(p, target) || Happened(s, t, Call(Unlinking, p, true))
  }

  lemma TidyChain(target: Path, s: Snap, t: Snap, u: Snap, extra: set<Path>, kept: set<Path>)
    requires s.log <= t.log <= u.log && Tidy(target, s, t, extra) && LeavesOnly(t, u, kept)
    requires forall p :: p in kept && p !in extra ==> p == target || BackupOf(p, target)
    ensures Tidy(target, s, u, extra)
  {
    forall p | p in u.files && p !in s.files && p !in extra
      ensures p == target || BackupOf(p, target) || Happened(s, u, Call(Unlinking, p, true))
    {
      HappenedChain(s, t, u, Call(Unlinking, p, true));
    }
  }

  lemma TidyMoved(target: Path, s: Snap, t: Snap, u: Snap)
    requires s.log <= t.log <= u.log && t.files == s.files && Tidy(target, t, u, {})
    ensures Tidy(target, s, u, {})
  {
    forall p | p in u.files && p !in s.files
      ensures p == target || BackupOf(p, target) || Happened(s, u, Call(Unlinking, p, true))
    {
      HappenedChain(s, t, u, Call(Unlinking, p, true));
    }
  }

  /** The unchecked `unlink` of the temporary file: it is gone, or its removal was refused. */
  lemma TidyRemoved(target: Path, s: Snap, t: Snap, u: Snap, temporary: Path)
    requires s.log <= t.log <= u.log && Tidy(target, s, t, {temporary}) && u.files.Keys <= t.files.Keys
    requires temporary in u.files ==> Happened(t, u, Call(Unlinking, temporary, true))
    ensures Tidy(target, s, u, {})
  {
    forall p | p in u.files && p !in s.files
      ensures p == target || BackupOf(p, target) || Happened(s, u, Call(Unlinking, p, true))
    {
      HappenedChain(s, t, u, Call(Unlinking, p, true));
    }
  }

  lemma InsuredUntouched(s: Snap, t: Snap, target: Path)
    requires Evolves(s, t, {})
    ensures Insured(s, t, target)
  {
  }

  /** While a synchronised backup is left alone, the target may be replaced. */
  lemma InsuredByBackup(s: Snap, t: Snap, u: Snap, touched: set<Path>, target: Path, backup: Path)
    requires Insured(s, t, target) && Evolves(t, u, touched) && s.clock <= t.clock
    requires HoldsBackup(target, backup, s, t) && backup !in touched
    ensures Insured(s, u, target)
  {
    forall k | |s.trace| <= k < |u.trace| ensures InsuredAt(s, u.trace[k], target) {
      if k < |t.trace| {
        assert u.trace[k] == t.trace[k];
      } else {
        assert At(u.trace[k].files, backup) == At(t.Now().files, backup);
        assert SafeCopy(u.trace[k], target, backup, s.clock);
      }
    }
  }

  /** Reading back what was written: a faulty device may also return other bytes. */
  method ReadBack(disk: Disk, p: Path) returns (content: Option<string>)
    requires disk.Valid() && Readable(disk.files, p)
    modifies disk`faults, disk`calls, disk`log, disk`confirmed
    ensures disk.Valid() && Observed(old(disk.State()), disk.State()) && OnlyReads(old(disk.State()), disk.State(), p)
    ensures content.Some? ==> disk.confirmed == Some((p, content.value))
    ensures content.Some? ==> Happened(old(disk.State()), disk.State(), Call(Reading, p, false))
    ensures content == Some(disk.files[p].bytes) <==> disk.faults == old(disk.faults)
  {
    ghost var s := disk.State();
    content := disk.ReadFile(p);
    ghost var s1 := disk.State();
    var delivered: Option<string> := *;
    if content.Some? && delivered != content {
      var faulty := disk.Fails(Reading, p);
      if faulty { content := delivered; }
    }
    HappenedChain(s, s1, disk.State(), Call(Reading, p, false));
    if content.Some? { disk.confirmed := Some((p, content.value)); }
  }

  /** `fstat`, and `fchown` only where the owner differs. */
  method SetOwner(disk: Disk, temporary: Path, installed: Node) returns (ok: bool)
    requires disk.Valid() && installed.Regular? && Readable(disk.files, temporary)
    modifies disk
    ensures disk.Valid() && disk.clock == old(disk.clock)
    ensures Evolves(old(disk.State()), disk.State(), {temporary})
    ensures Concerns(old(disk.State()), disk.State(), temporary)
    ensures ok ==>
      disk.files ==
        old(disk.files)[temporary := old(disk.files[temporary]).(uid := installed.uid, gid := installed.gid)]
    ensures ok <==> disk.faults == old(disk.faults)
    ensures !ok ==> EndsInFault(old(disk.State()), disk.State())
  {
    ghost var s := disk.State();
    var inspected, node := disk.Lstat(temporary);
    ghost var s1 := disk.State();
    Looked(s, s1);
    Chain(s, s, s1, {}, {}, {temporary});
    if !inspected { return false; }
    ok := true;
    if node.value.uid != installed.uid || node.value.gid != installed.gid {
      ok := disk.Update(temporary, node.value.(uid := installed.uid, gid := installed.gid));
      Chain(s, s1, disk.State(), {}, {temporary}, {temporary});
    }
  }

  /** `fchmod`, and then the owner. */
  method SetModeAndOwner(disk: Disk, temporary: Path, installed: Node) returns (ok: bool)
    requires disk.Valid() && installed.Regular?
    requires Readable(disk.files, temporary) && disk.files[temporary].bytes == installed.bytes
    modifies disk
    ensures disk.Valid() && disk.clock == old(disk.clock)
    ensures Evolves(old(disk.State()), disk.State(), {temporary})
    ensures Concerns(old(disk.State()), disk.State(), temporary)
    ensures ok ==> disk.files == old(disk.files)[temporary := installed]
    ensures ok <==> disk.faults == old(disk.faults)
    ensures !ok ==> EndsInFault(old(disk.State()), disk.State())
  {
    ghost var s := disk.State();
    ok := disk.Update(temporary, disk.files[temporary].(mode := installed.mode));
    if !ok { return; }
    ghost var s1 := disk.State();
    ok := SetOwner(disk, temporary, installed);
    Chain(s, s1, disk.State(), {temporary}, {temporary}, {temporary});
  }

  /** The temporary file once it is open: write, mode and owner, `fsync`. */
  method FillOpened(disk: Disk, temporary: Path, installed: Node) returns (ok: bool)
    requires disk.Valid() && installed.Regular? && Readable(disk.files, temporary) && disk.files[temporary].bytes == []
    modifies disk
    ensures disk.Valid() && disk.clock == old(disk.clock)
    ensures Evolves(old(disk.State()), disk.State(), {temporary})
    ensures Concerns(old(disk.State()), disk.State(), temporary)
    ensures ok ==> disk.files == old(disk.files)[temporary := installed] && temporary !in disk.dirty
    ensures ok <==> disk.faults == old(disk.faults)
    ensures !ok ==> EndsInFault(old(disk.State()), disk.State())
  {
    ghost var s := disk.State();
    ok := disk.WriteAll(temporary, installed.bytes);
    if !ok { return; }
    ghost var s1 := disk.State();
    ok := SetModeAndOwner(disk, temporary, installed);
    ghost var s2 := disk.State();
    Chain(s, s1, s2, {temporary}, {temporary}, {temporary});
    if !ok { return; }
    ok := disk.FsyncFile(temporary);
    Chain(s, s2, disk.State(), {temporary}, {}, {temporary});
  }

  method FillTemporary(disk: Disk, temporary: Path, installed: Node) returns (ok: bool)
    requires disk.Valid() && installed.Regular? && Past(temporary, disk.clock) && temporary !in disk.files
    modifies disk
    ensures disk.Valid() && disk.clock == old(disk.clock)
    ensures Evolves(old(disk.State()), disk.State(), {temporary})
    ensures Concerns(old(disk.State()), disk.State(), temporary)
    ensures ok ==> disk.files == old(disk.files)[temporary := installed] && temporary !in disk.dirty
    ensures ok <==> disk.faults == old(disk.faults)
    ensures !ok ==> EndsInFault(old(disk.State()), disk.State())
  {
    ghost var s := disk.State();
    ok := disk.CreateExclusive(temporary, installed.mode);
    if !ok { return; }
    ghost var s1 := disk.State();
    ok := FillOpened(disk, temporary, installed);
    Chain(s, s1, disk.State(), {temporary}, {temporary}, {temporary});
  }

  /** The backup step: the copy counts only once its directory is synchronised. */
  method SaveBackup(disk: Disk, target: Path, node: Node, ghost s: Snap) returns (ok: bool, backup: Option<Path>)
    requires disk.Valid() && Past(target, s.clock) && s.clock <= disk.clock
    requires At(disk.files, target) == Some(node) && node.Regular?
    requires Evolves(s, disk.State(), {})
    modifies disk
    ensures disk.Valid() && old(disk.clock) < disk.clock
    ensures Evolves(s, disk.State(), {}) && old(disk.faults) <= disk.faults
    ensures forall p :: Past(p, old(disk.clock)) ==> At(disk.files, p) == At(old(disk.files), p)
    ensures backup.Some? <==> ok
    ensures ok ==> HoldsBackup(target, backup.value, old(disk.State()), disk.State())
    ensures ok ==> disk.files == Saved(old(disk.files), backup, Some(node))
    ensures Tidy(target, old(disk.State()), disk.State(), {})
    ensures ok <==> disk.faults == old(disk.faults)
  {
    ghost var s0 := disk.State();
    var candidate := disk.UniquePath(target, ".bak");
    ghost var s1 := disk.State();
    ok := CopyFileSecure(disk, target, candidate, node);
    ghost var s2 := disk.State();
    backup := None;
    Chain(s0, s1, s2, {}, {candidate}, {});
    assert node.(bytes := node.bytes) == node;
    if ok {
      ok := disk.FsyncDirectoryOf(candidate);
      if ok { backup := Some(candidate); }
      Chain(s0, s2, disk.State(), {}, {}, {});
    } else {
      TidyChain(target, s0, s1, s2, {}, {});
    }
    Chain(s, s0, disk.State(), {}, {}, {});
  }

  /** Which calls of an installation decide what the target holds afterwards. */
  ghost predicate InstallLog(s: Snap, t: Snap, target: Path, installed: Node) {
    var renamed := Happened(s, t, Call(Renaming, target, false));
    && At(t.files, target) == (if renamed then Some(installed) else At(s.files, target))
    && !Happened(s, t, Call(Unlinking, target, true))
    && (renamed || Happened(s, t, Call(Renaming, target, true)) || FaultElsewhere(s, t, target))
  }

  /** Rename over the target, and the read-back check. */
  method Publish(disk: Disk, target: Path, temporary: Path, installed: Node) returns (ok: bool)
    requires disk.Valid() && target != temporary && installed.Regular? && Past(target, disk.clock)
    requires At(disk.files, temporary) == Some(installed) && temporary !in disk.dirty
    modifies disk
    ensures disk.Valid() && disk.clock == old(disk.clock)
    ensures Evolves(old(disk.State()), disk.State(), {temporary, target})
    ensures Shows(old(disk.State()), disk.State(), target, {old(At(disk.files, target)), Some(installed)})
    ensures InstallLog(old(disk.State()), disk.State(), target, installed)
    ensures ok ==> disk.files == old(disk.files)[target := installed] - {temporary} && disk.State().Durable(target)
    ensures ok ==> disk.confirmed == Some((target, installed.bytes))
    ensures ok ==> Happened(old(disk.State()), disk.State(), Call(Reading, target, false))
    ensures ok <==> disk.faults == old(disk.faults)
  {
    ghost var s := disk.State();
    ok := RenameInto(disk, temporary, target);
    ghost var s1 := disk.State();
    ChangeLogged(s, s1, Renaming, target, temporary !in disk.files, ok);
    if !ok { return; }
    var content := ReadBack(disk, target);
    ok := content == Some(installed.bytes);
    HappenedChain(s, s1, disk.State(), Call(Renaming, target, false));
    HappenedChain(s, s1, disk.State(), Call(Unlinking, target, true));
    HappenedChain(s, s1, disk.State(), Call(Reading, target, false));
  }

  lemma InstallLogged(s: Snap, t: Snap, u: Snap, target: Path, temporary: Path, installed: Node)
    requires s.log <= t.log <= u.log && Concerns(s, t, temporary) && temporary != target
    requires At(t.files, target) == At(s.files, target) && InstallLog(t, u, target, installed)
    ensures InstallLog(s, u, target, installed)
    ensures Happened(t, u, Call(Reading, target, false)) ==> Happened(s, u, Call(Reading, target, false))
  {
    HappenedChain(s, t, u, Call(Renaming, target, false));
    HappenedChain(s, t, u, Call(Renaming, target, true));
    HappenedChain(s, t, u, Call(Unlinking, target, true));
    HappenedChain(s, t, u, Call(Reading, target, false));
  }

  /** Temporary file, mode, owner, rename over the target, and the read-back check. */
  method InstallGenerated(disk: Disk, target: Path, temporary: Path, installed: Node) returns (ok: bool)
    requires disk.Valid() && target != temporary && installed.Regular?
    requires Past(target, disk.clock) && Past(temporary, disk.clock) && temporary !in disk.files
    modifies disk
    ensures disk.Valid() && disk.clock == old(disk.clock)
    ensures Evolves(old(disk.State()), disk.State(), {temporary, target})
    ensures Shows(old(disk.State()), disk.State(), target, {old(At(disk.files, target)), Some(installed)})
    ensures InstallLog(old(disk.State()), disk.State(), target, installed)
    ensures ok ==> disk.files == old(disk.files)[target := installed] && disk.State().Durable(target)
    ensures ok ==> disk.confirmed == Some((target, installed.bytes))
    ensures ok ==> Happened(old(disk.State()), disk.State(), Call(Reading, target, false))
    ensures ok <==> disk.faults == old(disk.faults)
  {
    ghost var values := {At(disk.files, target), Some(installed)};
    ghost var s := disk.State();
    ok := FillTemporary(disk, temporary, installed);
    ghost var s1 := disk.State();
    ShowsUntouched(s, s1, target, {temporary}, values);
    if !ok {
      Chain(s, s, s1, {}, {temporary}, {temporary, target});
      return;
    }
    ok := Publish(disk, target, temporary, installed);
    ghost var s2 := disk.State();
    Chain(s, s1, s2, {temporary}, {temporary, target}, {temporary, target});
    ShowsChain(s, s1, s2, target, values);
    InstallLogged(s, s1, s2, target, temporary, installed);
  }

  lemma CreatedRemoved(plan: ChangePlan, s: Snap, t: Snap, u: Snap, installed: Node, leaked: bool, unsynced: bool)
    requires plan.kind == Create && plan.target !in s.files && s.log <= t.log
    requires InstallLog(s, t, plan.target, installed) && (leaked ==> plan.target in t.files)
    requires u.log == t.log + (if plan.target in t.files then [Call(Unlinking, plan.target, leaked)] else [])
                        + [Call(SyncingDirectory, plan.target, unsynced)]
    ensures (leaked <==> LeftBehind(plan, s, u)) && RefusedIsLeft(plan, s, u, leaked)
    ensures Happened(s, u, Call(Renaming, plan.target, false)) ==> Attempted(s, u, Unlinking, plan.target)
  {
    var target := plan.target;
    var calls := (if target in t.files then [Call(Unlinking, target, leaked)] else [])
      + [Call(SyncingDirectory, target, unsynced)];
    assert u.log == t.log + calls;
    HappenedAmong(t, u, calls, Call(Renaming, target, false));
    HappenedAmong(t, u, calls, Call(Unlinking, target, true));
    HappenedAmong(t, u, calls, Call(Unlinking, target, leaked));
    HappenedChain(s, t, u, Call(Renaming, target, false));
    HappenedChain(s, t, u, Call(Unlinking, target, true));
    HappenedChain(s, t, u, Call(Unlinking, target, false));
  }

  /** The handler for a created target: an unchecked `unlink` and a directory `fsync`. */
  method RemoveCreated(disk: Disk, plan: ChangePlan, installed: Node, ghost s: Snap) returns (ghost leaked: bool)
    requires disk.Valid() && plan.kind == Create && plan.target !in s.files && Past(plan.target, s.clock)
    requires Guarded(s, disk.State(), plan.target, {None, Some(installed)})
    requires InstallLog(s, disk.State(), plan.target, installed)
    modifies disk
    ensures disk.Valid() && Guarded(s, disk.State(), plan.target, {None, Some(installed)})
    ensures At(disk.files, plan.target) == if leaked then Some(installed) else None
    ensures leaked <==> LeftBehind(plan, s, disk.State())
    ensures RefusedIsLeft(plan, s, disk.State(), leaked)
    ensures Happened(s, disk.State(), Call(Renaming, plan.target, false)) ==>
      Attempted(s, disk.State(), Unlinking, plan.target)
    ensures old(disk.faults) <= disk.faults && (leaked ==> disk.faults > old(disk.faults))
    ensures old(disk.log) <= disk.log && LeavesOnly(old(disk.State()), disk.State(), {})
  {
    var target := plan.target;
    ghost var values := {None, Some(installed)};
    ghost var t := disk.State();
    var removed := disk.Unlink(target);
    ghost var t1 := disk.State();
    GuardedChain(s, t, t1, {target}, target, values);
    leaked := target in disk.files;
    var synced := disk.FsyncDirectoryOf(target);
    GuardedChain(s, t1, disk.State(), {}, target, values);
    CreatedRemoved(plan, s, t, disk.State(), installed, leaked, !synced);
  }

  /** The handler for a replaced target: the backup is restored. */
  method RestoreSaved(disk: Disk, plan: ChangePlan, node: Node, backup: Path, installed: Node, ghost s: Snap)
    returns (restored: bool)
    requires disk.Valid() && node.Regular? && At(s.files, plan.target) == Some(node) && Past(plan.target, s.clock)
    requires Guarded(s, disk.State(), plan.target, {Some(node), Some(installed)})
    requires Insured(s, disk.State(), plan.target)
    requires HoldsBackup(plan.target, backup, s, disk.State())
    modifies disk
    ensures disk.Valid() && Guarded(s, disk.State(), plan.target, {Some(node), Some(installed)})
    ensures Insured(s, disk.State(), plan.target) && HoldsBackup(plan.target, backup, s, disk.State())
    ensures restored ==> At(disk.files, plan.target) == Some(node)
    ensures LeavesOnly(old(disk.State()), disk.State(), {plan.target}) && old(disk.log) <= disk.log
    ensures old(disk.faults) <= disk.faults && (restored <==> disk.faults == old(disk.faults))
  {
    var target := plan.target;
    ghost var values := {Some(node), Some(installed)};
    ghost var t := disk.State();
    assert At(t.files, backup) == Some(node) && node.(bytes := node.bytes) == node;
    restored := ReplaceFromBackup(disk, backup, target, node);
    GuardedChain(s, t, disk.State(), {target}, target, values);
    InsuredByBackup(s, t, disk.State(), {target}, target, backup);
    assert At(disk.files, backup) == At(t.files, backup);
  }

  lemma FaultStays(s: Snap, t: Snap, u: Snap, p: Path)
    requires s.log <= t.log <= u.log
    ensures FaultElsewhere(s, t, p) ==> FaultElsewhere(s, u, p)
  {
    if FaultElsewhere(s, t, p) {
      var k :| |s.log| <= k < |t.log| && t.log[k].fault && t.log[k].path != p;
      assert u.log[k] == t.log[k];
    }
  }

  lemma TemporaryRemoved(s: Snap, t: Snap, u: Snap, target: Path, temporary: Path, installed: Node)
    requires s.log <= t.log <= u.log && InstallLog(s, t, target, installed) && temporary != target
    requires At(u.files, target) == At(t.files, target) && Concerns(t, u, temporary)
    ensures InstallLog(s, u, target, installed)
  {
    HappenedChain(s, t, u, Call(Renaming, target, false));
    HappenedChain(s, t, u, Call(Renaming, target, true));
    HappenedChain(s, t, u, Call(Unlinking, target, true));
    FaultStays(s, t, u, target);
  }

  lemma InstallLogStays(s: Snap, t: Snap, u: Snap, target: Path, installed: Node)
    requires s.log <= t.log <= u.log && InstallLog(s, t, target, installed)
    ensures
      || Happened(s, u, Call(Renaming, target, false)) || Happened(s, u, Call(Renaming, target, true))
      || FaultElsewhere(s, u, target)
  {
    HappenedChain(s, t, u, Call(Renaming, target, false));
    HappenedChain(s, t, u, Call(Renaming, target, true));
    FaultStays(s, t, u, target);
  }

  /** The exception handler of `apply`: undo what the failed step may have left. */
  method Compensate(disk: Disk, plan: ChangePlan, node: Option<Node>, temporary: Path, backup: Option<Path>,
                    ghost s: Snap)
    returns (outcome: Outcome, ghost leaked: bool)
    requires disk.Valid() && Past(plan.target, s.clock) && plan.HasChanges() && Current(plan, s.files)
    requires node == At(s.files, plan.target) && node != Some(Special)
    requires Guarded(s, disk.State(), plan.target, {node, Some(Installed(plan, node, disk.euid, disk.egid))})
    requires Insured(s, disk.State(), plan.target)
    requires !Past(temporary, s.clock) && temporary != plan.target && Past(temporary, disk.clock)
    requires disk.faults > s.faults
    requires backup.Some? ==>
      node.Some? && temporary != backup.value && HoldsBackup(plan.target, backup.value, s, disk.State())
    requires backup.None? && node.Some? ==> Evolves(s, disk.State(), {})
    requires node.None? ==> InstallLog(s, disk.State(), plan.target, Installed(plan, node, disk.euid, disk.egid))
    requires Tidy(plan.target, s, disk.State(), {temporary})
    modifies disk
    ensures Contract(plan, s, disk.State(), disk.euid, disk.egid, outcome, leaked) && disk.Valid()
    ensures plan.kind == Create ==> CreateLog(plan, s, disk.State(), outcome)
    ensures Tidy(plan.target, s, disk.State(), {})
    ensures outcome.Aborted? || outcome.Unrecovered?
  {
    leaked := false;
    var target := plan.target;
    var installed := Installed(plan, node, disk.euid, disk.egid);
    ghost var t := disk.State();
    var _ := disk.Unlink(temporary);
    ghost var t1 := disk.State();
    GuardedBeside(s, t, t1, {temporary}, target, {node, Some(installed)});
    assert At(t1.files, target) == At(t.files, target);
    assert temporary in disk.files ==> t1.log[|t.log|] == Call(Unlinking, temporary, true);
    TidyRemoved(target, s, t, t1, temporary);
    if backup.Some? {
      InsuredByBackup(s, t, t1, {temporary}, target, backup.value);
      assert At(t1.files, backup.value) == At(t.files, backup.value);
      var restored := RestoreSaved(disk, plan, node.value, backup.value, installed, s);
      TidyChain(target, s, t1, disk.State(), {}, {target});
      outcome := if restored then Aborted else Unrecovered(backup.value);
    } else if node.None? {
      TemporaryRemoved(s, t, t1, target, temporary, installed);
      leaked := RemoveCreated(disk, plan, installed, s);
      InstallLogStays(s, t1, disk.State(), target, installed);
      TidyChain(target, s, t1, disk.State(), {}, {});
      outcome := Aborted;
    } else {
      Chain(s, t, t1, {}, {temporary}, {});
      InsuredUntouched(s, t1, target);
      outcome := Aborted;
    }
  }

  /** The installation, seen from the start of the apply. */
  method InstallOver(disk: Disk, plan: ChangePlan, node: Option<Node>, temporary: Path, backup: Option<Path>,
                     ghost s: Snap) returns (ok: bool)
    requires disk.Valid() && node == At(s.files, plan.target) && node != Some(Special) && Past(plan.target, s.clock)
    requires Evolves(s, disk.State(), {}) && disk.faults == s.faults && Tidy(plan.target, s, disk.State(), {})
    requires !Past(temporary, s.clock) && Past(temporary, disk.clock) && temporary !in disk.files
    requires temporary != plan.target && (backup.Some? <==> node.Some?)
    requires backup.Some? ==> temporary != backup.value && HoldsBackup(plan.target, backup.value, s, disk.State())
    modifies disk
    ensures disk.Valid() && old(disk.clock) == disk.clock
    ensures Insured(s, disk.State(), plan.target) && Tidy(plan.target, s, disk.State(), {temporary})
    ensures
      var installed := Installed(plan, node, disk.euid, disk.egid);
      && Guarded(s, disk.State(), plan.target, {node, Some(installed)})
      && InstallLog(old(disk.State()), disk.State(), plan.target, installed)
      && (ok ==> disk.files == old(disk.files)[plan.target := installed] && disk.State().Durable(plan.target)
                 && disk.confirmed == Some((plan.target, installed.bytes))
                 && Happened(old(disk.State()), disk.State(), Call(Reading, plan.target, false)))
    ensures backup.Some? ==> HoldsBackup(plan.target, backup.value, s, disk.State())
    ensures ok <==> disk.faults == old(disk.faults)
    ensures old(disk.faults) <= disk.faults && old(disk.log) <= disk.log
  {
    var target := plan.target;
    ghost var t := disk.State();
    ghost var values := {node, Some(Installed(plan, node, disk.euid, disk.egid))};
    ok := InstallGenerated(disk, target, temporary, Installed(plan, node, disk.euid, disk.egid));
    ShowsUntouched(s, t, target, {}, values);
    GuardedChain(s, t, disk.State(), {temporary, target}, target, values);
    InsuredUntouched(s, t, target);
    LeavesTouched(t, disk.State(), {temporary, target});
    TidyChain(target, s, t, disk.State(), {temporary}, {temporary, target});
    if backup.Some? {
      InsuredByBackup(s, t, disk.State(), {temporary, target}, target, backup.value);
      assert At(disk.files, backup.value) == At(t.files, backup.value);
    }
  }

  /** The `try` block: backup, temporary file, installation. */
  method TryInstall(disk: Disk, plan: ChangePlan, node: Option<Node>)
    returns (ok: bool, temporary: Path, backup: Option<Path>)
    requires disk.Valid() && Past(plan.target, disk.clock) && plan.HasChanges()
    requires node == At(disk.files, plan.target) && node != Some(Special) && Current(plan, disk.files)
    modifies disk
    ensures disk.Valid() && Insured(old(disk.State()), disk.State(), plan.target)
    ensures
      var installed := Installed(plan, node, disk.euid, disk.egid);
      && Guarded(old(disk.State()), disk.State(), plan.target, {node, Some(installed)})
      && (node.None? ==> InstallLog(old(disk.State()), disk.State(), plan.target, installed))
      && (ok ==>
            && disk.files == Saved(old(disk.files), backup, node)[plan.target := installed]
            && disk.State().Durable(plan.target) && disk.confirmed == Some((plan.target, installed.bytes))
            && (backup.Some? <==> node.Some?)
            && Happened(old(disk.State()), disk.State(), Call(Reading, plan.target, false)))
    ensures !Past(temporary, old(disk.clock)) && temporary != plan.target && Past(temporary, disk.clock)
    ensures backup.Some? ==>
      && node.Some? && temporary != backup.value
      && HoldsBackup(plan.target, backup.value, old(disk.State()), disk.State())
    ensures backup.None? && node.Some? ==> Evolves(old(disk.State()), disk.State(), {})
    ensures Tidy(plan.target, old(disk.State()), disk.State(), {temporary})
    ensures old(disk.faults) <= disk.faults && (ok <==> disk.faults == old(disk.faults))
  {
    var target := plan.target;
    ghost var values := {node, Some(Installed(plan, node, disk.euid, disk.egid))};
    ghost var s := disk.State();
    temporary := disk.UniquePath(target, ".tmp");
    backup := None;
    ok := true;
    if node.Some? {
      ok, backup := SaveBackup(disk, target, node.value, s);
    }
    ghost var s1 := disk.State();
    InsuredUntouched(s, s1, target);
    ShowsUntouched(s, s1, target, {}, values);
    assert At(disk.files, temporary) == None;
    if ok { ok := InstallOver(disk, plan, node, temporary, backup, s); }
  }

  /** The `try` block and its handler: from here on a failure is compensated. */
  method InstallOrCompensate(disk: Disk, plan: ChangePlan, node: Option<Node>)
    returns (outcome: Outcome, ghost leaked: bool)
    requires disk.Valid() && Past(plan.target, disk.clock) && plan.HasChanges()
    requires node == At(disk.files, plan.target) && node != Some(Special) && Current(plan, disk.files)
    modifies disk
    ensures Contract(plan, old(disk.State()), disk.State(), disk.euid, disk.egid, outcome, leaked) && disk.Valid()
    ensures plan.kind == Create ==> CreateLog(plan, old(disk.State()), disk.State(), outcome)
    ensures outcome.Applied? && outcome.result.changed ==> disk.confirmed == Some((plan.target, plan.generated))
    ensures Tidy(plan.target, old(disk.State()), disk.State(), {})
    ensures !outcome.Rejected?
  {
    ghost var s := disk.State();
    var ok, temporary, backup := TryInstall(disk, plan, node);
    if ok {
      return Applied(ApplyResult(true, plan.target, backup)), false;
    }
    outcome, leaked := Compensate(disk, plan, node, temporary, backup, s);
  }

  /** Lock, inspection and the stale-plan checks, before anything is touched. */
  method CheckCurrent(disk: Disk, plan: ChangePlan) returns (ok: bool, node: Option<Node>)
    requires disk.Valid() && plan.HasChanges()
    modifies disk`faults, disk`calls, disk`log
    ensures disk.Valid() && Observed(old(disk.State()), disk.State())
    ensures forall k :: |old(disk.log)| <= k < |disk.log| ==> disk.log[k].kind in {Locking, Inspecting, Reading}
    ensures ok ==> |old(disk.log)| < |disk.log| && disk.log[|old(disk.log)|] == Call(Locking, plan.target, false)
    ensures ok ==>
      && node == At(disk.files, plan.target) && node != Some(Special) && Current(plan, disk.files)
      && disk.faults == old(disk.faults)
    ensures !ok ==> disk.faults > old(disk.faults) || !Current(plan, disk.files)
    ensures !ok && plan.kind == Create && Current(plan, disk.files) ==>
      || Happened(old(disk.State()), disk.State(), Call(Locking, plan.target, true))
      || Happened(old(disk.State()), disk.State(), Call(Inspecting, plan.target, true))
  {
    ghost var s := disk.State();
    var lockFault := disk.Fails(Locking, plan.target);   // runtime directory, lock file, flock
    assert disk.State().log[|s.log|] == Call(Locking, plan.target, lockFault);
    if lockFault { return false, None; }
    var inspected;
    inspected, node := disk.Lstat(plan.target);
    assert disk.State().log[|s.log| + 1] == Call(Inspecting, plan.target, !inspected);
    if !inspected || node == Some(Special) { return false, node; }
    if plan.kind == Create && node.Some? { return false, node; }
    if plan.kind == Update && node.None? { return false, node; }
    if node.Some? {
      var content := disk.ReadFile(plan.target);
      if content.None? || NormalizeNewline(content.value) != plan.installed { return false, node; }
    }
    ok := true;
  }

  lemma InspectedFirst(plan: ChangePlan, s: Snap, t: Snap, u: Snap, euid: nat, egid: nat, outcome: Outcome,
                       leaked: bool)
    requires Observed(s, t) && t.faults == s.faults && Contract(plan, t, u, euid, egid, outcome, leaked)
    requires !outcome.Rejected?
    requires s.log <= t.log <= u.log
    requires forall k :: |s.log| <= k < |t.log| ==> t.log[k].kind in {Locking, Inspecting, Reading}
    ensures Contract(plan, s, u, euid, egid, outcome, leaked)
    ensures plan.kind == Create && CreateLog(plan, t, u, outcome) ==> CreateLog(plan, s, u, outcome)
  {
    HappenedChain(s, t, u, Call(Renaming, plan.target, false));
    HappenedChain(s, t, u, Call(Renaming, plan.target, true));
    HappenedChain(s, t, u, Call(Unlinking, plan.target, true));
    HappenedChain(s, t, u, Call(Unlinking, plan.target, false));
    HappenedChain(s, t, u, Call(Reading, plan.target, false));
  }

  /** `ApplyService::apply`. */
  method Apply(disk: Disk, plan: ChangePlan) returns (outcome: Outcome, ghost leaked: bool)
    requires disk.Valid() && Past(plan.target, disk.clock)
    modifies disk
    ensures Contract(plan, old(disk.State()), disk.State(), disk.euid, disk.egid, outcome, leaked) && disk.Valid()
    ensures plan.kind == Create && old(Current(plan, disk.files)) && ValidTarget(plan.target) ==>
      CreateLog(plan, old(disk.State()), disk.State(), outcome)
    ensures outcome.Applied? && outcome.result.changed ==> disk.confirmed == Some((plan.target, plan.generated))
    ensures Tidy(plan.target, old(disk.State()), disk.State(), {})
    ensures plan.HasChanges() && !outcome.Rejected? ==>   // under the lock
      |old(disk.log)| < |disk.log| && disk.log[|old(disk.log)|] == Call(Locking, plan.target, false)
    ensures plan.HasChanges() && plan.target.Named? && (plan.target.name == "" || EndsInSlash(plan.target.name)) ==>
      outcome.Rejected?
  {
    leaked := false;
    if !plan.HasChanges() {
      return Applied(ApplyResult(false, plan.target, None)), false;
    }
    if plan.target.Named? { SlashIsLast(plan.target.name); }
    if !ValidTarget(plan.target) { return Rejected, false; }
    ghost var s := disk.State();
    var current, node := CheckCurrent(disk, plan);
    if !current { return Rejected, false; }
    ghost var t := disk.State();
    outcome, leaked := InstallOrCompensate(disk, plan, node);
    InspectedFirst(plan, s, t, disk.State(), disk.euid, disk.egid, outcome, leaked);
    TidyMoved(plan.target, s, t, disk.State());
  }

  /** After a successful apply, planning with the same text finds nothing left to do. */
  lemma ReplanIsUnchanged(plan: ChangePlan, generated: string, s: Snap, t: Snap, euid: nat, egid: nat, outcome: Outcome)
    requires At(s.files, plan.target) != Some(Special)
    requires plan == Build(s.files, plan.target, generated)
    requires Contract(plan, s, t, euid, egid, outcome, false) && outcome.Applied?
    ensures At(t.files, plan.target) != Some(Special)
    ensures Build(t.files, plan.target, generated).kind == Unchanged
  {
    assert NormalizeNewline(NormalizeNewline(generated)) == NormalizeNewline(generated);
  }

  /** What an apply that reports success has achieved, whatever failed on the way: nothing was touched
      where the text was there already; otherwise the target is the generated text, under its old mode
      and owner, or under 0644 and the process's owner, and a replaced file is in the backup. */
  lemma AppliedIsInstalled(plan: ChangePlan, generated: string, s: Snap, t: Snap, euid: nat, egid: nat,
                           outcome: Outcome, leaked: bool)
    requires At(s.files, plan.target) != Some(Special)
    requires plan == Build(s.files, plan.target, generated)
    requires Contract(plan, s, t, euid, egid, outcome, leaked) && outcome.Applied?
    ensures
      var before, text := At(s.files, plan.target), if Open(generated) then generated + "\n" else generated;
      && Readable(t.files, plan.target) && SameText(t.files[plan.target].bytes, generated)
      && if before.Some? && SameText(before.value.bytes, generated) then t.files == s.files
         else if before.None? then t.files == s.files[plan.target := Regular(text, 0x1A4, euid, egid)]
         else
           && t.files[plan.target] == before.value.(bytes := text)
           && outcome.result.backup.Some? && At(t.files, outcome.result.backup.value) == before
  {
    PlanDecides(s.files, plan.target, generated);
  }

  /** A plan is current on the tree it was built from, so without a fault it is applied. */
  lemma FaultFreeApplySucceeds(plan: ChangePlan, generated: string, s: Snap, t: Snap, euid: nat, egid: nat,
                               outcome: Outcome, leaked: bool)
    requires At(s.files, plan.target) != Some(Special)
    requires plan.target.Named? ==> plan.target.name != "" && !EndsInSlash(plan.target.name)
    requires plan == Build(s.files, plan.target, generated)
    requires Contract(plan, s, t, euid, egid, outcome, leaked) && t.faults == s.faults
    ensures outcome.Applied?
    ensures Readable(t.files, plan.target) && SameText(t.files[plan.target].bytes, generated)
  {
    if plan.target.Named? { SlashIsLast(plan.target.name); }
    AppliedIsInstalled(plan, generated, s, t, euid, egid, outcome, leaked);
  }

  /** The read-back of a created target and its removal are refused, and nothing else. */
  ghost predicate RefusesReadAndUnlink(schedule: (nat, Kind, Path) -> bool, target: Path) {
    forall n: nat, kind: Kind, p: Path ::
      schedule(n, kind, p) <==> p == target && (kind == Reading || kind == Unlinking)
  }

  /** Every run of a create plan under such a schedule ends in an ordinary error and leaves the
      complete new file behind. */
  method ApplyAndLeave(disk: Disk, plan: ChangePlan) returns (outcome: Outcome, ghost leaked: bool)
    requires disk.Valid() && Past(plan.target, disk.clock) && RefusesReadAndUnlink(disk.schedule, plan.target)
    requires plan.kind == Create && plan.target !in disk.files && ValidTarget(plan.target)
    modifies disk
    ensures outcome == Aborted && leaked
    ensures At(disk.files, plan.target) == Some(Regular(plan.generated, CREATE_MODE, disk.euid, disk.egid))
  {
    ghost var s := disk.State();
    outcome, leaked := Apply(disk, plan);
    ghost var t := disk.State();
    assert forall k :: |s.log| <= k < |t.log| ==> t.log[k].fault == disk.schedule(k, t.log[k].kind, t.log[k].path);
    assert !Happened(s, t, Call(Reading, plan.target, false));
    assert !Happened(s, t, Call(Locking, plan.target, true)) && !Happened(s, t, Call(Inspecting, plan.target, true));
    assert !Happened(s, t, Call(Renaming, plan.target, true)) && !FaultElsewhere(s, t, plan.target);
    assert Happened(s, t, Call(Renaming, plan.target, false));
  }

  method LeakedRun() returns (disk: Disk, plan: ChangePlan, outcome: Outcome, ghost leaked: bool)
    ensures plan == Build(map[], Named("/boot/limine.conf"), "timeout: 5\n")
    ensures outcome == Aborted && leaked
    ensures At(disk.files, plan.target) == Some(Regular("timeout: 5\n", CREATE_MODE, 0, 0))
  {
    var target := Named("/boot/limine.conf");
    plan := Build(map[], target, "timeout: 5\n");
    disk := new Disk(map[], 0, 0, 0, (n, kind, p) => p == target && (kind == Reading || kind == Unlinking));
    outcome, leaked := ApplyAndLeave(disk, plan);
  }
}
