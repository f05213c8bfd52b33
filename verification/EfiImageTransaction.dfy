/** `efi_image_transaction.cpp`: a backup of the EFI image, kept until commit or rollback. */
module EfiImageTransaction {
  import opened Wrappers
  import opened Filesystem
  import opened SecureFileOps

  /** The copy of the image, synchronised with its directory, or unlinked again as far as the disk
      lets it. */
  method CopyImage(disk: Disk, image: Path, backup: Path, node: Node) returns (ok: bool)
    requires disk.Valid() && image != backup && Past(backup, disk.clock)
    requires At(disk.files, image) == Some(node) && node.Regular? && backup !in disk.files
    modifies disk
    ensures disk.Valid() && disk.clock == old(disk.clock)
    ensures Evolves(old(disk.State()), disk.State(), {backup})
    ensures ok ==> disk.files == old(disk.files)[backup := node] && disk.State().Durable(backup)
    ensures ok <==> disk.faults == old(disk.faults)
    ensures LeavesOnly(old(disk.State()), disk.State(), if ok then {backup} else {})
  {
    ghost var s := disk.State();
    ok := CopyFileSecure(disk, image, backup, node);
    assert node.(bytes := node.bytes) == node;
    ghost var s1 := disk.State();
    if ok {
      ok := disk.FsyncDirectoryOf(backup);
      Chain(s, s1, disk.State(), {backup}, {}, {backup});
    }
    if !ok {
      ghost var s2 := disk.State();
      var _ := disk.Unlink(backup);
      Chain(s, s2, disk.State(), {backup}, {backup}, {backup});
      assert backup in disk.files ==> disk.State().log[|s2.log|] == Call(Unlinking, backup, true);
    }
    LeavesTouched(s, disk.State(), {backup});
  }

  class EfiTransaction {
    const disk: Disk
    const image: Path
    const backup: Path
    var active: bool

    ghost const original: Node   // the image when the transaction began
    ghost var spent: bool        // a failed commit got past its unlink: there is no backup any more

    /** Until a commit reaches its unlink, the original image survives in the backup or restored. */
    ghost predicate Valid()
      reads this, disk
    {
      && disk.Valid()
      && image != backup && Past(image, disk.clock) && Past(backup, disk.clock)
      && original.Regular?
      && (active && !spent ==>
            || At(disk.files, backup) == Some(original)
            || (backup !in disk.files && At(disk.files, image) == Some(original)))
      && (spent ==> backup !in disk.files)
    }

    /** The copy made by the constructor; the transaction object exists only if it succeeds. */
    static method Begin(disk: Disk, image: Path) returns (transaction: EfiTransaction?)
      requires disk.Valid() && Past(image, disk.clock)
      modifies disk
      ensures disk.Valid() && Evolves(old(disk.State()), disk.State(), {})
      ensures transaction == null ==>
        && (disk.faults > old(disk.faults) || !old(Readable(disk.files, image)))
        && LeavesOnly(old(disk.State()), disk.State(), {})
      ensures transaction != null ==>
        && fresh(transaction) && transaction.Valid() && transaction.active && !transaction.spent
        && transaction.disk == disk && transaction.image == image && !Past(transaction.backup, old(disk.clock))
        && transaction.backup.Generated? && transaction.backup.of == image
        && At(disk.files, transaction.backup) == Some(transaction.original) == old(At(disk.files, image))
        && disk.State().Durable(transaction.backup) && disk.faults == old(disk.faults)
        && disk.files.Keys == old(disk.files.Keys) + {transaction.backup}
    {
      transaction := null;
      ghost var s := disk.State();
      var backup := disk.UniquePath(image, ".efi.bak");
      var inspected, node := disk.Lstat(image);
      ghost var s1 := disk.State();
      Looked(s.(clock := disk.clock), s1);
      if !inspected || node.None? || node.value.Special? { return; }
      var ok := CopyImage(disk, image, backup, node.value);
      Chain(s, s1, disk.State(), {}, {backup}, {});
      LeavesChain(s, s1, disk.State(), {}, if ok then {backup} else {}, if ok then {backup} else {});
      if !ok { return; }
      transaction := new EfiTransaction(disk, image, backup, node.value);
    }

    constructor (disk: Disk, image: Path, backup: Path, ghost original: Node)
      requires disk.Valid() && image != backup && Past(image, disk.clock) && Past(backup, disk.clock)
      requires original.Regular? && At(disk.files, backup) == Some(original)
      ensures Valid() && active && !spent
      ensures this.disk == disk && this.image == image && this.backup == backup && this.original == original
    {
      this.disk, this.image, this.backup, this.original := disk, image, backup, original;
      active, spent := true, false;
    }

    /** `commit`: drops the backup. It may unlink it and still fail in the directory `fsync`. */
    method Commit() returns (ok: bool)
      requires Valid()
      modifies this, disk
      ensures Valid() && ok == !active && disk.clock == old(disk.clock)
      ensures Evolves(old(disk.State()), disk.State(), {backup})
      ensures old(!active) ==> unchanged(disk) && unchanged(this)
      ensures ok && old(active) ==> backup !in disk.files
      ensures old(spent) ==> spent
      ensures old(active && !spent) ==>
        (spent <==>
          && Happened(old(disk.State()), disk.State(), Call(Unlinking, backup, false))
          && Happened(old(disk.State()), disk.State(), Call(SyncingDirectory, backup, true)))
      ensures spent ==> old(spent) || (old(active) && !ok)
      ensures old(active && !spent && Readable(disk.files, backup)) ==>
        RemovalLog(old(disk.State()), disk.State(), backup, ok)
      ensures ok ==> disk.faults == old(disk.faults)
      ensures !ok && !spent ==> At(disk.files, backup) == old(At(disk.files, backup))
      ensures !ok ==> disk.faults > old(disk.faults)
    {
      if !active { return true; }
      ghost var held := backup in disk.files;
      ok := RemoveRegularFileSecure(disk, backup);
      if ok {
        active := false;
      } else {
        spent := spent || (held && backup !in disk.files);
      }
    }

    /** `rollback`: restores the image, then drops the backup; it stays active until both worked. */
    method Rollback() returns (ok: bool)
      requires Valid()
      modifies this, disk
      ensures Valid() && ok == !active && spent == old(spent)
      ensures Evolves(old(disk.State()), disk.State(), {image, backup})
      ensures old(!active) ==> unchanged(disk) && unchanged(this)
      ensures ok && old(active) ==>
        && At(disk.files, image) == old(At(disk.files, backup)) && Readable(disk.files, image)
        && backup !in disk.files
      ensures ok ==> disk.faults == old(disk.faults)
      ensures !ok ==> disk.faults > old(disk.faults) || !old(Restorable(disk.files, backup, image))
      ensures old(backup !in disk.files) ==> disk.files == old(disk.files)
      ensures !ok ==>
        || (At(disk.files, image) in {old(At(disk.files, image)), old(At(disk.files, backup))}
              && At(disk.files, backup) == old(At(disk.files, backup)))
        || (At(disk.files, image) == old(At(disk.files, backup)) && backup !in disk.files)
    {
      if !active { return true; }
      ghost var s := disk.State();
      ok := AtomicRestoreFile(disk, backup, image);
      Chain(s, s, disk.State(), {}, {image}, {image, backup});
      assert At(disk.files, backup) == At(s.files, backup);
      if !ok { return; }
      ghost var s1 := disk.State();
      ok := RemoveRegularFileSecure(disk, backup);
      Chain(s, s1, disk.State(), {image, backup}, {backup}, {image, backup});
      assert At(disk.files, image) == At(s1.files, image);
      if ok { active := false; }
    }
  }

  /** From the call numbered `from` on, only the synchronisation of one directory is refused. */
  ghost predicate RefusesOnlySync(schedule: (nat, Kind, Path) -> bool, backup: Path, from: nat) {
    forall n: nat, kind: Kind, p: Path :: n >= from ==>
      (schedule(n, kind, p) <==> p == backup && kind == SyncingDirectory)
  }

  /** Every commit under such a schedule drops the backup and fails; the image stays as it is, and
      no rollback can restore it any more. */
  method CommitAndSpend(transaction: EfiTransaction) returns (ok: bool)
    requires transaction.Valid() && transaction.active && !transaction.spent
    requires transaction.backup in transaction.disk.files
    requires RefusesOnlySync(transaction.disk.schedule, transaction.backup, transaction.disk.calls)
    modifies transaction, transaction.disk
    ensures transaction.Valid() && !ok && transaction.active && transaction.spent
    ensures transaction.backup !in transaction.disk.files
    ensures At(transaction.disk.files, transaction.image) == old(At(transaction.disk.files, transaction.image))
  {
    ghost var s := transaction.disk.State();
    ok := transaction.Commit();
    ghost var t := transaction.disk.State();
    var disk, backup := transaction.disk, transaction.backup;
    assert forall k :: |s.log| <= k < |t.log| ==> t.log[k].fault == disk.schedule(k, t.log[k].kind, t.log[k].path);
    assert !Happened(s, t, Call(SyncingDirectory, backup, false));
    assert !Happened(s, t, Call(Inspecting, backup, true)) && !Happened(s, t, Call(Unlinking, backup, true));
  }

  /** An image already rewritten, its backup dropped by a commit that failed: the old bytes are gone. */
  method SpentRun() returns (transaction: EfiTransaction, committed: bool, restored: bool)
    ensures transaction.image == Named("/boot/limine_x64.efi") && transaction.original == Regular("old", 0, 0, 0)
    ensures !committed && !restored && transaction.active && transaction.spent
    ensures At(transaction.disk.files, transaction.image) == Some(Regular("new", 0, 0, 0))
    ensures transaction.backup !in transaction.disk.files
  {
    var image := Named("/boot/limine_x64.efi");
    var backup := Generated(image, ".efi.bak", 0);
    var tree := map[image := Regular("new", 0, 0, 0), backup := Regular("old", 0, 0, 0)];
    var disk := new Disk(tree, 1, 0, 0, (n, kind, p) => p == backup && kind == SyncingDirectory);
    transaction := new EfiTransaction(disk, image, backup, Regular("old", 0, 0, 0));
    committed := CommitAndSpend(transaction);
    restored := transaction.Rollback();
  }
}
