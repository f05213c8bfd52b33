/** `secure_file_ops.cpp`: copy, atomic restore and removal of regular files. */
module SecureFileOps {
  import opened Wrappers
  import opened Filesystem

  predicate Readable(files: Files, p: Path) {
    p in files && files[p].Regular?
  }

  /** `fchmod` and `fchown`, always both. */
  method SetModeThenOwner(disk: Disk, destination: Path, metadata: Node) returns (ok: bool)
    requires disk.Valid() && metadata.Regular? && Readable(disk.files, destination)
    modifies disk
    ensures disk.Valid() && disk.clock == old(disk.clock)
    ensures Evolves(old(disk.State()), disk.State(), {destination})
    ensures ok ==>
      disk.files == old(disk.files)[destination := metadata.(bytes := old(disk.files[destination].bytes))]
    ensures ok <==> disk.faults == old(disk.faults)
  {
    ghost var s := disk.State();
    ok := disk.Update(destination, disk.files[destination].(mode := metadata.mode));
    if !ok { return; }
    ghost var s1 := disk.State();
    ok := disk.Update(destination, disk.files[destination].(uid := metadata.uid, gid := metadata.gid));
    Chain(s, s1, disk.State(), {destination}, {destination}, {destination});
  }

  /** The fallible body of the copy: write, `fchmod`, `fchown`, `fsync`. */
  method FillCopy(disk: Disk, destination: Path, content: string, metadata: Node, ghost s: Snap) returns (ok: bool)
    requires disk.Valid() && metadata.Regular?
    requires destination in disk.files && disk.files[destination].Regular? && disk.files[destination].bytes == []
    requires Evolves(s, disk.State(), {destination})
    modifies disk
    ensures disk.Valid() && disk.clock == old(disk.clock)
    ensures Evolves(s, disk.State(), {destination})
    ensures ok ==>
      disk.files == old(disk.files)[destination := metadata.(bytes := content)] && destination !in disk.dirty
    ensures ok <==> disk.faults == old(disk.faults)
  {
    ghost var s0 := disk.State();
    ok := disk.WriteAll(destination, content);
    ghost var s1 := disk.State();
    Chain(s, s0, s1, {destination}, {destination}, {destination});
    if !ok { return; }
    assert disk.files[destination].bytes == content;
    ok := SetModeThenOwner(disk, destination, metadata);
    Chain(s, s1, disk.State(), {destination}, {destination}, {destination});
    if !ok { return; }
    assert disk.files == s0.files[destination := metadata.(bytes := content)];
    ghost var s2 := disk.State();
    ok := disk.FsyncFile(destination);
    Chain(s, s2, disk.State(), {destination}, {}, {destination});
  }

  /** `copy_file_secure`: a new file with the source's bytes and the given mode and owner.
      A failure after the creation unlinks the copy again, as far as the disk lets it. */
  method CopyFileSecure(disk: Disk, source: Path, destination: Path, metadata: Node) returns (ok: bool)
    requires disk.Valid() && source != destination && metadata.Regular? && Past(destination, disk.clock)
    modifies disk
    ensures disk.Valid() && disk.clock == old(disk.clock)
    ensures Evolves(old(disk.State()), disk.State(), {destination})
    ensures ok ==>
      && old(source in disk.files && disk.files[source].Regular? && destination !in disk.files)
      && disk.files == old(disk.files)[destination := metadata.(bytes := old(disk.files[source].bytes))]
      && disk.faults == old(disk.faults) && destination !in disk.dirty
    ensures !ok ==>
      disk.faults > old(disk.faults) || old(destination in disk.files || !Readable(disk.files, source))
    ensures !ok ==> LeavesOnly(old(disk.State()), disk.State(), {})
  {
    ghost var s := disk.State();
    var content := disk.ReadFile(source);   // opened first; its bytes cannot change meanwhile
    if content.None? { return false; }
    ghost var s0 := disk.State();
    Looked(s, s0);
    ok := disk.CreateExclusive(destination, metadata.mode);
    Chain(s, s0, disk.State(), {}, {destination}, {destination});
    if !ok { return; }

    ok := FillCopy(disk, destination, content.value, metadata, s);
    assert ok ==> disk.files == s.files[destination := metadata.(bytes := content.value)];
    if !ok {
      ghost var s1 := disk.State();
      var _ := disk.Unlink(destination);
      Chain(s, s1, disk.State(), {destination}, {destination}, {destination});
      LeavesTouched(s, disk.State(), {destination});
      assert destination in disk.files ==> disk.State().log[|s1.log|] == Call(Unlinking, destination, true);
    }
  }

  ghost predicate Restorable(files: Files, backup: Path, target: Path) {
    && Readable(files, backup)
    && At(files, target) != Some(Special)
  }

  /** A call that changes an entry, and then the synchronisation of its directory. */
  ghost function ChangeAndSync(kind: Kind, target: Path, changed: bool, ok: bool): seq<Call> {
    if changed then [Call(kind, target, false), Call(SyncingDirectory, target, !ok)] else [Call(kind, target, true)]
  }

  lemma ChangeLogged(s: Snap, t: Snap, kind: Kind, target: Path, changed: bool, ok: bool)
    requires t.log == s.log + ChangeAndSync(kind, target, changed, ok)
    ensures Concerns(s, t, target)
    ensures forall call: Call :: Happened(s, t, call) <==> call in ChangeAndSync(kind, target, changed, ok)
  {
    forall call: Call ensures Happened(s, t, call) <==> call in ChangeAndSync(kind, target, changed, ok) {
      HappenedAmong(s, t, ChangeAndSync(kind, target, changed, ok), call);
    }
  }

  /** `rename` and `fsync_directory`. The target changes exactly when the rename is not refused;
      the directory may fail to synchronise afterwards. */
  method RenameInto(disk: Disk, temporary: Path, target: Path) returns (ok: bool)
    requires disk.Valid() && temporary != target && Past(target, disk.clock)
    requires temporary in disk.files && temporary !in disk.dirty
    modifies disk
    ensures disk.Valid() && disk.clock == old(disk.clock)
    ensures Evolves(old(disk.State()), disk.State(), {temporary, target})
    ensures
      Shows(old(disk.State()), disk.State(), target, {old(At(disk.files, target)), Some(old(disk.files[temporary]))})
    ensures
      var renamed := temporary !in disk.files;
      && disk.log == old(disk.log) + ChangeAndSync(Renaming, target, renamed, ok)
      && disk.files ==
           (if renamed then old(disk.files)[target := old(disk.files[temporary])] - {temporary} else old(disk.files))
      && (ok ==> renamed && disk.State().Durable(target))
    ensures ok <==> disk.faults == old(disk.faults)
  {
    ghost var s, values := disk.State(), {At(disk.files, target), Some(disk.files[temporary])};
    ok := disk.Rename(temporary, target);
    ghost var s1 := disk.State();
    if !ok { return; }
    ok := disk.FsyncDirectoryOf(target);
    Chain(s, s1, disk.State(), {temporary, target}, {}, {temporary, target});
    ShowsChain(s, s1, disk.State(), target, values);
  }

  /** The first steps of a restore: a copy of the backup, renamed over the target. */
  method CopyOver(disk: Disk, backup: Path, target: Path, temporary: Path, metadata: Node) returns (ok: bool)
    requires disk.Valid() && metadata.Regular? && temporary != backup && temporary != target
    requires Past(target, disk.clock) && Past(temporary, disk.clock) && temporary !in disk.files
    requires Readable(disk.files, backup)
    modifies disk
    ensures disk.Valid() && disk.clock == old(disk.clock)
    ensures Evolves(old(disk.State()), disk.State(), {temporary, target})
    ensures
      var restored := Some(metadata.(bytes := old(disk.files[backup].bytes)));
      && Shows(old(disk.State()), disk.State(), target, {old(At(disk.files, target)), restored})
      && At(disk.files, target) in {old(At(disk.files, target)), restored}
      && (ok ==> At(disk.files, target) == restored && disk.State().Durable(target) && temporary !in disk.files)
    ensures ok <==> disk.faults == old(disk.faults)
  {
    ghost var values := {At(disk.files, target), Some(metadata.(bytes := disk.files[backup].bytes))};
    ghost var s := disk.State();
    ok := CopyFileSecure(disk, backup, temporary, metadata);
    ghost var s1 := disk.State();
    ShowsUntouched(s, s1, target, {temporary}, values);
    if ok {
      ok := RenameInto(disk, temporary, target);
      ShowsChain(s, s1, disk.State(), target, values);
      Chain(s, s1, disk.State(), {temporary}, {temporary, target}, {temporary, target});
    } else {
      Chain(s, s, s1, {}, {temporary}, {temporary, target});
    }
  }

  /** The steps shared by every restore: copy the backup beside the target, rename it over the
      target, `fsync` the directory, and unlink the copy when any of this fails. At every
      intermediate state the target is its old node or a full copy of the backup. */
  method ReplaceFromBackup(disk: Disk, backup: Path, target: Path, metadata: Node) returns (ok: bool)
    requires disk.Valid() && backup != target && metadata.Regular?
    requires Past(backup, disk.clock) && Past(target, disk.clock)
    requires backup in disk.files && disk.files[backup].Regular?
    modifies disk
    ensures disk.Valid()
    ensures
      var restored := Some(metadata.(bytes := old(disk.files[backup].bytes)));
      && Guarded(old(disk.State()), disk.State(), target, {old(At(disk.files, target)), restored})
      && (ok ==> At(disk.files, target) == restored && disk.State().Durable(target))
    ensures ok <==> disk.faults == old(disk.faults)
    ensures LeavesOnly(old(disk.State()), disk.State(), {target})
  {
    ghost var values := {At(disk.files, target), Some(metadata.(bytes := disk.files[backup].bytes))};
    ghost var s := disk.State();
    var temporary := disk.UniquePath(target, ".rollback");
    ghost var s0 := disk.State();
    ok := CopyOver(disk, backup, target, temporary, metadata);
    ghost var s2 := disk.State();
    GuardedChain(s, s0, s2, {temporary, target}, target, values);
    LeavesTouched(s0, s2, {temporary, target});
    if !ok {
      var _ := disk.Unlink(temporary);
      GuardedBeside(s, s2, disk.State(), {temporary}, target, values);
      LeavesTouched(s2, disk.State(), {temporary});
      assert temporary in disk.files ==> disk.State().log[|s2.log|] == Call(Unlinking, temporary, true);
      LeavesChain(s, s2, disk.State(), {temporary, target}, {temporary}, {target});
    }
  }

  /** The backup has to be a regular file, the target one as well, or missing. */
  method InspectBoth(disk: Disk, backup: Path, target: Path) returns (saved: Option<Node>)
    requires disk.Valid()
    modifies disk`faults, disk`calls, disk`log
    ensures disk.Valid() && Observed(old(disk.State()), disk.State())
    ensures saved.Some? ==>
      Restorable(disk.files, backup, target) && saved == At(disk.files, backup) && disk.faults == old(disk.faults)
    ensures saved.None? ==> disk.faults > old(disk.faults) || !Restorable(disk.files, backup, target)
  {
    var inspected, current;
    inspected, saved := disk.Lstat(backup);
    if !inspected || saved.None? || saved.value.Special? { return None; }
    inspected, current := disk.Lstat(target);
    if !inspected || current == Some(Special) { return None; }
  }

  /** `atomic_restore_file`: reproduces bytes, mode and owner of the backup at the target. */
  method AtomicRestoreFile(disk: Disk, backup: Path, target: Path) returns (ok: bool)
    requires disk.Valid() && backup != target
    requires Past(backup, disk.clock) && Past(target, disk.clock)
    modifies disk
    ensures disk.Valid()
    ensures Guarded(old(disk.State()), disk.State(), target, {old(At(disk.files, target)), old(At(disk.files, backup))})
    ensures ok ==>
      && old(Restorable(disk.files, backup, target)) && At(disk.files, target) == old(At(disk.files, backup))
      && disk.State().Durable(target)
    ensures !old(Restorable(disk.files, backup, target)) ==> disk.files == old(disk.files)
    ensures ok ==> disk.faults == old(disk.faults)
    ensures !ok ==> disk.faults > old(disk.faults) || !old(Restorable(disk.files, backup, target))
    ensures LeavesOnly(old(disk.State()), disk.State(), {target})
  {
    ghost var s := disk.State();
    var saved := InspectBoth(disk, backup, target);
    ghost var t := disk.State();
    if saved.None? {
      Looked(s, t);
      Chain(s, s, t, {}, {}, {target});
      return false;
    }
    assert saved.value.(bytes := disk.files[backup].bytes) == saved.value;
    ok := ReplaceFromBackup(disk, backup, target, saved.value);
    GuardedFrom(s, t, disk.State(), target, {At(s.files, target), saved});
    LeavesChain(s, t, disk.State(), {}, {target}, {target});
  }

  /** What the log says about a removal: the file is gone exactly when its `unlink` was made and
      not refused, and a failure is due to one of the three calls. */
  ghost predicate RemovalLog(s: Snap, t: Snap, target: Path, ok: bool) {
    var unlinked := Happened(s, t, Call(Unlinking, target, false));
    && Concerns(s, t, target)
    && (Happened(s, t, Call(SyncingDirectory, target, true)) ==> !ok && unlinked)
    && (unlinked ==> !Happened(s, t, Call(Inspecting, target, true)) && !Happened(s, t, Call(Unlinking, target, true)))
    && (Readable(s.files, target) ==>
          && (target !in t.files <==> unlinked)
          && (ok <==> unlinked && Happened(s, t, Call(SyncingDirectory, target, false)))
          && (!ok ==>
                || Happened(s, t, Call(Inspecting, target, true)) || Happened(s, t, Call(Unlinking, target, true))
                || Happened(s, t, Call(SyncingDirectory, target, true))))
    && (!Readable(s.files, target) ==> !unlinked && !Happened(s, t, Call(Unlinking, target, true)))
  }

  /** `unlink` and `fsync_directory`. */
  method UnlinkAndSync(disk: Disk, target: Path) returns (ok: bool)
    requires disk.Valid() && target in disk.files
    modifies disk
    ensures disk.Valid() && disk.clock == old(disk.clock)
    ensures Evolves(old(disk.State()), disk.State(), {target})
    ensures Shows(old(disk.State()), disk.State(), target, {old(At(disk.files, target)), None})
    ensures
      var unlinked := target !in disk.files;
      && disk.log == old(disk.log) + ChangeAndSync(Unlinking, target, unlinked, ok)
      && disk.files == (if unlinked then old(disk.files) - {target} else old(disk.files))
      && (ok ==> unlinked && target !in disk.names)
    ensures ok <==> disk.faults == old(disk.faults)
  {
    ghost var s := disk.State();
    ok := disk.Unlink(target);
    ghost var s1 := disk.State();
    if !ok { return; }
    ok := disk.FsyncDirectoryOf(target);
    Chain(s, s1, disk.State(), {target}, {}, {target});
    ShowsChain(s, s1, disk.State(), target, {At(s.files, target), None});
  }

  lemma RemovalLogged(s: Snap, t: Snap, u: Snap, target: Path, ok: bool)
    requires t.files == s.files && t.log == s.log + [Call(Inspecting, target, false)] && Readable(s.files, target)
    requires u.log == t.log + ChangeAndSync(Unlinking, target, target !in u.files, ok) && (ok ==> target !in u.files)
    ensures RemovalLog(s, u, target, ok)
  {
    ChangeLogged(t, u, Unlinking, target, target !in u.files, ok);
    HappenedChain(s, t, u, Call(Inspecting, target, true));
    HappenedChain(s, t, u, Call(Unlinking, target, false));
    HappenedChain(s, t, u, Call(Unlinking, target, true));
    HappenedChain(s, t, u, Call(SyncingDirectory, target, false));
    HappenedChain(s, t, u, Call(SyncingDirectory, target, true));
  }

  /** `remove_regular_file_secure`: a missing file counts as removed. */
  method RemoveRegularFileSecure(disk: Disk, target: Path) returns (ok: bool)
    requires disk.Valid()
    modifies disk
    ensures disk.Valid() && disk.clock == old(disk.clock)
    ensures Evolves(old(disk.State()), disk.State(), {target})
    ensures Shows(old(disk.State()), disk.State(), target, {old(At(disk.files, target)), None})
    ensures At(disk.files, target) in {old(At(disk.files, target)), None}
    ensures ok ==> target !in disk.files && disk.faults == old(disk.faults)
    ensures ok && old(target in disk.files) ==> target !in disk.names
    ensures !ok ==> disk.faults > old(disk.faults) || old(At(disk.files, target)) == Some(Special)
    ensures RemovalLog(old(disk.State()), disk.State(), target, ok)
  {
    ok := false;
    ghost var s0 := disk.State();
    var inspected, node := disk.Lstat(target);
    ghost var s := disk.State();
    assert s.log[|s0.log|] == Call(Inspecting, target, !inspected);
    if !inspected { return; }
    if node.None? { return true; }
    if node.value.Special? { return; }
    ok := UnlinkAndSync(disk, target);
    RemovalLogged(s0, s, disk.State(), target, ok);
  }
}
