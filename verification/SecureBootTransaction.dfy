/** `secure_boot_transaction.cpp`: configuration and EFI image as one unit with two halves that
    are rolled back, and retried, independently. */
module SecureBootTransaction {
  import opened Wrappers
  import opened Filesystem
  import opened SecureFileOps
  import opened ApplyService
  import opened EfiImageTransaction

  /** What an undone apply leaves at its target. */
  function Undone(files: Files, result: ApplyResult): Option<Node> {
    if result.backup.Some? then At(files, result.backup.value) else None
  }

  ghost predicate Undoable(files: Files, result: ApplyResult) {
    if result.backup.Some? then Restorable(files, result.backup.value, result.target)
    else At(files, result.target) != Some(Special)
  }

  /** The files of `rollback_config`: the backup is restored, or a created file removed. */
  method UndoApply(disk: Disk, result: ApplyResult) returns (ok: bool)
    requires disk.Valid() && Past(result.target, disk.clock)
    requires result.backup.Some? ==> result.backup.value != result.target && Past(result.backup.value, disk.clock)
    modifies disk
    ensures disk.Valid() && Evolves(old(disk.State()), disk.State(), {result.target})
    ensures
      var before, undone := old(At(disk.files, result.target)), old(Undone(disk.files, result));
      && Shows(old(disk.State()), disk.State(), result.target, {before, undone})
      && At(disk.files, result.target) in {before, undone}
      && (ok ==> At(disk.files, result.target) == undone)
    ensures ok && result.backup.None? ==>
      !Happened(old(disk.State()), disk.State(), Call(Unlinking, result.target, true))
    ensures ok ==> disk.faults == old(disk.faults)
    ensures !ok ==> disk.faults > old(disk.faults) || !old(Undoable(disk.files, result))
  {
    if result.backup.Some? {
      ok := AtomicRestoreFile(disk, result.backup.value, result.target);
    } else {
      ok := RemoveRegularFileSecure(disk, result.target);
    }
  }

  class Transaction {
    const efi: EfiTransaction
    var applyResult: Option<ApplyResult>
    var configPending: bool
    var efiPending: bool
    var committed: bool

    constructor (efi: EfiTransaction)
      requires efi.Valid() && efi.active
      ensures Valid() && this.efi == efi
      ensures applyResult == None && !configPending && efiPending && !committed
    {
      this.efi := efi;
      applyResult, configPending, efiPending, committed := None, false, true, false;
    }

    /** The flags agree with each other and with the EFI half, whatever result was recorded. */
    ghost predicate Consistent()
      reads this, efi, efi.disk
    {
      && efi.Valid()
      && efiPending == efi.active
      && (committed ==> !configPending && !efiPending)
      && (configPending ==> applyResult.Some? && applyResult.value.changed)
    }

    ghost predicate Valid()
      reads this, efi, efi.disk
    {
      Consistent() && (configPending ==> Separate(applyResult.value))
    }

    /** The recorded files are apart from each other and from the files of the EFI half. */
    ghost predicate Separate(result: ApplyResult)
      reads this, efi, efi.disk
    {
      && result.target !in {efi.image, efi.backup} && Past(result.target, efi.disk.clock)
      && (result.backup.Some? ==>
            && result.backup.value !in {result.target, efi.image, efi.backup}
            && Past(result.backup.value, efi.disk.clock))
    }

    predicate RollbackPending()
      reads this
    {
      configPending || efiPending
    }

    /** What a completed configuration rollback leaves at the target. */
    ghost function ConfigToRestore(): Option<Node>
      reads this, efi, efi.disk
      requires configPending && applyResult.Some?
    {
      Undone(efi.disk.files, applyResult.value)
    }

    ghost predicate ConfigRestorable()
      reads this, efi, efi.disk
      requires configPending ==> applyResult.Some?
    {
      configPending ==> Undoable(efi.disk.files, applyResult.value)
    }

    /** The past paths a rollback may change: those of its pending halves. */
    ghost function Pending(): set<Path>
      reads this, efi
      requires configPending ==> applyResult.Some?
    {
      (if configPending then {applyResult.value.target} else {})
      + (if efiPending then {efi.image, efi.backup} else {})
    }

    /** `record_apply`: refused on an inactive transaction and for a second result. */
    method RecordApply(result: ApplyResult) returns (ok: bool)
      requires Consistent()
      modifies this
      ensures Consistent() && (old(Valid()) && old(Separate(result)) ==> Valid())
      ensures ok <==> old(!committed && efiPending && applyResult.None?)
      ensures efiPending == old(efiPending) && committed == old(committed)
      ensures ok ==> applyResult == Some(result) && configPending == result.changed
      ensures !ok ==> unchanged(this)
    {
      if committed || !efiPending || applyResult.Some? { return false; }
      configPending := result.changed;
      applyResult := Some(result);
      ok := true;
    }

    /** `commit`. It refuses a transaction already rolled back, and leaves both halves pending
        when the EFI half cannot commit. */
    method Commit() returns (ok: bool)
      requires Consistent()
      modifies this, efi, efi.disk
      ensures Consistent() && (old(Valid()) ==> Valid()) && applyResult == old(applyResult)
      ensures Evolves(old(efi.disk.State()), efi.disk.State(), {efi.backup})
      ensures old(committed) ==> ok && unchanged(this) && unchanged(efi) && unchanged(efi.disk)
      ensures !old(committed) && !old(RollbackPending()) ==>
        !ok && unchanged(this) && unchanged(efi) && unchanged(efi.disk)
      ensures (ok <==> committed) && efi.disk.clock == old(efi.disk.clock)
      ensures !ok ==> configPending == old(configPending) && efiPending == old(efiPending)
      ensures ok && old(efiPending) ==> efi.backup !in efi.disk.files
      ensures ok ==> efi.disk.faults == old(efi.disk.faults)
      ensures !ok ==> efi.disk.faults > old(efi.disk.faults) || !old(RollbackPending())
      ensures old(efi.spent) ==> efi.spent
      ensures efi.spent ==> old(efi.spent) || (old(efiPending) && !ok)
      ensures !ok && !efi.spent ==> At(efi.disk.files, efi.backup) == old(At(efi.disk.files, efi.backup))
    {
      if committed { return true; }
      if !RollbackPending() { return false; }
      ok := efi.Commit();
      if ok {
        efiPending, configPending, committed := false, false, true;
      }
    }

    /** `rollback_config`: back to the backup, or away with a newly created file. The branch
        that reports an inconsistent state cannot be reached. */
    method RollbackConfig() returns (ok: bool)
      requires Valid()
      modifies this`configPending, efi.disk
      ensures Valid() && ok == !configPending
      ensures configPending ==> old(configPending)
      ensures old(!configPending) ==> unchanged(efi.disk)
      ensures Evolves(old(efi.disk.State()), efi.disk.State(), old(Pending()) - {efi.image, efi.backup})
      ensures old(configPending) ==>
        var target, before := applyResult.value.target, old(At(efi.disk.files, applyResult.value.target));
        && Shows(old(efi.disk.State()), efi.disk.State(), target, {before, old(ConfigToRestore())})
        && At(efi.disk.files, target) in {before, old(ConfigToRestore())}
        && (ok ==> At(efi.disk.files, target) == old(ConfigToRestore()))
        && (ok && applyResult.value.backup.None? ==>
              !Happened(old(efi.disk.State()), efi.disk.State(), Call(Unlinking, target, true)))
      ensures ok ==> efi.disk.faults == old(efi.disk.faults)
      ensures !ok ==> efi.disk.faults > old(efi.disk.faults) || !old(ConfigRestorable())
    {
      if !configPending { return true; }
      if applyResult.None? || !applyResult.value.changed {
        assert false;
      }
      assert Pending() - {efi.image, efi.backup} == {applyResult.value.target};
      ok := UndoApply(efi.disk, applyResult.value);
      if ok { configPending := false; }
    }

    /** `rollback`: both pending halves are attempted, whatever happens to the other one; a half
        is cleared only once it is restored, and a cleared half is never touched again. */
    method Rollback() returns (ok: bool)
      requires Valid()
      modifies this, efi, efi.disk
      ensures Valid()
      ensures applyResult == old(applyResult) && committed == old(committed) && efi.spent == old(efi.spent)
      ensures ok == !RollbackPending()
      ensures configPending ==> old(configPending)
      ensures efiPending ==> old(efiPending)
      ensures Evolves(old(efi.disk.State()), efi.disk.State(), old(Pending()))
      ensures !old(RollbackPending()) ==> unchanged(this) && unchanged(efi) && unchanged(efi.disk)
      ensures old(configPending) ==>
        var target, before := applyResult.value.target, old(At(efi.disk.files, applyResult.value.target));
        && Shows(old(efi.disk.State()), efi.disk.State(), target, {before, old(ConfigToRestore())})
        && At(efi.disk.files, target) in {before, old(ConfigToRestore())}
        && (!configPending ==> At(efi.disk.files, target) == old(ConfigToRestore()))
        && (!configPending && applyResult.value.backup.None? ==>
              !Happened(old(efi.disk.State()), efi.disk.State(), Call(Unlinking, target, true)))
        && (applyResult.value.backup.Some? ==>
              At(efi.disk.files, applyResult.value.backup.value) == old(ConfigToRestore()))
      ensures old(efiPending) ==>
        var before, saved := old(At(efi.disk.files, efi.image)), old(At(efi.disk.files, efi.backup));
        && (!efiPending ==> At(efi.disk.files, efi.image) == saved && Readable(efi.disk.files, efi.image))
        && (saved == None ==> At(efi.disk.files, efi.image) == before && At(efi.disk.files, efi.backup) == None)
        && (efiPending ==>
              || (At(efi.disk.files, efi.image) in {before, saved} && At(efi.disk.files, efi.backup) == saved)
              || (At(efi.disk.files, efi.image) == saved && efi.backup !in efi.disk.files))
      ensures ok ==> efi.disk.faults == old(efi.disk.faults)
      ensures   // each half is tried whether the other works or not
        efi.disk.faults <= old(efi.disk.faults) + 1 && configPending && efiPending ==>
        old(!ConfigRestorable() || !Restorable(efi.disk.files, efi.backup, efi.image))
      ensures configPending ==> efi.disk.faults > old(efi.disk.faults) || !old(ConfigRestorable())
      ensures efiPending ==>
        efi.disk.faults > old(efi.disk.faults) || !old(Restorable(efi.disk.files, efi.backup, efi.image))
      ensures !ok ==>
        || efi.disk.faults > old(efi.disk.faults)
        || old(configPending && !ConfigRestorable())
        || old(efiPending && !Restorable(efi.disk.files, efi.backup, efi.image))
    {
      if committed || !RollbackPending() { return true; }
      ghost var s, touched := efi.disk.State(), Pending();
      var _ := RollbackConfig();
      ghost var s1 := efi.disk.State();
      assert Past(efi.image, s.clock) && Past(efi.backup, s.clock);
      assert At(s1.files, efi.image) == At(s.files, efi.image);
      assert At(s1.files, efi.backup) == At(s.files, efi.backup);
      if efiPending {
        var restored := efi.Rollback();
        if restored { efiPending := false; }
        Chain(s, s1, efi.disk.State(), touched - {efi.image, efi.backup}, {efi.image, efi.backup}, touched);
      } else {
        Chain(s, s, s1, {}, touched - {efi.image, efi.backup}, touched);
      }
      if old(configPending) {
        ghost var target := applyResult.value.target;
        ghost var values := {At(s.files, target), old(ConfigToRestore())};
        if old(efiPending) {
          ShowsUntouched(s1, efi.disk.State(), target, {efi.image, efi.backup}, values);
          RefusedBefore(s, s1, efi.disk.State(), {efi.image, efi.backup}, target);
        }
        ShowsChain(s, s1, efi.disk.State(), target, values);
      }
      ok := !RollbackPending();
    }
  }

  datatype Operation = RecordCall(result: ApplyResult) | CommitCall | RollbackCall

  /** Any sequence of calls on a transaction, any of them failing: the flags stay consistent, a
      cleared half is never redone, a committed transaction is inert, and until a commit gets past
      its unlink the original EFI image survives in the backup or in the restored image. */
  method Drive(t: Transaction, calls: seq<Operation>)
    requires t.Valid()
    requires forall c :: c in calls && c.RecordCall? ==> t.Separate(c.result)
    modifies t, t.efi, t.efi.disk
    ensures t.Valid()
    ensures old(t.committed) ==>
      t.committed && unchanged(t.efi) && unchanged(t.efi.disk) && unchanged(t)
    ensures t.efiPending ==> old(t.efiPending)
    ensures !old(t.efiPending) ==> At(t.efi.disk.files, t.efi.image) == old(At(t.efi.disk.files, t.efi.image))
    ensures !old(t.configPending) && (!old(t.efiPending) || forall c :: c in calls ==> !c.RecordCall?) ==>
      Evolves(old(t.efi.disk.State()), t.efi.disk.State(), {t.efi.image, t.efi.backup}) && !t.configPending
    ensures old(t.efiPending) && !t.efi.spent && !t.committed ==>
      Some(t.efi.original) in {At(t.efi.disk.files, t.efi.backup), At(t.efi.disk.files, t.efi.image)}
    ensures CommitCall !in calls ==> t.efi.spent == old(t.efi.spent) && t.committed == old(t.committed)
  {
    ghost var s, pending, files := t.efi.disk.State(), t.efiPending, {t.efi.image, t.efi.backup};
    ghost var apart := !t.configPending && (!t.efiPending || forall c :: c in calls ==> !c.RecordCall?);
    for i := 0 to |calls|
      invariant t.Valid()
      invariant s.clock <= t.efi.disk.clock
      invariant old(t.committed) ==> t.committed && unchanged(t.efi) && unchanged(t.efi.disk) && unchanged(t)
      invariant t.efiPending ==> pending
      invariant !pending ==> At(t.efi.disk.files, t.efi.image) == At(s.files, t.efi.image)
      invariant apart ==> Evolves(s, t.efi.disk.State(), {t.efi.image, t.efi.backup}) && !t.configPending
      invariant pending && !t.efi.spent && !t.committed && !t.efiPending ==>
        At(t.efi.disk.files, t.efi.image) == Some(t.efi.original)
      invariant CommitCall !in calls ==> t.efi.spent == old(t.efi.spent) && t.committed == old(t.committed)
    {
      ghost var before := t.efi.disk.State();
      ghost var wasPending := t.Pending();
      match calls[i] {
        case RecordCall(result) =>
          assert calls[i] in calls;
          var _ := t.RecordApply(result);
        case CommitCall =>
          assert calls[i] in calls;
          var _ := t.Commit();
          if apart { Chain(s, before, t.efi.disk.State(), files, {t.efi.backup}, files); }
        case RollbackCall =>
          var _ := t.Rollback();
          if apart { Chain(s, before, t.efi.disk.State(), files, wasPending, files); }
      }
    }
  }
}
