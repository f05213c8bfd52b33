/** What a power failure leaves of the configuration: the point of the `fsync` calls in
    `apply_service.cpp` and `secure_file_ops.cpp`. */
module PowerFailure {
  import opened Wrappers
  import opened Filesystem
  import opened ChangePlanner
  import opened ApplyService
  import opened SecureBootTools
  import opened SecureBootApplyService

  /** `after` is a tree the medium may hold after a power failure at the `k`-th moment of a stretch. */
  ghost predicate Interrupted(s: Snap, t: Snap, k: nat, after: Files) {
    |s.trace| <= k < |t.trace| && Recovered(t.trace[k], after)
  }

  /** At any moment of a stretch that shows only `values`, a path that was synchronised recovers to
      its old value or to one of them. */
  lemma RecoversToShown(s: Snap, t: Snap, p: Path, values: set<Option<Node>>, k: nat, after: Files)
    requires Shows(s, t, p, values) && s.Durable(p) && Interrupted(s, t, k, after)
    ensures At(after, p) == At(s.files, p) || At(after, p) in values
  {
    assert Recovers(t.trace[k], s.Now(), p, values);
    assert MayRecover(t.trace[k], p, At(after, p));
  }

  /** Whatever fails, a power failure at any moment of an apply leaves the target as it was or
      completely written, and never torn. */
  lemma TargetIsOldOrComplete(plan: ChangePlan, s: Snap, t: Snap, euid: nat, egid: nat, outcome: Outcome, leaked: bool,
                              k: nat, after: Files)
    requires Contract(plan, s, t, euid, egid, outcome, leaked)
    requires s.Durable(plan.target) && Interrupted(s, t, k, after)
    ensures At(after, plan.target) in
      {At(s.files, plan.target), Some(Installed(plan, At(s.files, plan.target), euid, egid))}
  {
    var before := At(s.files, plan.target);
    RecoversToShown(s, t, plan.target, {before, Some(Installed(plan, before, euid, egid))}, k, after);
  }

  /** The same holds while the configuration and the EFI image change together. */
  lemma ProtectedTargetIsOldOrComplete(tools: Toolchain, plan: ChangePlan, efi: Path, s: Snap, t: Snap,
                                       euid: nat, egid: nat, outcome: ProtectedOutcome, leaked: bool, k: nat,
                                       after: Files)
    requires ProtectedContract(tools, plan, efi, s, t, euid, egid, outcome, leaked)
    requires s.Durable(plan.target) && Interrupted(s, t, k, after)
    ensures At(after, plan.target) in
      {At(s.files, plan.target), Some(Installed(plan, At(s.files, plan.target), euid, egid))}
  {
    var before := At(s.files, plan.target);
    RecoversToShown(s, t, plan.target, {before, Some(Installed(plan, before, euid, egid))}, k, after);
  }

  /** And the old configuration is always on the medium: at the target, or in a backup whose content
      and name were synchronised before the target was replaced. */
  lemma OldFileSurvives(plan: ChangePlan, s: Snap, t: Snap, euid: nat, egid: nat, outcome: Outcome, leaked: bool,
                        k: nat, after: Files)
    requires Contract(plan, s, t, euid, egid, outcome, leaked)
    requires s.Durable(plan.target) && Past(plan.target, s.clock) && Interrupted(s, t, k, after)
    requires At(s.files, plan.target).Some?
    ensures
      var before := At(s.files, plan.target);
      || At(after, plan.target) == before
      || exists backup: Path :: backup.Generated? && backup.of == plan.target && At(after, backup) == before
  {
    var m := t.trace[k];
    assert InsuredAt(s, m, plan.target);
    if Agree(m, s.Now(), s.clock, {}) {
      assert At(m.files, plan.target) == At(s.Now().files, plan.target);
      assert MayRecover(m, plan.target, At(after, plan.target));
    } else {
      var backup: Path :| SafeCopy(m, plan.target, backup, s.clock) && At(m.files, backup) == At(s.files, plan.target);
      assert MayRecover(m, backup, At(after, backup));
    }
  }

  /** Once an apply has reported success, no power failure takes it back, nor its backup. */
  lemma SuccessIsPermanent(plan: ChangePlan, s: Snap, t: Snap, euid: nat, egid: nat, result: ApplyResult, after: Files)
    requires Contract(plan, s, t, euid, egid, Applied(result), false) && result.changed && Recovered(t.Now(), after)
    ensures At(after, plan.target) == Some(Installed(plan, At(s.files, plan.target), euid, egid))
    ensures result.backup.Some? ==> At(after, result.backup.value) == At(s.files, plan.target)
  {
    assert MayRecover(t.Now(), plan.target, At(after, plan.target));
    if result.backup.Some? { assert MayRecover(t.Now(), result.backup.value, At(after, result.backup.value)); }
  }

  /** Planning again with the same text after the failure finds the work done, or the very plan
      that was interrupted. */
  lemma RerunContinues(plan: ChangePlan, generated: string, s: Snap, t: Snap, euid: nat, egid: nat, outcome: Outcome,
                       leaked: bool, k: nat, after: Files)
    requires At(s.files, plan.target) != Some(Special) && plan == Build(s.files, plan.target, generated)
    requires Contract(plan, s, t, euid, egid, outcome, leaked)
    requires s.Durable(plan.target) && Interrupted(s, t, k, after)
    ensures At(after, plan.target) != Some(Special)
    ensures
      var again := Build(after, plan.target, generated);
      if At(after, plan.target) == At(s.files, plan.target) then again == plan else again.kind == Unchanged
  {
    TargetIsOldOrComplete(plan, s, t, euid, egid, outcome, leaked, k, after);
    assert NormalizeNewline(NormalizeNewline(generated)) == NormalizeNewline(generated);
  }
}
