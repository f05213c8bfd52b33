/** What whole runs of protected applies keep: the digest enrolled in the EFI image is the hash
    of the installed configuration. */
module SecureBootAgreement {
  import opened Wrappers
  import opened Filesystem
  import opened SecureFileOps
  import opened ChangePlanner
  import opened SecureBootTools
  import opened SecureBootApplyService

  ghost predicate Agrees(tools: Toolchain, files: Files, config: Path, efi: Path) {
    && Readable(files, config) && Readable(files, efi)
    && tools.enrolled(files[efi].bytes) == Some(tools.hash(files[config].bytes))
  }

  /** One event of a run: a protected apply, or activity that touches neither of the two files
      (pruning of backups, for instance). */
  datatype Event =
    | Protected(plan: ChangePlan, outcome: ProtectedOutcome, leaked: bool)
    | Elsewhere

  ghost predicate Happens(tools: Toolchain, config: Path, efi: Path, uid: nat, gid: nat, e: Event, s: Snap, t: Snap) {
    match e
    case Protected(plan, outcome, leaked) =>
      && plan.target == config && plan.HasChanges()
      && ProtectedContract(tools, plan, efi, s, t, uid, gid, outcome, leaked)
    case Elsewhere =>
      && At(t.files, config) == At(s.files, config)
      && At(t.files, efi) == At(s.files, efi)
  }

  ghost predicate Run(tools: Toolchain, config: Path, efi: Path, uid: nat, gid: nat, events: seq<Event>,
                      states: seq<Snap>) {
    && |states| == |events| + 1
    && forall i :: 0 <= i < |events| ==> Happens(tools, config, efi, uid, gid, events[i], states[i], states[i + 1])
  }

  /** No apply of the run reported a failed rollback. */
  ghost predicate Clean(events: seq<Event>) {
    forall e :: e in events && e.Protected? ==> !e.outcome.RollbackFailed?
  }

  /** The text of the last successful apply, or else the text the run started with. */
  ghost function LastInstalled(events: seq<Event>, initial: string): string {
    if events == [] then initial
    else
      var e := events[|events| - 1];
      if e.Protected? && e.outcome.Success? then e.plan.generated
      else LastInstalled(events[..|events| - 1], initial)
  }

  ghost predicate NoSuccess(events: seq<Event>) {
    forall e :: e in events && e.Protected? ==> !e.outcome.Success?
  }

  lemma StepAgrees(tools: Toolchain, config: Path, efi: Path, uid: nat, gid: nat, e: Event, s: Snap, t: Snap)
    requires config != efi && Happens(tools, config, efi, uid, gid, e, s, t) && Clean([e])
    requires Agrees(tools, s.files, config, efi)
    ensures Agrees(tools, t.files, config, efi)
    ensures t.files[config] == s.files[config].(bytes := LastInstalled([e], s.files[config].bytes))
    ensures NoSuccess([e]) ==> t.files[efi] == s.files[efi]
  {
    assert e in [e];
    if e.Protected? {
      assert At(s.files, config) == Some(s.files[config]) && At(s.files, efi) == Some(s.files[efi]);
      assert config in t.files && efi in t.files;
    }
  }

  /** Over every run without a failed rollback the digest enrolled in the image stays the hash
      of the configuration; the configuration is always the text of the last successful apply,
      under its first mode and owner; and the image changes only with a successful apply. */
  lemma {:induction false} AgreementOverRuns(tools: Toolchain, config: Path, efi: Path, uid: nat, gid: nat,
                                             events: seq<Event>, states: seq<Snap>)
    requires config != efi && Run(tools, config, efi, uid, gid, events, states) && Clean(events)
    requires Agrees(tools, states[0].files, config, efi)
    ensures
      var first, last := states[0].files, states[|events|].files;
      && Agrees(tools, last, config, efi)
      && last[config] == first[config].(bytes := LastInstalled(events, first[config].bytes))
      && (NoSuccess(events) ==> last[efi] == first[efi])
  {
    if events != [] {
      var n := |events| - 1;
      var e := events[n];
      assert e in events && forall x :: x in events[..n] ==> x in events;
      AgreementOverRuns(tools, config, efi, uid, gid, events[..n], states[..n + 1]);
      assert LastInstalled([e][..0], states[n].files[config].bytes) == states[n].files[config].bytes;
      StepAgrees(tools, config, efi, uid, gid, e, states[n], states[n + 1]);
    }
  }
}
