/** `rollback_planner.cpp`: which snapshot is booted, and whether it can replace the root. */
module RollbackPlanner {
  import opened Wrappers
  import opened Text
  import opened BtrfsTopology
  import opened RollbackService
  import opened SnapshotPaths
  import KernelCommandLine

  const ROLLBACK_INFIX := ".limine-manager.rollback."
  const NEW_INFIX := ".limine-manager.new."

  datatype Severity = Info | Warning | Error

  datatype Diagnostic = Diagnostic(severity: Severity, code: string)

  datatype SnapshotInfo = SnapshotInfo(number: nat, readOnly: bool)

  /** The facts the planner works on; `listing` is `None` when the subvolumes cannot be listed. */
  datatype Facts = Facts(
    rootSource: string,
    rootFstype: string,
    rootSubvolume: string,
    arguments: seq<string>,
    snapperSubvolume: string,
    snapshotsSubvolume: string,
    snapshots: seq<SnapshotInfo>,
    listing: Option<Topology>,
    transactionId: string)
  {
    function Target(): string { RootflagsSubvolume(arguments) }

    function Booted(): SnapshotNumber {
      ParseSnapshotNumber(rootSubvolume, DropSlashes(SkipSlashes(snapshotsSubvolume)))
    }

    function Preserved(n: nat): string {
      Target() + (ROLLBACK_INFIX + (Decimal(n) + "." + transactionId))
    }

    function Replacement(n: nat): string {
      Target() + (NEW_INFIX + (Decimal(n) + "." + transactionId))
    }

    /** The snapshot the system was booted from, if it is one the planner goes on with. */
    function Managed(): Option<nat> {
      if rootSubvolume != "" && (Target() == "" || rootSubvolume != Target()) && Booted().Number? then Some(Booted().n)
      else None
    }

    /** The subvolumes the planner gets to see. */
    function Shown(): Topology { if rootFstype == "btrfs" && listing.Some? then listing.value else map[] }

    /** Everything an eligible plan needs, without the order the code checks it in. */
    ghost predicate Eligible() {
      && rootFstype == "btrfs" && listing.Some? && snapperSubvolume == "/"
      && Target() != [] && rootSubvolume != [] && rootSubvolume != Target()
      && Booted().Number?
      && (exists i :: 0 <= i < |snapshots| && snapshots[i].number == Booted().n)
      && Has(listing.value, Target()) && Has(listing.value, rootSubvolume)
      && !Has(listing.value, Preserved(Booted().n)) && !Has(listing.value, Replacement(Booted().n))
    }
  }

  ghost predicate Blocked(diagnostics: seq<Diagnostic>) {
    exists d :: d in diagnostics && d.severity == Error
  }

  method HasError(diagnostics: seq<Diagnostic>) returns (found: bool)
    ensures found <==> Blocked(diagnostics)
  {
    found := false;
    for i := 0 to |diagnostics|
      invariant found <==> exists d :: d in diagnostics[..i] && d.severity == Error
    {
      assert diagnostics[..i + 1] == diagnostics[..i] + [diagnostics[i]];
      if diagnostics[i].severity == Error { found := true; }
    }
    assert diagnostics[..|diagnostics|] == diagnostics;
  }

  lemma BlockedSum(a: seq<Diagnostic>, b: seq<Diagnostic>)
    ensures Blocked(a + b) <==> Blocked(a) || Blocked(b)
  {
    assert forall d :: d in a + b <==> d in a || d in b;
  }

  /** What a check that may fail leaves. */
  function When(fails: bool, code: string): (found: seq<Diagnostic>)
    ensures Blocked(found) <==> fails
  {
    var error := Diagnostic(Error, code);
    assert error in [error];
    if fails then [error] else []
  }

  lemma BlockedBy(d: Diagnostic)
    ensures Blocked([d]) <==> d.severity == Error
  {
    assert d in [d];
  }

  method FindSnapshot(snapshots: seq<SnapshotInfo>, n: nat) returns (at: nat)
    ensures at <= |snapshots| && (at < |snapshots| ==> snapshots[at].number == n)
    ensures forall i :: 0 <= i < at ==> snapshots[i].number != n
  {
    at := 0;
    while at < |snapshots| && snapshots[at].number != n
      invariant at <= |snapshots| && forall i :: 0 <= i < at ==> snapshots[i].number != n
    {
      at := at + 1;
    }
  }

  /** What is reported about the running system. */
  ghost function SystemFindings(facts: Facts): seq<Diagnostic> {
    [Diagnostic(if facts.rootFstype == "btrfs" then Info else Error, "root.filesystem")]
    + When(facts.Target() == "", "kernel.rootflags")
    + [if facts.rootSubvolume == "" then Diagnostic(Error, "root.subvolume")
       else Diagnostic(if facts.Managed().Some? then Info else Error, "rollback.boot_mode")]
    + When(facts.snapperSubvolume != "/", "snapper.subvolume")
  }

  /** What is reported about the booted snapshot: the first entry with its number counts. */
  ghost predicate SnapshotFindings(facts: Facts, diagnostics: seq<Diagnostic>) {
    match facts.Managed()
    case None => diagnostics == []
    case Some(n) =>
      if forall i :: 0 <= i < |facts.snapshots| ==> facts.snapshots[i].number != n
      then diagnostics == [Diagnostic(Error, "snapshot.snapper")]
      else
        exists at :: 0 <= at < |facts.snapshots| && facts.snapshots[at].number == n
          && (forall i :: 0 <= i < at ==> facts.snapshots[i].number != n)
          && diagnostics == [Diagnostic(if facts.snapshots[at].readOnly then Info else Warning, "snapshot.read_only")]
  }

  /** What is reported about the subvolumes. */
  ghost function TopologyFindings(facts: Facts): seq<Diagnostic> {
    var managed, target, shown := facts.Managed(), facts.Target(), facts.Shown();
    When(facts.rootFstype == "btrfs" && facts.listing.None?, "btrfs.subvolumes")
    + When(target != "" && !Has(shown, target), "target.exists")
    + When(managed.Some? && !Has(shown, facts.rootSubvolume), "snapshot.exists")
    + When(managed.Some? && target != "" && Has(shown, facts.Preserved(managed.value)), "preserve.conflict")
    + When(managed.Some? && target != "" && Has(shown, facts.Replacement(managed.value)), "replacement.conflict")
  }

  lemma SystemBlocks(facts: Facts)
    ensures Blocked(SystemFindings(facts)) <==>
      facts.rootFstype != "btrfs" || facts.Target() == "" || facts.Managed().None? || facts.snapperSubvolume != "/"
  {
    var root := Diagnostic(if facts.rootFstype == "btrfs" then Info else Error, "root.filesystem");
    var mode := if facts.rootSubvolume == "" then Diagnostic(Error, "root.subvolume")
                else Diagnostic(if facts.Managed().Some? then Info else Error, "rollback.boot_mode");
    BlockedBy(root);
    BlockedBy(mode);
    var flags := When(facts.Target() == "", "kernel.rootflags");
    BlockedSum([root], flags);
    BlockedSum([root] + flags, [mode]);
    BlockedSum([root] + flags + [mode], When(facts.snapperSubvolume != "/", "snapper.subvolume"));
  }

  lemma SnapshotBlocks(facts: Facts, diagnostics: seq<Diagnostic>)
    requires SnapshotFindings(facts, diagnostics)
    ensures Blocked(diagnostics) <==>
      && facts.Managed().Some?
      && forall i :: 0 <= i < |facts.snapshots| ==> facts.snapshots[i].number != facts.Managed().value
  {
    if diagnostics != [] { BlockedBy(diagnostics[0]); }
  }

  lemma TopologyBlocks(facts: Facts, n: nat)
    requires facts.rootFstype == "btrfs" && facts.Target() != "" && facts.Managed() == Some(n)
    ensures Blocked(TopologyFindings(facts)) <==>
      || facts.listing.None?
      || !Has(facts.listing.value, facts.Target()) || !Has(facts.listing.value, facts.rootSubvolume)
      || Has(facts.listing.value, facts.Preserved(n)) || Has(facts.listing.value, facts.Replacement(n))
  {
    var shown := facts.Shown();
    var a := When(facts.listing.None?, "btrfs.subvolumes");
    var b := When(!Has(shown, facts.Target()), "target.exists");
    var c := When(!Has(shown, facts.rootSubvolume), "snapshot.exists");
    var d := When(Has(shown, facts.Preserved(n)), "preserve.conflict");
    var e := When(Has(shown, facts.Replacement(n)), "replacement.conflict");
    BlockedSum(a, b);
    BlockedSum(a + b, c);
    BlockedSum(a + b + c, d);
    BlockedSum(a + b + c + d, e);
  }

  /** File system, target and boot mode. Not `ok` is the exception for a number beyond `unsigned long`. */
  method CheckSystem(facts: Facts) returns (ok: bool, number: Option<nat>, diagnostics: seq<Diagnostic>)
    ensures !ok ==> facts.Booted().OutOfRange?
    ensures ok ==> number == facts.Managed() && diagnostics == SystemFindings(facts)
  {
    ok, number := true, None;
    var target, current := facts.Target(), facts.rootSubvolume;
    diagnostics := [Diagnostic(if facts.rootFstype != "btrfs" then Error else Info, "root.filesystem")];
    diagnostics := diagnostics + When(target == [], "kernel.rootflags");
    if current == [] {
      diagnostics := diagnostics + [Diagnostic(Error, "root.subvolume")];
    } else if target != [] && current == target {
      diagnostics := diagnostics + [Diagnostic(Error, "rollback.boot_mode")];
    } else {
      var directory := SnapshotPrefix(facts.snapshotsSubvolume);
      match ParseSnapshotNumber(current, directory)
      case OutOfRange => return false, None, diagnostics;
      case Number(n) =>
        number := Some(n);
        diagnostics := diagnostics + [Diagnostic(Info, "rollback.boot_mode")];
      case NoNumber =>
        diagnostics := diagnostics + [Diagnostic(Error, "rollback.boot_mode")];
    }
    diagnostics := diagnostics + When(facts.snapperSubvolume != "/", "snapper.subvolume");
  }

  method CheckSnapshot(facts: Facts, number: Option<nat>) returns (diagnostics: seq<Diagnostic>)
    requires number == facts.Managed()
    ensures SnapshotFindings(facts, diagnostics)
  {
    if number.None? { return []; }
    var at := FindSnapshot(facts.snapshots, number.value);
    diagnostics :=
      if at == |facts.snapshots| then [Diagnostic(Error, "snapshot.snapper")]
      else [Diagnostic(if facts.snapshots[at].readOnly then Info else Warning, "snapshot.read_only")];
  }

  /** The listing, and the subvolumes that have to be there, or must not. */
  method CheckTopology(facts: Facts, number: Option<nat>) returns (diagnostics: seq<Diagnostic>)
    requires number == facts.Managed()
    ensures diagnostics == TopologyFindings(facts)
  {
    var target, subvolumes: Topology := facts.Target(), map[];
    diagnostics := [];
    if facts.rootFstype == "btrfs" {
      if facts.listing.Some? { subvolumes := facts.listing.value; }
      else { diagnostics := [Diagnostic(Error, "btrfs.subvolumes")]; }
    }
    diagnostics := diagnostics + When(target != [] && !Has(subvolumes, target), "target.exists");
    diagnostics := diagnostics + When(number.Some? && !Has(subvolumes, facts.rootSubvolume), "snapshot.exists");
    ghost var found := diagnostics;
    if number.Some? && target != [] {
      diagnostics := diagnostics + When(Has(subvolumes, facts.Preserved(number.value)), "preserve.conflict");
      diagnostics := diagnostics + When(Has(subvolumes, facts.Replacement(number.value)), "replacement.conflict");
    } else {
      assert found + [] + [] == found;
    }
  }

  /** `RollbackPlanner::build`; `None` is the exception for a number beyond `unsigned long`. The
      diagnostics it collects make the plan eligible exactly when all conditions hold. */
  method Build(facts: Facts) returns (plan: Option<RollbackPlan>, diagnostics: seq<Diagnostic>)
    ensures plan.Some? ==> (plan.value.eligible <==> facts.Eligible())
    ensures plan.Some? ==> (plan.value.eligible <==> !Blocked(diagnostics))
    ensures plan.Some? ==>
      exists middle: seq<Diagnostic> ::
        SnapshotFindings(facts, middle) && diagnostics == SystemFindings(facts) + middle + TopologyFindings(facts)
    ensures plan.Some? ==>
      && IsDevice(facts.rootSource, plan.value.btrfsSource) && IsRoot(facts.arguments, plan.value.target)
      && plan.value.target == facts.Target()
    ensures plan.Some? && plan.value.eligible ==>
      var number := Decimal(facts.Booted().n) + "." + facts.transactionId;
      && plan.value.preserved == plan.value.target + (".limine-manager.rollback." + number)
      && plan.value.replacement == plan.value.target + (".limine-manager.new." + number)
    ensures plan.Some? && plan.value.eligible ==>
      && plan.value.source == facts.rootSubvolume
      && plan.value.preserved == facts.Preserved(facts.Booted().n)
      && plan.value.replacement == facts.Replacement(facts.Booted().n)
    ensures plan.None? ==> facts.Booted().OutOfRange?
  {
    MountSourceIsDevice(facts.rootSource, MountSource(facts.rootSource));
    RootflagsSubvolumeIsRoot(facts.arguments);
    var target := facts.Target();
    var ok, number, system := CheckSystem(facts);
    if !ok { return None, system; }
    var snapshot := CheckSnapshot(facts, number);
    var topology := CheckTopology(facts, number);
    diagnostics := system + snapshot + topology;
    BlockedSum(system, snapshot);
    BlockedSum(system + snapshot, topology);
    SystemBlocks(facts);
    SnapshotBlocks(facts, snapshot);
    if facts.rootFstype == "btrfs" && target != [] && number.Some? { TopologyBlocks(facts, number.value); }
    var source := if number.Some? then facts.rootSubvolume else [];
    var preserved, replacement: string := [], [];
    if number.Some? && target != [] {
      preserved, replacement := facts.Preserved(number.value), facts.Replacement(number.value);
    }
    var blocked := HasError(diagnostics);
    plan := Some(RollbackPlan(!blocked, MountSource(facts.rootSource), source, target, preserved, replacement));
  }

  lemma BelowAgrees(p: string, root: string, i: nat)
    requires AtOrBelow(p, root) && i < |root|
    ensures i < |p| && p[i] == root[i]
  {
    assert p[..|root|] == root;
    assert p[i] == p[..|root|][i];
  }

  lemma NamesApart(target: string, x: string, y: string)
    requires |x| > 16 && |y| > 16 && x[0] == '.' && y[0] == '.' && x[16] != y[16]
    ensures Unrelated(target, target + x) && Unrelated(target + x, target + y)
  {
    var i := |target| + 16;
    assert (target + x)[|target|] == '.' && (target + x)[i] == x[16] && (target + y)[i] == y[16];
    if AtOrBelow(target + x, target + y) { BelowAgrees(target + x, target + y, i); }
    if AtOrBelow(target + y, target + x) { BelowAgrees(target + y, target + x, i); }
  }

  /** The names of every plan the planner builds are apart from each other. */
  lemma PlannedNamesApart(facts: Facts, plan: RollbackPlan, n: nat)
    requires plan.target == facts.Target()
    requires plan.preserved == facts.Preserved(n) && plan.replacement == facts.Replacement(n)
    ensures plan.Apart()
  {
    var id := Decimal(n) + "." + facts.transactionId;
    NamesApart(plan.target, ROLLBACK_INFIX + id, NEW_INFIX + id);
    NamesApart(plan.target, NEW_INFIX + id, FAILED_SUFFIX);
    NamesApart(plan.target, FAILED_SUFFIX, ROLLBACK_INFIX + id);
  }

  /** The source of an eligible plan is none of the names the rollback gives out. */
  lemma SourceIsApart(facts: Facts, plan: RollbackPlan)
    requires facts.Eligible() && |facts.rootSubvolume| <= MAX_SIZE
    requires plan.target == facts.Target() && plan.source == facts.rootSubvolume
    requires plan.preserved == facts.Preserved(facts.Booted().n)
    requires plan.replacement == facts.Replacement(facts.Booted().n)
    ensures plan.source !in {plan.target, plan.preserved, plan.replacement, plan.Failed()}
  {
    var directory := DropSlashes(SkipSlashes(facts.snapshotsSubvolume));
    var digits := OnlyPathsAreParsed(plan.source, directory);
    var front := directory + "/" + digits;
    assert (front + SUFFIX)[|front| + |SUFFIX| - 2] == SUFFIX[|SUFFIX| - 2] == 'o';
    var failed := plan.target + FAILED_SUFFIX;
    assert failed[|plan.target| + |FAILED_SUFFIX| - 2] == FAILED_SUFFIX[|FAILED_SUFFIX| - 2] == 'n';
  }

  /** Nothing is nested below the two names the rollback needs. */
  ghost predicate NothingNested(t: Topology, plan: RollbackPlan) {
    forall id :: id in t ==> !(plan.preserved + "/" <= t[id]) && !(plan.replacement + "/" <= t[id])
  }

  lemma BelowIsPrefix(p: string, root: string)
    ensures AtOrBelow(p, root) <==> p == root || root + "/" <= p
  {
    if |p| > |root| {
      assert p[..|root| + 1] == p[..|root|] + [p[|root|]];
      if root + "/" <= p { assert p[..|root|] == (root + "/")[..|root|] == root; }
    }
  }

  /** An eligible plan is complete, and on the topology it was made for its source and target
      exist and its new names are unused; when nothing is nested below the unused names either,
      a rollback without faults succeeds. */
  lemma EligibleIsExecutable(facts: Facts, plan: RollbackPlan)
    requires facts.Eligible() && plan.target == facts.Target() && plan.source == facts.rootSubvolume
    requires plan.preserved == facts.Preserved(facts.Booted().n)
    requires plan.replacement == facts.Replacement(facts.Booted().n)
    ensures Has(facts.listing.value, plan.source) && Has(facts.listing.value, plan.target)
    ensures plan.Executable(facts.listing.value) <==> NothingNested(facts.listing.value, plan)
  {
    var t := facts.listing.value;
    forall id | id in t
      ensures AtOrBelow(t[id], plan.preserved) <==> plan.preserved + "/" <= t[id]
      ensures AtOrBelow(t[id], plan.replacement) <==> plan.replacement + "/" <= t[id]
    {
      BelowIsPrefix(t[id], plan.preserved);
      BelowIsPrefix(t[id], plan.replacement);
    }
  }

  lemma RootflagsOfMain()
    ensures RootflagsSubvolume(["rootflags=subvol=@"]) == "@"
  {
    var a := "rootflags=subvol=@";
    KernelCommandLine.ValueOfOne(a, "rootflags");
    assert a[..9] == "rootflags" && a[9] == '=' && a[10..] == "subvol=@";
    assert "subvol=@"[..7] == SUBVOL && "subvol=@"[7..] == "@";
    assert SkipSlashes("@") == "@";
  }

  lemma SevenIsBooted()
    ensures ParseSnapshotNumber("@snapshots/7/snapshot", DropSlashes(SkipSlashes("@snapshots"))) == Number(7)
  {
    assert SkipSlashes("@snapshots") == "@snapshots" && DropSlashes("@snapshots") == "@snapshots";
    assert "@snapshots/7/snapshot" == "@snapshots" + "/" + "7" + SUFFIX;
    assert AllDigits("7") && "7"[..0] == [] && NumberOf("7") == 7;
    PathIsParsed("@snapshots/7/snapshot", "@snapshots", "7");
  }

  lemma NestedNames(id: string, t: Topology)
    requires
      var p := "@" + (ROLLBACK_INFIX + id);
      t == map[5 := "@", 256 := "@snapshots/7/snapshot", 300 := p + "/home"]
    ensures !Has(t, "@" + (ROLLBACK_INFIX + id)) && !Has(t, "@" + (NEW_INFIX + id))
  {
    var p, r := "@" + (ROLLBACK_INFIX + id), "@" + (NEW_INFIX + id);
    assert p[1] == '.' && r[1] == '.' && (p + "/home")[17] == 'r' && r[17] == 'n';
    assert "@snapshots/7/snapshot"[1] == 's';
  }

  /** Eligible facts whose plan cannot be executed: a subvolume lies below the unused preserved name. */
  lemma NestedButEligible() returns (facts: Facts)
    ensures facts.Eligible() && facts.Booted() == Number(7)
    ensures facts.listing.value == map[5 := "@", 256 := "@snapshots/7/snapshot", 300 := facts.Preserved(7) + "/home"]
    ensures forall plan: RollbackPlan :: plan.preserved == facts.Preserved(7) ==>
      !NothingNested(facts.listing.value, plan)
  {
    var unlisted := Facts("/dev/sda2", "btrfs", "@snapshots/7/snapshot", ["rootflags=subvol=@"], "/", "@snapshots",
                          [SnapshotInfo(7, true)], None, "1700000000.42");
    var p, r := unlisted.Preserved(7), unlisted.Replacement(7);
    var t: Topology := map[5 := "@", 256 := "@snapshots/7/snapshot", 300 := p + "/home"];
    facts := unlisted.(listing := Some(t));
    assert facts.Preserved(7) == p && facts.Replacement(7) == r;
    RootflagsOfMain();
    SevenIsBooted();
    assert facts.snapshots[0].number == 7;
    assert t[5] == "@" && t[256] == "@snapshots/7/snapshot" && t[300] == p + "/home";
    NestedNames(Decimal(7) + "." + facts.transactionId, t);
    assert (p + "/home")[..|p| + 1] == p + "/";
  }

  const NO_PLAN := RollbackPlan(false, [], [], [], [], [])

  /** The `rollback` command: plan on the listed topology, then execute. Without faults it
      succeeds exactly for eligible facts with a mount source and nothing nested below the new names. */
  method PlanAndExecute(client: BtrfsClient, facts: Facts)
    returns (outcome: RollbackOutcome, plan: Option<RollbackPlan>)
    requires client.Valid() && !client.mounted
    requires facts.listing.Some? ==> facts.listing.value == client.located
    modifies client
    ensures client.Valid()
    ensures outcome.Switched? ==> facts.Eligible()
    ensures facts.Eligible() ==> plan.Some?
    ensures facts.Eligible() && client.faults == old(client.faults) ==>
      (outcome.Switched? <==>
        NothingNested(old(client.located), plan.value) && plan.value.btrfsSource != "")
    ensures plan.Some? ==> IsDevice(facts.rootSource, plan.value.btrfsSource)
    ensures
      var p := if plan.Some? then plan.value else NO_PLAN;
      && Safe(p, old(client.located), client.located, old(client.nextId))
      && SafeTrace(p, old(client.located), client.trace, old(|client.trace|), old(client.nextId))
    ensures plan.Some? && !outcome.Switched? && Free(old(client.located), plan.value.Failed()) &&
            client.faults <= old(client.faults) + (if plan.value.Executable(old(client.located)) then 1 else 0) ==>
      && !client.mounted
      && client.located == WithParked(plan.value, old(client.located), client.located, old(client.nextId))
  {
    var diagnostics;
    plan, diagnostics := Build(facts);
    if plan.None? || !plan.value.eligible { return Refused, plan; }
    PlannedNamesApart(facts, plan.value, facts.Booted().n);
    EligibleIsExecutable(facts, plan.value);
    assert facts.Booted().Number? && facts.rootSubvolume != [] && facts.Target() != [];
    outcome := Execute(client, plan.value);
  }
}
