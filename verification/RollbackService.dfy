/** `rollback_service.cpp`: snapshot, preserve, switch, verify; and the compensating moves. */
module RollbackService {
  import opened BtrfsTopology

  const FAILED_SUFFIX := ".limine-manager.failed-replacement"

  datatype RollbackPlan = RollbackPlan(
    eligible: bool,
    btrfsSource: string,
    source: string,        // source_snapshot_subvolume
    target: string,
    preserved: string,
    replacement: string)
  {
    function Failed(): string { target + FAILED_SUFFIX }

    predicate Complete() {
      btrfsSource != [] && source != [] && target != [] && preserved != [] && replacement != []
    }

    /** No part of the plan is missing. */
    ghost predicate Filled() { "" !in {btrfsSource, source, target, preserved, replacement} }

    /** The four names the service gives out are apart from each other. */
    ghost predicate Apart() {
      && Unrelated(target, preserved) && Unrelated(target, replacement) && Unrelated(target, Failed())
      && Unrelated(preserved, replacement) && Unrelated(preserved, Failed()) && Unrelated(replacement, Failed())
    }

    /** The topology the forward steps need. */
    ghost predicate Executable(t: Topology) {
      && Has(t, source) && Has(t, target) && Free(t, preserved) && Free(t, replacement)
    }
  }

  /** The flags of `execute`. */
  datatype Progress = NotCreated | ReplacementCreated | TargetPreserved | TargetSwitched

  /** Where the topology is after the forward steps, starting from `t` with `id` as the new snapshot. */
  ghost function Reached(plan: RollbackPlan, t: Topology, id: nat, progress: Progress): Topology {
    match progress
    case NotCreated => t
    case ReplacementCreated => t[id := plan.replacement]
    case TargetPreserved => Moved(t, plan.target, plan.preserved)[id := plan.replacement]
    case TargetSwitched => Moved(t, plan.target, plan.preserved)[id := plan.target]
  }

  /** Every prior subvolume is still there, at most one was added, and the root subvolume is at
      the target or at the preserved path. */
  ghost predicate Safe(plan: RollbackPlan, before: Topology, now: Topology, id: nat) {
    && before.Keys <= now.Keys <= before.Keys + {id}
    && forall root :: root in before && before[root] == plan.target ==> now[root] in {plan.target, plan.preserved}
  }

  ghost predicate SafeTrace(plan: RollbackPlan, before: Topology, trace: seq<Topology>, from: nat, id: nat) {
    forall k :: from <= k < |trace| ==> Safe(plan, before, trace[k], id)
  }

  /** The client holds exactly `now`, and has been safe since `from`. */
  ghost predicate Holds(client: BtrfsClient, plan: RollbackPlan, t: Topology, id: nat, from: nat, now: Topology)
    reads client
  {
    && client.Valid() && client.located == now
    && from <= |client.trace| && SafeTrace(plan, t, client.trace, from, id)
  }

  /** What the steps taken so far have shown about the topology they started from. */
  ghost predicate Known(plan: RollbackPlan, t: Topology, id: nat, progress: Progress) {
    && plan.Apart() && Injective(t) && id !in t
    && (progress != NotCreated ==> Free(t, plan.replacement))
    && (progress.TargetPreserved? || progress.TargetSwitched? ==> Free(t, plan.preserved) && Has(t, plan.target))
  }

  lemma RebaseExactly(source: string, destination: string)
    ensures Rebase(source, source, destination) == destination
  {
    assert destination + source[|source|..] == destination;
  }

  lemma ReachedIsSafe(plan: RollbackPlan, t: Topology, id: nat, progress: Progress)
    requires id !in t
    ensures Safe(plan, t, Reached(plan, t, id, progress), id)
  {
    RebaseExactly(plan.target, plan.preserved);
  }

  /** The move of the root to the preserved path, with the replacement beside it. */
  lemma PreserveTarget(plan: RollbackPlan, t: Topology, id: nat)
    requires plan.Apart() && id !in t
    ensures Moved(Reached(plan, t, id, ReplacementCreated), plan.target, plan.preserved)
         == Reached(plan, t, id, TargetPreserved)
  {
    MovedBeside(t, id, plan.replacement, plan.target, plan.preserved);
  }

  /** The move of the replacement to the target path. */
  lemma SwitchTarget(plan: RollbackPlan, t: Topology, id: nat)
    requires plan.Apart() && id !in t && Free(t, plan.replacement)
    ensures Moved(Reached(plan, t, id, TargetPreserved), plan.replacement, plan.target)
         == Reached(plan, t, id, TargetSwitched)
  {
    FreeAfterMove(t, plan.target, plan.preserved, plan.replacement);
    MovedAlone(Moved(t, plan.target, plan.preserved), id, plan.replacement, plan.target);
  }

  /** Parking the new subvolume, from wherever it is. */
  lemma ParkNew(plan: RollbackPlan, t: Topology, id: nat, progress: Progress)
    requires plan.Apart() && Injective(t) && id !in t && progress != NotCreated
    requires Free(t, plan.replacement)
    requires !progress.ReplacementCreated? ==> Free(t, plan.preserved)
    ensures
      var at := if progress.TargetSwitched? then plan.target else plan.replacement;
      Moved(Reached(plan, t, id, progress), at, plan.Failed()) ==
        (if progress.ReplacementCreated? then t else Moved(t, plan.target, plan.preserved))[id := plan.Failed()]
  {
    if progress.ReplacementCreated? {
      MovedAlone(t, id, plan.replacement, plan.Failed());
    } else {
      MovedIsReversible(t, plan.target, plan.preserved);
      FreeAfterMove(t, plan.target, plan.preserved, plan.replacement);
      var m := Moved(t, plan.target, plan.preserved);
      MovedAlone(m, id, if progress.TargetSwitched? then plan.target else plan.replacement, plan.Failed());
    }
  }

  /** Moving the root back, with the new subvolume at `p`. */
  lemma ReturnTarget(plan: RollbackPlan, t: Topology, id: nat, p: string)
    requires plan.Apart() && Injective(t) && id !in t && Free(t, plan.preserved) && !AtOrBelow(p, plan.preserved)
    ensures Moved(Moved(t, plan.target, plan.preserved)[id := p], plan.preserved, plan.target) == t[id := p]
  {
    MovedIsReversible(t, plan.target, plan.preserved);
    MovedBeside(Moved(t, plan.target, plan.preserved), id, p, plan.preserved, plan.target);
  }

  lemma PreserveIsMovable(plan: RollbackPlan, t: Topology, id: nat)
    requires plan.Apart() && id !in t && plan.Executable(t)
    ensures Movable(Reached(plan, t, id, ReplacementCreated), plan.target, plan.preserved)
  {
    var root :| root in t && t[root] == plan.target;
    assert Reached(plan, t, id, ReplacementCreated)[root] == plan.target;
  }

  lemma SwitchIsMovable(plan: RollbackPlan, t: Topology, id: nat)
    requires plan.Apart() && Injective(t) && id !in t && plan.Executable(t)
    ensures Movable(Reached(plan, t, id, TargetPreserved), plan.replacement, plan.target)
  {
    MovedIsReversible(t, plan.target, plan.preserved);
    assert Reached(plan, t, id, TargetPreserved)[id] == plan.replacement;
  }

  /** After the switch a truthful listing shows both names. */
  lemma SwitchIsListed(plan: RollbackPlan, t: Topology, id: nat)
    requires plan.Apart() && id !in t && Has(t, plan.target)
    ensures Has(Reached(plan, t, id, TargetSwitched), plan.target)
    ensures Has(Reached(plan, t, id, TargetSwitched), plan.preserved)
  {
    var root :| root in t && t[root] == plan.target;
    RebaseExactly(plan.target, plan.preserved);
    var now := Reached(plan, t, id, TargetSwitched);
    assert now[root] == plan.preserved && now[id] == plan.target;
  }

  /** One move between two safe topologies. */
  method Step(client: BtrfsClient, plan: RollbackPlan, source: string, destination: string,
              ghost t: Topology, ghost id: nat, ghost from: nat) returns (ok: bool)
    requires Holds(client, plan, t, id, from, client.located)
    requires Safe(plan, t, client.located, id) && Safe(plan, t, Moved(client.located, source, destination), id)
    modifies client
    ensures
      var before := old(client.located);
      Holds(client, plan, t, id, from, if ok then Moved(before, source, destination) else before)
    ensures client.mounted == old(client.mounted) && client.copiedFrom == old(client.copiedFrom)
    ensures ok ==> client.faults == old(client.faults) && Movable(old(client.located), source, destination)
    ensures !ok ==> client.faults > old(client.faults) || !Movable(old(client.located), source, destination)
    ensures old(client.faults) <= client.faults
  {
    ok := client.MoveSubvolume(source, destination);
  }

  lemma HasBeside(t: Topology, id: nat, p: string, q: string)
    requires id !in t && p != q && Has(t[id := p], q)
    ensures Has(t, q)
  {
    var other :| other in t[id := p] && t[id := p][other] == q;
    assert other in t;
  }

  lemma StartedFrom(plan: RollbackPlan, t: Topology, id: nat)
    requires plan.Apart() && id !in t && Movable(Reached(plan, t, id, ReplacementCreated), plan.target, plan.preserved)
    ensures Has(t, plan.target) && Free(t, plan.preserved)
  {
    HasBeside(t, id, plan.replacement, plan.target);
    forall other | other in t ensures !AtOrBelow(t[other], plan.preserved) {
      assert Reached(plan, t, id, ReplacementCreated)[other] == t[other];
    }
  }

  /** The two moves. */
  method Switch(client: BtrfsClient, plan: RollbackPlan, ghost t: Topology, ghost id: nat, ghost from: nat)
    returns (ok: bool, progress: Progress)
    requires Holds(client, plan, t, id, from, Reached(plan, t, id, ReplacementCreated))
    requires Known(plan, t, id, ReplacementCreated) && client.mounted
    modifies client
    ensures Holds(client, plan, t, id, from, Reached(plan, t, id, progress)) && Known(plan, t, id, progress)
    ensures client.mounted && client.copiedFrom == old(client.copiedFrom) && !progress.NotCreated?
    ensures ok <==> progress.TargetSwitched?
    ensures !ok ==> client.faults > old(client.faults) || !plan.Executable(t)
    ensures old(client.faults) <= client.faults
  {
    progress := ReplacementCreated;
    PreserveTarget(plan, t, id);
    ReachedIsSafe(plan, t, id, ReplacementCreated);
    ReachedIsSafe(plan, t, id, TargetPreserved);
    ok := Step(client, plan, plan.target, plan.preserved, t, id, from);
    if !ok {
      if plan.Executable(t) { PreserveIsMovable(plan, t, id); }
      return;
    }
    progress := TargetPreserved;
    StartedFrom(plan, t, id);

    SwitchTarget(plan, t, id);
    ReachedIsSafe(plan, t, id, TargetSwitched);
    ok := Step(client, plan, plan.replacement, plan.target, t, id, from);
    if ok {
      progress := TargetSwitched;
    } else if plan.Executable(t) {
      SwitchIsMovable(plan, t, id);
    }
  }

  /** A listing made after the last move showed the old and the new root, and all is synchronised. */
  ghost predicate Confirmed(client: BtrfsClient, plan: RollbackPlan)
    reads client
  {
    client.synced && client.shown.Some? && plan.target in client.shown.value && plan.preserved in client.shown.value
  }

  /** Topology check, sync and unmount. */
  method Finish(client: BtrfsClient, plan: RollbackPlan) returns (ok: bool)
    requires client.Valid() && client.mounted && Has(client.located, plan.target) && Has(client.located, plan.preserved)
    modifies client`faults, client`mounted, client`synced, client`shown
    ensures client.Valid() && client.mounted == !ok
    ensures ok ==> Confirmed(client, plan)
    ensures !ok ==> client.faults > old(client.faults)
    ensures old(client.faults) <= client.faults
  {
    var paths := client.ListSubvolumes();
    if paths.None? || plan.target !in paths.value || plan.preserved !in paths.value {
      return false;
    }
    ok := client.SyncFilesystem();
    if !ok { return; }
    ok := client.Unmount();
  }

  ghost predicate IsCopy(client: BtrfsClient, t: Topology, id: nat, source: string)
    reads client
  {
    id in client.copiedFrom && client.copiedFrom[id] in t && t[client.copiedFrom[id]] == source
  }

  /** The forward steps on the mounted top level. */
  method Forward(client: BtrfsClient, plan: RollbackPlan, ghost t: Topology, ghost id: nat, ghost from: nat)
    returns (ok: bool, progress: Progress)
    requires Holds(client, plan, t, id, from, t) && Known(plan, t, id, NotCreated)
    requires id == client.nextId && client.mounted
    modifies client
    ensures Holds(client, plan, t, id, from, Reached(plan, t, id, progress)) && Known(plan, t, id, progress)
    ensures ok ==>
      && progress.TargetSwitched? && !client.mounted && IsCopy(client, t, id, plan.source) && Confirmed(client, plan)
    ensures !ok ==> client.mounted && (client.faults > old(client.faults) || !plan.Executable(t))
    ensures old(client.faults) <= client.faults
  {
    progress := NotCreated;
    ghost var created;
    ok, created := client.CreateWritableSnapshot(plan.source, plan.replacement);
    ReachedIsSafe(plan, t, id, NotCreated);
    ReachedIsSafe(plan, t, id, ReplacementCreated);
    if !ok { return; }
    ok, progress := Switch(client, plan, t, id, from);
    if !ok { return; }
    SwitchIsListed(plan, t, id);
    ok := Finish(client, plan);
  }

  /** Where the compensating moves end up when each of them works. */
  ghost function Compensated(plan: RollbackPlan, t: Topology, id: nat, progress: Progress): Topology {
    if progress.NotCreated? then t else t[id := plan.Failed()]
  }

  /** A compensating move keeps everything safe, whatever the topology is by then. */
  lemma CompensationIsSafe(plan: RollbackPlan, t: Topology, now: Topology, id: nat, source: string, destination: string)
    requires plan.Apart() && id !in t && Safe(plan, t, now, id)
    requires
      || (source, destination) == (plan.replacement, plan.Failed())
      || (source, destination) == (plan.preserved, plan.target)
      || ((source, destination) == (plan.target, plan.Failed())
          && id in now && now[id] == plan.target && Injective(now))
    ensures Safe(plan, t, Moved(now, source, destination), id)
  {
    RebaseExactly(plan.preserved, plan.target);
  }

  lemma ParkIsMovable(plan: RollbackPlan, t: Topology, id: nat, progress: Progress)
    requires plan.Apart() && id !in t && Free(t, plan.Failed()) && progress != NotCreated
    ensures
      var at := if progress.TargetSwitched? then plan.target else plan.replacement;
      Movable(Reached(plan, t, id, progress), at, plan.Failed())
  {
    FreeAfterMove(t, plan.target, plan.preserved, plan.Failed());
    assert Reached(plan, t, id, progress)[id] == if progress.TargetSwitched? then plan.target else plan.replacement;
  }

  lemma ReturnIsMovable(plan: RollbackPlan, t: Topology, id: nat, p: string)
    requires plan.Apart() && Injective(t) && id !in t && Free(t, plan.preserved) && Has(t, plan.target)
    requires !AtOrBelow(p, plan.target)
    ensures Movable(Moved(t, plan.target, plan.preserved)[id := p], plan.preserved, plan.target)
  {
    var root :| root in t && t[root] == plan.target;
    RebaseExactly(plan.target, plan.preserved);
    MovedIsReversible(t, plan.target, plan.preserved);
    assert Moved(t, plan.target, plan.preserved)[id := p][root] == plan.preserved;
  }

  /** The new subvolume goes out of the way, from wherever it is. */
  method Park(client: BtrfsClient, plan: RollbackPlan, progress: Progress, ghost t: Topology, ghost id: nat,
              ghost from: nat)
    requires Holds(client, plan, t, id, from, Reached(plan, t, id, progress)) && Known(plan, t, id, progress)
    requires client.mounted && progress != NotCreated
    modifies client
    ensures Holds(client, plan, t, id, from, client.located) && Safe(plan, t, client.located, id)
    ensures client.located == old(client.located) || (id in client.located && client.located[id] == plan.Failed())
    ensures client.faults == old(client.faults) && Free(t, plan.Failed()) ==>
      client.located ==
        (if progress.ReplacementCreated? then t else Moved(t, plan.target, plan.preserved))[id := plan.Failed()]
    ensures old(client.faults) <= client.faults && client.mounted
  {
    var at := if progress.TargetSwitched? then plan.target else plan.replacement;
    ReachedIsSafe(plan, t, id, progress);
    ParkNew(plan, t, id, progress);
    CompensationIsSafe(plan, t, client.located, id, at, plan.Failed());
    var parked := Step(client, plan, at, plan.Failed(), t, id, from);
    if !parked && Free(t, plan.Failed()) { ParkIsMovable(plan, t, id, progress); }
  }

  /** The old root goes back to its own name. */
  method Return(client: BtrfsClient, plan: RollbackPlan, ghost t: Topology, ghost id: nat, ghost from: nat)
    requires Holds(client, plan, t, id, from, client.located) && Safe(plan, t, client.located, id)
    requires client.mounted && Known(plan, t, id, TargetPreserved)
    modifies client
    ensures Holds(client, plan, t, id, from, client.located) && Safe(plan, t, client.located, id)
    ensures
      var parked := Moved(t, plan.target, plan.preserved)[id := plan.Failed()];
      client.faults == old(client.faults) && old(client.located) == parked ==>
      client.located == t[id := plan.Failed()]
    ensures
      client.faults == old(client.faults) && old(client.located) == Reached(plan, t, id, TargetPreserved) ==>
      client.located == t[id := plan.replacement]
    ensures old(id in client.located && client.located[id] == plan.Failed()) ==>
      id in client.located && client.located[id] == plan.Failed()
    ensures old(client.faults) <= client.faults && client.mounted
  {
    CompensationIsSafe(plan, t, client.located, id, plan.preserved, plan.target);
    ReturnTarget(plan, t, id, plan.Failed());
    ReturnTarget(plan, t, id, plan.replacement);
    ReturnIsMovable(plan, t, id, plan.Failed());
    ReturnIsMovable(plan, t, id, plan.replacement);
    var _ := Step(client, plan, plan.preserved, plan.target, t, id, from);
  }

  /** The root is back at its name, or the new subvolume is parked. */
  ghost predicate AtLeastOne(plan: RollbackPlan, t: Topology, id: nat, now: Topology) {
    now == t[id := plan.replacement] || (id in now && now[id] == plan.target + ".limine-manager.failed-replacement")
  }

  /** The two moves of the handler; each is tried whether the other works or not. */
  method UndoMoves(client: BtrfsClient, plan: RollbackPlan, progress: Progress, ghost t: Topology, ghost id: nat,
                   ghost from: nat)
    requires Holds(client, plan, t, id, from, Reached(plan, t, id, progress)) && Known(plan, t, id, progress)
    requires client.mounted
    modifies client
    ensures Holds(client, plan, t, id, from, client.located) && Safe(plan, t, client.located, id)
    ensures client.faults == old(client.faults) && Free(t, plan.Failed()) ==>
      client.located == Compensated(plan, t, id, progress)
    ensures progress.TargetPreserved? && client.faults <= old(client.faults) + 1 && Free(t, plan.Failed()) ==>
      AtLeastOne(plan, t, id, client.located)
    ensures old(client.faults) <= client.faults && client.mounted
  {
    ReachedIsSafe(plan, t, id, progress);
    if progress.NotCreated? { return; }
    Park(client, plan, progress, t, id, from);
    if progress.ReplacementCreated? { return; }
    Return(client, plan, t, id, from);
  }

  /** The handler: the new subvolume is parked and the root returned, as far as the moves work.
      Nothing is lost whatever fails; when nothing fails, only the parked copy remains. */
  method Compensate(client: BtrfsClient, plan: RollbackPlan, progress: Progress, ghost t: Topology, ghost id: nat,
                    ghost from: nat)
    requires Holds(client, plan, t, id, from, Reached(plan, t, id, progress)) && Known(plan, t, id, progress)
    requires client.mounted
    modifies client
    ensures Holds(client, plan, t, id, from, client.located) && Safe(plan, t, client.located, id)
    ensures client.faults == old(client.faults) && Free(t, plan.Failed()) ==>
      client.located == Compensated(plan, t, id, progress) && !client.mounted && client.synced
    ensures progress.TargetPreserved? && client.faults <= old(client.faults) + 1 && Free(t, plan.Failed()) ==>
      AtLeastOne(plan, t, id, client.located)
    ensures old(client.faults) <= client.faults
  {
    UndoMoves(client, plan, progress, t, id, from);
    var _ := client.SyncFilesystem();
    var _ := client.Unmount();
  }

  /** The old topology, with the new subvolume parked if there is one. */
  ghost function WithParked(plan: RollbackPlan, before: Topology, now: Topology, id: nat): Topology {
    if id in now then before[id := plan.target + ".limine-manager.failed-replacement"] else before
  }

  /** How `execute` ends: the new root is in place, an exception before anything was mounted, or
      an exception after the handler ran. */
  datatype RollbackOutcome = Switched | Refused | Failed

  /** The promise of a rollback begun at the topology `t` with so many faults behind it. For every pattern
      of faults no subvolume is lost and the old root stays at one of its two names. Under at most one
      fault (counting a plan that cannot be executed as one) a failure leaves the topology as it was,
      but for the parked copy, which is there whenever it was ever created. */
  ghost predicate Kept(client: BtrfsClient, plan: RollbackPlan, t: Topology, id: nat, from: nat, faults: nat,
                       outcome: RollbackOutcome)
    reads client
  {
    && client.Valid() && faults <= client.faults
    && SafeTrace(plan, t, client.trace, from, id) && Safe(plan, t, client.located, id)
    && (outcome.Switched? ==>
          && !client.mounted && plan.Executable(t) && Confirmed(client, plan)
          && client.located == Moved(t, plan.target, plan.preserved)[id := plan.target]
          && IsCopy(client, t, id, plan.source))
    && (!outcome.Switched? && client.faults <= faults + (if plan.Executable(t) then 1 else 0)
          && Free(t, plan.Failed()) ==>
          !client.mounted && client.located == WithParked(plan, t, client.located, id))
    && forall k :: 0 <= k < |client.trace| ==> client.trace[k].Keys <= client.located.Keys
  }

  /** From the mount on, which needs the lock: the forward steps, and the handler when one of them fails. */
  method MountAndSwitch(client: BtrfsClient, plan: RollbackPlan) returns (outcome: RollbackOutcome)
    requires client.Valid() && client.locked && !client.mounted && plan.Apart()
    modifies client
    ensures
      Kept(client, plan, old(client.located), old(client.nextId), old(|client.trace|), old(client.faults), outcome)
    ensures client.faults == old(client.faults) ==> (outcome.Switched? <==> plan.Executable(old(client.located)))
    ensures !outcome.Refused?
  {
    ghost var t, id, from := client.located, client.nextId, |client.trace|;
    assert Reached(plan, t, id, NotCreated) == t;
    ReachedIsSafe(plan, t, id, NotCreated);
    var mounted := client.MountTopLevel();
    if !mounted { return Failed; }
    var ok, progress := Forward(client, plan, t, id, from);
    ReachedIsSafe(plan, t, id, progress);
    if ok {
      assert plan.Executable(t);
      return Switched;
    }
    Compensate(client, plan, progress, t, id, from);
    outcome := Failed;
  }

  lemma CompleteIsFilled(plan: RollbackPlan)
    ensures plan.Filled() <==> plan.Complete()
  {
  }

  lemma NothingChanged(client: BtrfsClient, plan: RollbackPlan, faults: nat)
    requires client.Valid() && !client.mounted && faults <= client.faults
    ensures Kept(client, plan, client.located, client.nextId, |client.trace|, faults, Refused)
  {
    ReachedIsSafe(plan, client.located, client.nextId, NotCreated);
  }

  /** `RollbackService::execute`: it keeps that promise, refuses an ineligible or incomplete plan before
      anything is mounted, and without a fault succeeds for exactly the executable plans. */
  method Execute(client: BtrfsClient, plan: RollbackPlan) returns (outcome: RollbackOutcome)
    requires client.Valid() && !client.mounted && plan.Apart()
    modifies client
    ensures
      Kept(client, plan, old(client.located), old(client.nextId), old(|client.trace|), old(client.faults), outcome)
    ensures outcome.Switched? ==> plan.eligible && plan.Filled()
    ensures outcome.Refused? ==>
      && client.located == old(client.located)
      && (client.faults > old(client.faults) || !plan.eligible || !plan.Filled())
    ensures client.faults == old(client.faults) ==>
      (outcome.Switched? <==> plan.eligible && plan.Filled() && plan.Executable(old(client.located)))
  {
    CompleteIsFilled(plan);
    if !plan.eligible || !plan.Complete() {
      NothingChanged(client, plan, client.faults);
      return Refused;
    }
    var locked := client.Lock();
    if !locked {
      NothingChanged(client, plan, client.faults - 1);
      return Refused;
    }
    outcome := MountAndSwitch(client, plan);
  }
}
