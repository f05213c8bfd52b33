/** `backup_service.cpp`: the backups of a target, newest first, and their retention. A backup's
    modification time is its creation tick, so modification times are strictly increasing. */
module BackupService {
  import opened Filesystem
  import opened ChangePlanner
  import opened ApplyService
  import opened Sorting
  import opened Text

  datatype BackupInfo = BackupInfo(path: Path, modified: nat, name: string)

  predicate IsBackup(files: Files, target: Path, p: Path) {
    p in files && files[p].Regular? && p.Generated? && p.of == target && p.suffix == ".bak"
  }

  function BackupPaths(files: Files, target: Path): set<Path> {
    set p | p in files && IsBackup(files, target, p)
  }

  function BackupAt(target: Path, tick: nat): Path { Generated(target, ".bak", tick) }

  /** The modification times of all backups. */
  function Ticks(files: Files, target: Path): (ticks: set<nat>)
    ensures forall t :: t in ticks <==> IsBackup(files, target, BackupAt(target, t))
  {
    var ticks := set p | p in files && IsBackup(files, target, p) :: p.tick;
    assert forall p :: p in files && IsBackup(files, target, p) ==> p == BackupAt(target, p.tick);
    ticks
  }

  function Above(ticks: set<nat>, t: nat): set<nat> {
    set u | u in ticks && u > t
  }

  /** Those of the `retain` newest ones. */
  function Newest(ticks: set<nat>, retain: nat): set<nat> {
    set t | t in ticks && |Above(ticks, t)| < retain
  }

  /** The comparator of `list`: newest first, then by descending file name. */
  predicate Newer(l: BackupInfo, r: BackupInfo) {
    if l.modified != r.modified then l.modified > r.modified
    else StringLess(r.name, l.name)
  }

  const COMPARATOR: (BackupInfo, BackupInfo) -> bool := (l, r) => Newer(l, r)

  lemma NewerIsStrictWeakOrder()
    ensures StrictWeakOrder(COMPARATOR)
  {
    forall x: BackupInfo ensures !COMPARATOR(x, x) { LessIsIrreflexive(x.name); }
    forall x: BackupInfo, y: BackupInfo, z: BackupInfo | COMPARATOR(x, y) && COMPARATOR(y, z) ensures COMPARATOR(x, z) {
      if x.modified == y.modified == z.modified { LessIsTransitive(z.name, y.name, x.name); }
    }
    forall x: BackupInfo, y: BackupInfo, z: BackupInfo | COMPARATOR(x, z) ensures COMPARATOR(x, y) || COMPARATOR(y, z) {
      if x.modified == y.modified == z.modified && !COMPARATOR(x, y) {
        LessIsTotal(x.name, y.name);
        if StringLess(x.name, y.name) { LessIsTransitive(z.name, x.name, y.name); }
      }
    }
  }

  /** A sorted list has the newest first, and those of one time by descending file name. */
  lemma ListOrder(backups: seq<BackupInfo>, i: nat, j: nat)
    requires Sorted(backups, COMPARATOR) && i < j < |backups|
    ensures backups[i].modified >= backups[j].modified
    ensures backups[i].modified == backups[j].modified && backups[i].name != backups[j].name ==>
      exists n: nat :: LessAt(backups[j].name, backups[i].name, n)
  {
    assert !COMPARATOR(backups[j], backups[i]);
    LessIsTotal(backups[i].name, backups[j].name);
    LessIsLexicographic(backups[j].name, backups[i].name);
  }

  function Info(target: Path, tick: nat): BackupInfo {
    BackupInfo(BackupAt(target, tick), tick, Decimal(tick))
  }

  /** Backups newest first. */
  ghost predicate Descending(target: Path, backups: seq<BackupInfo>) {
    && (forall i :: 0 <= i < |backups| ==> backups[i] == Info(target, backups[i].modified))
    && (forall i, j :: 0 <= i < j < |backups| ==> backups[i].modified > backups[j].modified)
  }

  lemma SameEntries<T>(a: seq<T>, b: seq<T>)
    requires multiset(a) == multiset(b)
    ensures forall x :: x in a <==> x in b
  {
    forall x ensures x in a <==> x in b {
      assert x in multiset(a) <==> x in multiset(b);
    }
  }

  lemma {:induction false} NoDuplicates<T>(s: seq<T>, x: T)
    requires forall i, j :: 0 <= i < j < |s| ==> s[i] != s[j]
    ensures multiset(s)[x] <= 1
  {
    if s != [] {
      NoDuplicates(s[1..], x);
      assert s == [s[0]] + s[1..];
      assert forall j :: 0 <= j < |s[1..]| ==> s[1..][j] == s[j + 1] && s[0] != s[j + 1];
    }
  }

  lemma TwiceInMultiset<T>(s: seq<T>, i: nat, j: nat)
    requires i < j < |s| && s[i] == s[j]
    ensures multiset(s)[s[i]] >= 2
  {
    assert s == s[..j] + [s[j]] + s[j + 1..];
    assert s[..j][i] == s[i];
    assert multiset(s) == multiset(s[..j]) + multiset{s[j]} + multiset(s[j + 1..]);
  }

  lemma SortedIsDescending(target: Path, found: seq<BackupInfo>, backups: seq<BackupInfo>)
    requires Sorted(backups, COMPARATOR) && multiset(found) == multiset(backups)
    requires forall b :: b in found ==> b == Info(target, b.modified)
    requires forall i, j :: 0 <= i < j < |found| ==> found[i] != found[j]
    ensures Descending(target, backups)
  {
    forall i | 0 <= i < |backups| ensures backups[i] == Info(target, backups[i].modified) {
      assert backups[i] in multiset(backups);
      assert backups[i] in found;
    }
    forall b | b in multiset(found) ensures multiset(found)[b] == 1 { NoDuplicates(found, b); }
    forall i, j | 0 <= i < j < |backups| ensures backups[i].modified > backups[j].modified {
      assert !COMPARATOR(backups[j], backups[i]);
      if backups[i].modified == backups[j].modified { TwiceInMultiset(backups, i, j); }
    }
  }

  /** `list`: the directory in any order, then sorted. An entry that cannot be inspected is
      left out. */
  method List(disk: Disk, target: Path) returns (backups: seq<BackupInfo>)
    requires disk.Valid()
    modifies disk`faults, disk`calls, disk`log
    ensures disk.Valid() && Observed(old(disk.State()), disk.State())
    ensures Descending(target, backups)
    ensures forall b :: b in backups ==> b.modified in Ticks(disk.files, target)
    ensures disk.faults == old(disk.faults) ==>
      forall t :: t in Ticks(disk.files, target) ==> Info(target, t) in backups
  {
    var entries := disk.files.Keys;
    var found: seq<BackupInfo> := [];
    while entries != {}
      invariant entries <= disk.files.Keys && old(disk.faults) <= disk.faults
      invariant disk.Valid() && Observed(old(disk.State()), disk.State())
      invariant forall b :: b in found ==>
        IsBackup(disk.files, target, b.path) && b.path !in entries && b == Info(target, b.modified)
      invariant forall i, j :: 0 <= i < j < |found| ==> found[i] != found[j]
      invariant disk.faults == old(disk.faults) ==>
        forall p :: IsBackup(disk.files, target, p) && p !in entries ==> Info(target, p.tick) in found
      decreases entries
    {
      var entry :| entry in entries;
      entries := entries - {entry};
      var unreadable := disk.Fails(Inspecting, entry);
      if unreadable || !IsBackup(disk.files, target, entry) { continue; }
      found := found + [Info(target, entry.tick)];
    }
    NewerIsStrictWeakOrder();
    SortIsStable(found, COMPARATOR);
    backups := Sort(found, COMPARATOR);
    SortedIsDescending(target, found, backups);
    SameEntries(found, backups);
    forall t | t in Ticks(disk.files, target) && disk.faults == old(disk.faults) ensures Info(target, t) in found {
      assert IsBackup(disk.files, target, BackupAt(target, t));
    }
  }

  /** The modification times of the first `i` entries. */
  ghost function Listed(backups: seq<BackupInfo>, i: nat): (ticks: set<nat>)
    requires i <= |backups|
    ensures forall k :: 0 <= k < i ==> backups[k].modified in ticks
    ensures forall u :: u in ticks ==> exists k :: 0 <= k < i && backups[k].modified == u
  {
    if i == 0 then {} else Listed(backups, i - 1) + {backups[i - 1].modified}
  }

  lemma ListedIsAbove(backups: seq<BackupInfo>, i: nat)
    requires i < |backups|
    requires forall k, l :: 0 <= k < l < |backups| ==> backups[k].modified > backups[l].modified
    ensures forall u :: u in Listed(backups, i) ==> u > backups[i].modified
  {
  }

  lemma {:induction false} ListedSize(backups: seq<BackupInfo>, i: nat)
    requires i <= |backups|
    requires forall k, l :: 0 <= k < l < |backups| ==> backups[k].modified > backups[l].modified
    ensures |Listed(backups, i)| == i
  {
    if i > 0 {
      ListedSize(backups, i - 1);
      ListedIsAbove(backups, i - 1);
      assert backups[i - 1].modified !in Listed(backups, i - 1);
    }
  }

  lemma SubsetSize<T>(a: set<T>, b: set<T>)
    requires a <= b
    ensures |a| <= |b|
  {
    assert b == a + (b - a);
  }

  /** An entry's position in the list is at most the number of newer backups. */
  lemma PositionIsRank(target: Path, backups: seq<BackupInfo>, ticks: set<nat>, i: nat)
    requires Descending(target, backups) && i < |backups|
    requires forall b :: b in backups ==> b.modified in ticks
    ensures |Above(ticks, backups[i].modified)| >= i
  {
    var listed := Listed(backups, i);
    ListedSize(backups, i);
    forall u | u in listed ensures u in Above(ticks, backups[i].modified) {
      var k :| 0 <= k < i && backups[k].modified == u;
      assert backups[k] in backups;
    }
    SubsetSize(listed, Above(ticks, backups[i].modified));
  }

  /** When nothing was left out of the list, it is exactly that number. */
  lemma FullListRank(target: Path, backups: seq<BackupInfo>, ticks: set<nat>, i: nat)
    requires Descending(target, backups) && i < |backups|
    requires forall t :: t in ticks ==> Info(target, t) in backups
    ensures |Above(ticks, backups[i].modified)| <= i
  {
    var listed := Listed(backups, i);
    ListedSize(backups, i);
    forall u | u in Above(ticks, backups[i].modified) ensures u in listed {
      var k :| 0 <= k < |backups| && backups[k] == Info(target, u);
      assert backups[k].modified == u;
    }
    SubsetSize(Above(ticks, backups[i].modified), listed);
  }

  /** The paths of the entries from `from` on, up to `to`. */
  ghost function Gone(backups: seq<BackupInfo>, from: nat, to: nat): (paths: set<Path>)
    requires from <= to <= |backups|
    ensures forall p :: p in paths <==> exists k :: from <= k < to && backups[k].path == p
  {
    if from == to then {} else Gone(backups, from, to - 1) + {backups[to - 1].path}
  }

  lemma NothingGone(files: Files, backups: seq<BackupInfo>, from: nat)
    requires from <= |backups|
    ensures files - Gone(backups, from, from) == files
  {
  }

  lemma GoneStep(files: Files, backups: seq<BackupInfo>, from: nat, i: nat)
    requires from <= i < |backups|
    ensures files - Gone(backups, from, i) - {backups[i].path} == files - Gone(backups, from, i + 1)
  {
    assert Gone(backups, from, i + 1) == Gone(backups, from, i) + {backups[i].path};
  }

  lemma StillThere(files: Files, target: Path, backups: seq<BackupInfo>, retain: nat, i: nat)
    requires Descending(target, backups) && retain <= i < |backups|
    requires forall b :: b in backups ==> b.modified in Ticks(files, target)
    ensures backups[i].path in files - Gone(backups, retain, i)
    ensures backups[i].path in BackupPaths(files, target)
  {
    assert backups[i] in backups && backups[i].path == BackupAt(target, backups[i].modified);
    forall k | retain <= k < i ensures backups[k].path != backups[i].path {
      assert backups[k].modified > backups[i].modified;
      assert backups[k].path.tick == backups[k].modified && backups[i].path.tick == backups[i].modified;
    }
  }

  lemma OneFewer(files: Files, target: Path, tick: nat)
    requires tick in Ticks(files, target)
    ensures |Ticks(files - {BackupAt(target, tick)}, target)| + 1 == |Ticks(files, target)|
  {
    var rest := files - {BackupAt(target, tick)};
    forall u ensures u in Ticks(rest, target) <==> u in Ticks(files, target) && u != tick {
      assert IsBackup(rest, target, BackupAt(target, u)) <==>
        IsBackup(files, target, BackupAt(target, u)) && BackupAt(target, u) != BackupAt(target, tick);
    }
    assert Ticks(rest, target) == Ticks(files, target) - {tick};
  }

  /** One entry goes, or an error ends the removal. */
  /** The last call made is a refused removal. */
  ghost predicate EndsRefused(before: seq<Call>, now: seq<Call>) {
    |before| < |now| && now[|now| - 1].fault && now[|now| - 1].kind == Unlinking
  }

  lemma OnlyLooked(s: Snap, t: Snap)
    requires Observed(s, t)
    ensures !EndsRefused(s.log, t.log)
  {
    if |s.log| < |t.log| { assert t.log[|t.log| - 1].kind != Unlinking; }
  }

  method RemoveNext(disk: Disk, target: Path, backups: seq<BackupInfo>, retain: nat, i: nat, ghost s: Snap,
                    ghost calls: seq<Call>)
    returns (ok: bool)
    requires calls <= disk.log
    requires disk.Valid() && Descending(target, backups) && retain <= i < |backups|
    requires forall b :: b in backups ==> b.modified in Ticks(s.files, target)
    requires Evolves(s, disk.State(), BackupPaths(s.files, target)) && disk.files == s.files - Gone(backups, retain, i)
    modifies disk
    ensures disk.Valid() && disk.clock == old(disk.clock)
    ensures Evolves(s, disk.State(), BackupPaths(s.files, target))
    ensures disk.files == s.files - Gone(backups, retain, if ok then i + 1 else i)
    ensures disk.faults == old(disk.faults) + (if ok then 0 else 1)
    ensures calls <= disk.log && (ok <==> !EndsRefused(calls, disk.log))
    ensures |Ticks(disk.files, target)| + (if ok then 1 else 0) == old(|Ticks(disk.files, target)|)
  {
    ghost var t, all := disk.State(), BackupPaths(s.files, target);
    StillThere(s.files, target, backups, retain, i);
    ok := disk.Unlink(backups[i].path);
    Chain(s, t, disk.State(), all, {backups[i].path}, all);
    GoneStep(s.files, backups, retain, i);
    assert IsBackup(t.files, target, BackupAt(target, backups[i].modified));
    OneFewer(t.files, target, backups[i].modified);
  }

  /** What a listing made between `s` and `t` says. */
  ghost predicate ListedFrom(s: Snap, t: Snap, target: Path, backups: seq<BackupInfo>) {
    && Observed(s, t)
    && Descending(target, backups)
    && (forall b :: b in backups ==> b.modified in Ticks(s.files, target))
    && (t.faults == s.faults ==> forall u :: u in Ticks(s.files, target) ==> Info(target, u) in backups)
  }

  /** The promise of a prune: only old backups go, and the newest `retain` ones stay; without a
      fault exactly those stay. */
  ghost predicate Pruned(s: Snap, t: Snap, target: Path, retain: nat) {
    var before, after := Ticks(s.files, target), Ticks(t.files, target);
    && Evolves(s, t, BackupPaths(s.files, target))
    && (forall p :: p in t.files ==> p in s.files && t.files[p] == s.files[p])
    && after <= before
    && (retain == 0 ==> after == before)
    && (retain > 0 ==> Newest(before, retain) <= after)
    && (retain > 0 && t.faults == s.faults ==> after == Newest(before, retain))
  }

  /** After the entries before `n` have been worked through. */
  lemma PrunedUpTo(s: Snap, t: Snap, target: Path, backups: seq<BackupInfo>, retain: nat, n: nat)
    requires Descending(target, backups) && 0 < retain <= n <= |backups|
    requires forall b :: b in backups ==> b.modified in Ticks(s.files, target)
    requires t.files == s.files - Gone(backups, retain, n)
    requires Evolves(s, t, BackupPaths(s.files, target))
    requires t.faults == s.faults ==>
      n == |backups| && forall u :: u in Ticks(s.files, target) ==> Info(target, u) in backups
    ensures Pruned(s, t, target, retain)
  {
    var before, after := Ticks(s.files, target), Ticks(t.files, target);
    forall u | u in Newest(before, retain) ensures u in after {
      var p := BackupAt(target, u);
      assert IsBackup(s.files, target, p);
      if p in Gone(backups, retain, n) {
        var k :| retain <= k < n && backups[k].path == p;
        assert backups[k] == Info(target, backups[k].modified);
        PositionIsRank(target, backups, before, k);
      }
    }
    if t.faults == s.faults {
      forall u | u in after ensures u in Newest(before, retain) {
        assert IsBackup(t.files, target, BackupAt(target, u));
        var k :| 0 <= k < |backups| && backups[k] == Info(target, u);
        FullListRank(target, backups, before, k);
      }
    }
  }

  /** The removal loop; it ends early when a removal fails. */
  method RemoveBeyond(disk: Disk, target: Path, backups: seq<BackupInfo>, retain: nat, ghost s: Snap,
                      ghost calls: seq<Call>)
    returns (ok: bool, removed: nat)
    requires calls <= disk.log && !EndsRefused(calls, disk.log)
    requires disk.Valid() && retain < |backups| && Descending(target, backups)
    requires forall b :: b in backups ==> b.modified in Ticks(s.files, target)
    requires Evolves(s, disk.State(), BackupPaths(s.files, target)) && disk.files == s.files
    modifies disk
    ensures disk.Valid() && old(disk.clock) == disk.clock
    ensures Evolves(s, disk.State(), BackupPaths(s.files, target))
    ensures retain + removed <= |backups| && disk.files == s.files - Gone(backups, retain, retain + removed)
    ensures |Ticks(disk.files, target)| + removed == |Ticks(s.files, target)|
    ensures calls <= disk.log && (ok <==> !EndsRefused(calls, disk.log))
    ensures if ok then disk.faults == old(disk.faults) && retain + removed == |backups|
            else disk.faults > old(disk.faults)
  {
    removed := 0;
    NothingGone(s.files, backups, retain);
    while retain + removed < |backups|
      invariant retain + removed <= |backups|
      invariant disk.Valid() && disk.clock == old(disk.clock) && disk.faults == old(disk.faults)
      invariant Evolves(s, disk.State(), BackupPaths(s.files, target))
      invariant disk.files == s.files - Gone(backups, retain, retain + removed)
      invariant |Ticks(disk.files, target)| + removed == |Ticks(s.files, target)|
      invariant calls <= disk.log && !EndsRefused(calls, disk.log)
    {
      ok := RemoveNext(disk, target, backups, retain, retain + removed, s, calls);
      if !ok { return; }
      removed := removed + 1;
    }
    ok := true;
  }

  lemma NothingToPrune(s: Snap, t: Snap, target: Path, backups: seq<BackupInfo>, retain: nat)
    requires ListedFrom(s, t, target, backups) && (retain == 0 || |backups| <= retain)
    ensures Pruned(s, t, target, retain)
  {
    var ticks := Ticks(s.files, target);
    if retain > 0 && t.faults == s.faults {
      forall u | u in ticks ensures u in Newest(ticks, retain) {
        var k :| 0 <= k < |backups| && backups[k] == Info(target, u);
        FullListRank(target, backups, ticks, k);
      }
    }
  }

  /** `prune`: removes what lies beyond the first `retain` entries of the list, and throws at the
      first removal that fails. However it ends, the newest ones are all kept. */
  method Prune(disk: Disk, target: Path, retain: nat) returns (ok: bool, removed: nat)
    requires disk.Valid()
    modifies disk
    ensures disk.Valid() && old(disk.clock) == disk.clock
    ensures Pruned(old(disk.State()), disk.State(), target, retain)
    ensures retain == 0 ==> ok && disk.files == old(disk.files)
    ensures ok <==> !EndsRefused(old(disk.log), disk.log)
    ensures !ok ==> disk.faults > old(disk.faults)
    ensures |Ticks(disk.files, target)| + removed == old(|Ticks(disk.files, target)|)
  {
    ghost var s := disk.State();
    var backups := List(disk, target);
    OnlyLooked(s, disk.State());
    removed := 0;
    if retain == 0 || |backups| <= retain {
      NothingToPrune(s, disk.State(), target, backups, retain);
      return true, 0;
    }
    Looked(s, disk.State());
    Chain(s, s, disk.State(), {}, {}, BackupPaths(s.files, target));
    ok, removed := RemoveBeyond(disk, target, backups, retain, s, s.log);
    PrunedUpTo(s, disk.State(), target, backups, retain, retain + removed);
  }

  // ---- retention over runs ----

  /** One attempt: a plan, how its apply ended, and whether a created target stayed behind. */
  datatype Trial = Trial(plan: ChangePlan, outcome: Outcome, leaked: bool)

  /** An apply with any outcome, followed by a prune with any outcome, or by none. */
  ghost predicate Attempt(target: Path, retain: nat, uid: nat, gid: nat, e: Trial, s: Snap, m: Snap, t: Snap) {
    && s.Valid() && e.plan.target == target && Past(target, s.clock)
    && Contract(e.plan, s, m, uid, gid, e.outcome, e.leaked)
    && (t == m || (Pruned(m, t, target, retain) && t.Valid() && t.clock == m.clock))
  }

  lemma OldTicksStay(target: Path, retain: nat, uid: nat, gid: nat, e: Trial, s: Snap, m: Snap, t: Snap, u: nat)
    requires Attempt(target, retain, uid, gid, e, s, m, t) && u < s.clock
    ensures At(m.files, BackupAt(target, u)) == At(s.files, BackupAt(target, u))
    ensures u in Ticks(m.files, target) <==> u in Ticks(s.files, target)
  {
    var p := BackupAt(target, u);
    assert Past(p, s.clock) && p != target;
    assert At(m.Now().files, p) == At(s.Now().files, p);
    assert IsBackup(m.files, target, p) <==> IsBackup(s.files, target, p);
  }

  lemma TicksArePast(target: Path, s: Snap)
    requires s.Valid()
    ensures forall u :: u in Ticks(s.files, target) ==> u < s.clock
  {
    forall u | u in Ticks(s.files, target) ensures u < s.clock {
      assert BackupAt(target, u) in s.files;
    }
  }

  /** An update that was applied, followed by a prune of the same target. */
  ghost predicate Round(target: Path, retain: nat, uid: nat, gid: nat, plan: ChangePlan, result: ApplyResult, s: Snap,
                        m: Snap, t: Snap) {
    && s.Valid() && plan.target == target && plan.kind == Update && Past(target, s.clock)
    && Contract(plan, s, m, uid, gid, Applied(result), false)
    && Pruned(m, t, target, retain) && t.faults == m.faults && t.Valid() && t.clock == m.clock
  }

  /** The update of a round adds the newest backup. */
  lemma UpdateAddsNewest(target: Path, retain: nat, uid: nat, gid: nat, plan: ChangePlan, result: ApplyResult,
                         s: Snap, m: Snap, t: Snap)
    requires retain > 0 && Round(target, retain, uid, gid, plan, result, s, m, t)
    ensures result.backup.Some? && result.backup.value == BackupAt(target, result.backup.value.tick)
    ensures
      var tick := result.backup.value.tick;
      && (forall u :: u in Ticks(s.files, target) ==> u < tick) && s.clock <= tick < t.clock
      && Ticks(m.files, target) == Ticks(s.files, target) + {tick}
  {
    var backup := result.backup.value;
    TicksArePast(target, s);
    forall u | u in Ticks(s.files, target) ensures u in Ticks(m.files, target) {
      OldTicksStay(target, retain, uid, gid, Trial(plan, Applied(result), false), s, m, t, u);
    }
    assert IsBackup(m.files, target, backup);
  }

  /** The backup of a round is the newest, and it holds what the target held before. */
  lemma RoundKeepsNewest(target: Path, retain: nat, uid: nat, gid: nat, plan: ChangePlan, result: ApplyResult,
                         s: Snap, m: Snap, t: Snap)
    requires retain > 0 && Round(target, retain, uid, gid, plan, result, s, m, t)
    ensures result.backup.Some? && result.backup.value == BackupAt(target, result.backup.value.tick)
    ensures
      var tick := result.backup.value.tick;
      && (forall u :: u in Ticks(s.files, target) ==> u < tick) && s.clock <= tick < t.clock
      && Ticks(m.files, target) == Ticks(s.files, target) + {tick}
      && Ticks(t.files, target) == Newest(Ticks(s.files, target) + {tick}, retain)
      && tick in Ticks(t.files, target)
      && (forall u :: u in Ticks(t.files, target) ==> u <= tick)
      && At(t.files, result.backup.value) == At(s.files, target)
  {
    UpdateAddsNewest(target, retain, uid, gid, plan, result, s, m, t);
    var backup := result.backup.value;
    assert backup.tick in Ticks(t.files, target);
    assert IsBackup(t.files, target, backup);
  }

  lemma AboveAdd(ticks: set<nat>, b: nat, t: nat)
    requires t in ticks && forall u :: u in ticks ==> u < b
    ensures |Above(ticks + {b}, t)| == |Above(ticks, t)| + 1
  {
    assert Above(ticks + {b}, t) == Above(ticks, t) + {b};
    assert b !in Above(ticks, t);
  }

  lemma AboveNothing(ticks: set<nat>, b: nat)
    requires forall u :: u in ticks ==> u < b
    ensures |Above(ticks + {b}, b)| == 0
  {
    assert Above(ticks + {b}, b) == {};
  }

  /** Among the newest, an element has the same newer ones as before. */
  lemma AboveKept(ticks: set<nat>, retain: nat, t: nat)
    requires t in Newest(ticks, retain)
    ensures Above(Newest(ticks, retain), t) == Above(ticks, t)
  {
    forall u | u in Above(ticks, t) ensures u in Newest(ticks, retain) {
      SubsetSize(Above(ticks, u), Above(ticks, t));
    }
  }

  /** The newest of what a newer element is added to. */
  lemma NewestAdd(ticks: set<nat>, retain: nat, b: nat)
    requires retain > 0 && forall u :: u in ticks ==> u < b
    ensures Newest(ticks + {b}, retain) == Newest(ticks, retain - 1) + {b}
  {
    AboveNothing(ticks, b);
    forall t | t in ticks ensures t in Newest(ticks + {b}, retain) <==> t in Newest(ticks, retain - 1) {
      AboveAdd(ticks, b, t);
    }
  }

  lemma NewestOfNewest(ticks: set<nat>, retain: nat)
    requires retain > 0
    ensures Newest(Newest(ticks, retain), retain - 1) == Newest(ticks, retain - 1)
  {
    forall t | t in Newest(ticks, retain)
      ensures Above(Newest(ticks, retain), t) == Above(ticks, t)
    {
      AboveKept(ticks, retain, t);
    }
  }

  lemma NewestAbsorbs(ticks: set<nat>, retain: nat, b: nat)
    requires retain > 0 && forall u :: u in ticks ==> u < b
    ensures Newest(Newest(ticks, retain) + {b}, retain) == Newest(ticks + {b}, retain)
  {
    NewestAdd(ticks, retain, b);
    NewestAdd(Newest(ticks, retain), retain, b);
    NewestOfNewest(ticks, retain);
  }

  lemma AddOne(a: set<nat>, b: set<nat>, top: nat)
    requires a == b + {top}
    ensures |a| <= |b| + 1
  {
  }

  lemma NewestStep(rest: set<nat>, retain: nat, top: nat)
    requires retain > 0 && forall u :: u in rest ==> u < top
    ensures |Newest(rest + {top}, retain)| <= |Newest(rest, retain - 1)| + 1
  {
    NewestAdd(rest, retain, top);
    AddOne(Newest(rest + {top}, retain), Newest(rest, retain - 1), top);
  }

  lemma {:induction false} Greatest(ticks: set<nat>) returns (top: nat)
    requires ticks != {}
    ensures top in ticks && forall u :: u in ticks ==> u <= top
    decreases |ticks|
  {
    top :| top in ticks;
    if ticks != {top} {
      var rest := Greatest(ticks - {top});
      assert forall u :: u in ticks ==> u == top || u in ticks - {top};
      if rest > top { top := rest; }
    } else {
      assert forall u :: u in ticks ==> u == top;
    }
  }

  lemma WithoutGreatest(ticks: set<nat>) returns (rest: set<nat>, top: nat)
    requires ticks != {}
    ensures ticks == rest + {top} && |rest| < |ticks| && forall u :: u in rest ==> u < top
  {
    top := Greatest(ticks);
    rest := ticks - {top};
  }

  lemma {:induction false} NewestIsSmall(ticks: set<nat>, retain: nat)
    ensures |Newest(ticks, retain)| <= retain
    decreases |ticks|
  {
    if retain == 0 || ticks == {} {
      assert Newest(ticks, retain) == {};
    } else {
      var rest, top := WithoutGreatest(ticks);
      NewestIsSmall(rest, retain - 1);
      NewestStep(rest, retain, top);
    }
  }

  datatype Applying = Applying(plan: ChangePlan, result: ApplyResult)

  /** A run: successful updates, each followed by a prune. `middles` are the states in between. */
  ghost predicate Rounds(target: Path, retain: nat, uid: nat, gid: nat, applied: seq<Applying>, states: seq<Snap>,
                         middles: seq<Snap>) {
    && |states| == |applied| + 1 && |middles| == |applied|
    && forall i :: 0 <= i < |applied| ==>
         Round(target, retain, uid, gid, applied[i].plan, applied[i].result, states[i], middles[i], states[i + 1])
  }

  /** The creation ticks of the backups a run makes. */
  ghost function Created(applied: seq<Applying>): set<nat> {
    set a | a in applied && a.result.backup.Some? && a.result.backup.value.Generated? :: a.result.backup.value.tick
  }

  /** What a run leaves behind, given all backups that ever existed. */
  ghost predicate Retained(all: set<nat>, left: set<nat>, retain: nat, clock: nat) {
    && left == Newest(all, retain) && |left| <= retain
    && forall u :: u in all ==> u < clock
  }

  /** One more round. */
  lemma RetainedStep(target: Path, retain: nat, uid: nat, gid: nat, a: Applying, s: Snap, m: Snap, t: Snap,
                     all: set<nat>)
    requires retain > 0 && Round(target, retain, uid, gid, a.plan, a.result, s, m, t)
    requires Ticks(s.files, target) == all || Retained(all, Ticks(s.files, target), retain, s.clock)
    ensures a.result.backup.Some? && a.result.backup.value.Generated?
    ensures Retained(all + {a.result.backup.value.tick}, Ticks(t.files, target), retain, t.clock)
  {
    RoundKeepsNewest(target, retain, uid, gid, a.plan, a.result, s, m, t);
    var tick := a.result.backup.value.tick;
    if Ticks(s.files, target) != all {
      NewestAbsorbs(all, retain, tick);
    }
    NewestIsSmall(all + {tick}, retain);
  }

  lemma LastRound(target: Path, retain: nat, uid: nat, gid: nat, applied: seq<Applying>, states: seq<Snap>,
                  middles: seq<Snap>)
    requires applied != [] && Rounds(target, retain, uid, gid, applied, states, middles)
    ensures
      var n := |applied| - 1;
      && Rounds(target, retain, uid, gid, applied[..n], states[..n + 1], middles[..n])
      && Round(target, retain, uid, gid, applied[n].plan, applied[n].result, states[n], middles[n], states[n + 1])
  {
  }

  lemma NothingCreated()
    ensures Created([]) == {}
  {
  }

  lemma CreatedAppend(applied: seq<Applying>, a: Applying)
    requires a.result.backup.Some? && a.result.backup.value.Generated?
    ensures Created(applied + [a]) == Created(applied) + {a.result.backup.value.tick}
  {
    assert a in applied + [a];
    forall x | x in applied ensures x in applied + [a] {}
    forall x | x in applied + [a] ensures x in applied || x == a {}
  }

  /** However long the run: the backups are exactly the newest `retain` of all that ever existed,
      and at most `retain` of them. */
  lemma {:induction false} RetentionOverRuns(target: Path, retain: nat, uid: nat, gid: nat,
                                             applied: seq<Applying>, states: seq<Snap>, middles: seq<Snap>)
    requires retain > 0 && applied != [] && Rounds(target, retain, uid, gid, applied, states, middles)
    ensures
      var first, last := states[0], states[|applied|];
      Retained(Ticks(first.files, target) + Created(applied), Ticks(last.files, target), retain, last.clock)
  {
    var n := |applied| - 1;
    var first, a := Ticks(states[0].files, target), applied[n];
    assert applied == applied[..n] + [a];
    LastRound(target, retain, uid, gid, applied, states, middles);
    if n > 0 {
      RetentionOverRuns(target, retain, uid, gid, applied[..n], states[..n + 1], middles[..n]);
    } else {
      NothingCreated();
      assert applied[..n] == [] && first + {} == first;
    }
    var all := first + Created(applied[..n]);
    RetainedStep(target, retain, uid, gid, a, states[n], middles[n], states[n + 1], all);
    CreatedAppend(applied[..n], a);
    assert first + Created(applied) == all + {a.result.backup.value.tick};
  }

  // ---- retention when anything fails ----

  /** Any attempts one after the other. `middles` are the states between apply and prune. */
  ghost predicate Attempts(target: Path, retain: nat, uid: nat, gid: nat, trials: seq<Trial>, states: seq<Snap>,
                           middles: seq<Snap>) {
    && |states| == |trials| + 1 && |middles| == |trials|
    && forall i :: 0 <= i < |trials| ==>
         Attempt(target, retain, uid, gid, trials[i], states[i], middles[i], states[i + 1])
  }

  /** All backups that ever existed: those of the start, and those after each apply. */
  ghost function Seen(target: Path, start: Snap, middles: seq<Snap>): set<nat> {
    if middles == [] then Ticks(start.files, target)
    else Seen(target, start, middles[..|middles| - 1]) + Ticks(middles[|middles| - 1].files, target)
  }

  /** The newest backups ever made are still there, and nothing else than what was made. */
  ghost predicate Safe(all: set<nat>, left: set<nat>, retain: nat, clock: nat) {
    Newest(all, retain) <= left <= all && forall u :: u in all ==> u < clock
  }

  /** The backups of `t` are files of `s`, unchanged. */
  ghost predicate Carried(target: Path, s: Snap, t: Snap) {
    forall u :: u in Ticks(t.files, target) && u in Ticks(s.files, target) ==>
      At(t.files, BackupAt(target, u)) == At(s.files, BackupAt(target, u))
  }

  /** The newest of more are the newest of each part they are in. */
  lemma NewestOfPart(part: set<nat>, all: set<nat>, retain: nat, u: nat)
    requires part <= all && u in part && u in Newest(all, retain)
    ensures u in Newest(part, retain)
  {
    SubsetSize(Above(part, u), Above(all, u));
  }

  lemma AttemptStep(target: Path, retain: nat, uid: nat, gid: nat, e: Trial, s: Snap, m: Snap, t: Snap, all: set<nat>)
    requires Attempt(target, retain, uid, gid, e, s, m, t)
    requires Safe(all, Ticks(s.files, target), retain, s.clock)
    ensures Safe(all + Ticks(m.files, target), Ticks(t.files, target), retain, t.clock)
    ensures Carried(target, m, t) && Ticks(t.files, target) <= Ticks(m.files, target) && s.clock <= t.clock
  {
    var made, left := Ticks(m.files, target), Ticks(t.files, target);
    TicksArePast(target, m);
    forall u | u in Newest(all + made, retain) ensures u in left {
      if u in all {
        NewestOfPart(all, all + made, retain, u);
        OldTicksStay(target, retain, uid, gid, e, s, m, t, u);
      }
      NewestOfPart(made, all + made, retain, u);
    }
  }

  lemma LastAttempt(target: Path, retain: nat, uid: nat, gid: nat, trials: seq<Trial>, states: seq<Snap>,
                    middles: seq<Snap>)
    requires trials != [] && Attempts(target, retain, uid, gid, trials, states, middles)
    ensures
      var n := |trials| - 1;
      && Attempts(target, retain, uid, gid, trials[..n], states[..n + 1], middles[..n])
      && Attempt(target, retain, uid, gid, trials[n], states[n], middles[n], states[n + 1])
  {
  }

  lemma {:induction false} SeenHolds(target: Path, start: Snap, middles: seq<Snap>)
    ensures Ticks(start.files, target) <= Seen(target, start, middles)
    ensures forall i :: 0 <= i < |middles| ==> Ticks(middles[i].files, target) <= Seen(target, start, middles)
  {
    if middles != [] {
      var n := |middles| - 1;
      SeenHolds(target, start, middles[..n]);
      forall i | 0 <= i < n ensures Ticks(middles[i].files, target) <= Seen(target, start, middles) {
        assert middles[..n][i] == middles[i];
      }
    }
  }

  lemma CarriedOn(target: Path, retain: nat, uid: nat, gid: nat, e: Trial, s: Snap, m: Snap, t: Snap, origin: Snap)
    requires Attempt(target, retain, uid, gid, e, s, m, t) && Carried(target, origin, s) && Carried(target, m, t)
    requires Ticks(t.files, target) <= Ticks(m.files, target)
    requires forall u :: u in Ticks(origin.files, target) ==> u < s.clock
    ensures Carried(target, origin, t)
  {
    forall u | u in Ticks(t.files, target) && u in Ticks(origin.files, target)
      ensures At(t.files, BackupAt(target, u)) == At(origin.files, BackupAt(target, u))
    {
      OldTicksStay(target, retain, uid, gid, e, s, m, t, u);
    }
  }

  /** Whatever fails in however long a run, the newest `retain` of all backups that ever existed are
      still there. */
  lemma {:induction false} NewestSurvive(target: Path, retain: nat, uid: nat, gid: nat, trials: seq<Trial>,
                                         states: seq<Snap>, middles: seq<Snap>)
    requires states != [] && states[0].Valid() && Attempts(target, retain, uid, gid, trials, states, middles)
    ensures
      var last := states[|trials|];
      Safe(Seen(target, states[0], middles), Ticks(last.files, target), retain, last.clock)
  {
    if trials == [] {
      TicksArePast(target, states[0]);
    } else {
      var n := |trials| - 1;
      LastAttempt(target, retain, uid, gid, trials, states, middles);
      NewestSurvive(target, retain, uid, gid, trials[..n], states[..n + 1], middles[..n]);
      AttemptStep(target, retain, uid, gid, trials[n], states[n], middles[n], states[n + 1],
                  Seen(target, states[0], middles[..n]));
    }
  }

  /** And each backup that is there is the file it was when it was made. */
  lemma {:induction false} SurvivorsAreUnchanged(target: Path, retain: nat, uid: nat, gid: nat, trials: seq<Trial>,
                                                 states: seq<Snap>, middles: seq<Snap>)
    requires states != [] && states[0].Valid() && Attempts(target, retain, uid, gid, trials, states, middles)
    ensures Carried(target, states[0], states[|trials|])
    ensures forall i :: 0 <= i < |middles| ==> Carried(target, middles[i], states[|trials|])
  {
    if trials != [] {
      var n := |trials| - 1;
      var s, m, t := states[n], middles[n], states[n + 1];
      LastAttempt(target, retain, uid, gid, trials, states, middles);
      NewestSurvive(target, retain, uid, gid, trials[..n], states[..n + 1], middles[..n]);
      AttemptStep(target, retain, uid, gid, trials[n], s, m, t, Seen(target, states[0], middles[..n]));
      SeenHolds(target, states[0], middles[..n]);
      SurvivorsAreUnchanged(target, retain, uid, gid, trials[..n], states[..n + 1], middles[..n]);
      CarriedOn(target, retain, uid, gid, trials[n], s, m, t, states[0]);
      forall i | 0 <= i < n ensures Carried(target, middles[i], t) {
        assert middles[..n][i] == middles[i];
        CarriedOn(target, retain, uid, gid, trials[n], s, m, t, middles[i]);
      }
    }
  }
}
