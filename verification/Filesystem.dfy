/** The disk the transactions run on, and the file operations built on it
    (`secure_file_ops.cpp`). Every system call may fail; every change of the disk is recorded,
    so that contracts can speak about all intermediate states and not only the last one. */
module Filesystem {
  import opened Wrappers

  /** A path is given by the caller, or generated next to another path from a clock tick
      (`unique_sibling_path`, `backup_name`). */
  datatype Path =
    | Named(name: string)
    | Generated(of: Path, suffix: string, tick: nat)

  /** A regular file with permission bits and owner, or anything else (symbolic link, directory). */
  datatype Node =
    | Regular(bytes: string, mode: nat, uid: nat, gid: nat)
    | Special

  type Files = map<Path, Node>

  function At(files: Files, p: Path): Option<Node> {
    if p in files then Some(files[p]) else None
  }

  /** Generated names carry distinct ticks; a path is past when the clock has already left it. */
  predicate Past(p: Path, clock: nat) {
    p.Generated? ==> p.tick < clock
  }

  /** The system calls and commands that may fail, by what they are made on. */
  datatype Kind =
    | Locking | Inspecting | Reading | Creating | Writing | Syncing | SyncingDirectory | Unlinking | Renaming
    | Running(program: string, argument: string) | Hooked

  /** One call that was made, with the answer of the oracle; a rename counts at its destination. A
      call that fails only because its file is missing, or is in the way, is not asked about. */
  datatype Call = Call(kind: Kind, path: Path, fault: bool)

  /** What the medium holds at one moment: the tree, the files whose content is not synchronised,
      and for each entry that is not synchronised the other values it may still fall back to. */
  datatype Moment = Moment(files: Files, dirty: set<Path>, names: map<Path, iset<Option<Node>>>)

  /** After a power failure at this moment the path may hold the value: what the tree says, any
      content if the file is not synchronised, or an earlier entry if its directory is not. */
  ghost predicate MayRecover(m: Moment, p: Path, v: Option<Node>) {
    || v == At(m.files, p)
    || (p in m.dirty && v.Some?)
    || (p in m.names && v in m.names[p])
  }

  ghost function Anything(): iset<Option<Node>> {
    iset v: Option<Node> | v.None? || v.Some?
  }

  ghost function Possible(m: Moment, p: Path): iset<Option<Node>> {
    iset v: Option<Node> | MayRecover(m, p, v)
  }

  /** A tree that a power failure at this moment may leave. */
  ghost predicate Recovered(m: Moment, after: Files) {
    forall p: Path :: MayRecover(m, p, At(after, p))
  }

  /** The two moments agree on every past path outside `touched`: it has the same node, and no
      less of it is synchronised. */
  ghost predicate Agree(now: Moment, before: Moment, clock: nat, touched: set<Path>) {
    forall p: Path :: Past(p, clock) && p !in touched ==>
      && At(now.files, p) == At(before.files, p)
      && (p in now.dirty ==> p in before.dirty)
      && (p in now.names ==> p in before.names && now.names[p] <= before.names[p])
  }

  /** The value of a disk: its tree, the clock naming generated files, the number of failures so
      far, every moment it has gone through, what is not synchronised, and the calls made. */
  datatype Snap = Snap(files: Files, clock: nat, faults: nat, trace: seq<Moment>, dirty: set<Path>,
                       names: map<Path, iset<Option<Node>>>, log: seq<Call>)
  {
    ghost predicate Valid() {
      && |trace| > 0
      && trace[|trace| - 1] == Now()
      && forall p: Path :: p in files ==> Past(p, clock)
    }

    ghost function Now(): Moment { Moment(files, dirty, names) }

    /** One call is made, and `fault` says whether the oracle lets it fail. */
    ghost function Logged(kind: Kind, path: Path, fault: bool): Snap {
      this.(faults := faults + (if fault then 1 else 0), log := log + [Call(kind, path, fault)])
    }

    /** The medium moves on. */
    ghost function Becomes(m: Moment): Snap {
      this.(files := m.files, dirty := m.dirty, names := m.names, trace := trace + [m])
    }

    ghost predicate Durable(p: Path) {
      p !in dirty && p !in names
    }
  }

  /** The call was made between `s` and `t`. */
  ghost predicate Happened(s: Snap, t: Snap, call: Call) {
    exists k :: |s.log| <= k < |t.log| && t.log[k] == call
  }

  /** All calls between `s` and `t` were made on `p`. */
  ghost predicate Concerns(s: Snap, t: Snap, p: Path) {
    forall k :: |s.log| <= k < |t.log| ==> t.log[k].path == p
  }

  ghost predicate OnlyReads(s: Snap, t: Snap, p: Path) {
    forall k :: |s.log| <= k < |t.log| ==> t.log[k].kind == Reading && t.log[k].path == p
  }

  /** The last call between `s` and `t` was refused. */
  ghost predicate EndsInFault(s: Snap, t: Snap) {
    |s.log| < |t.log| && t.log[|t.log| - 1].fault
  }

  /** From `s` to `t` the disk was only looked at. */
  ghost predicate Observed(s: Snap, t: Snap) {
    && t == s.(faults := t.faults, log := t.log) && s.faults <= t.faults && s.log <= t.log
    && forall k :: |s.log| <= k < |t.log| ==> t.log[k].kind != Unlinking
  }

  lemma HappenedChain(s: Snap, t: Snap, u: Snap, call: Call)
    requires s.log <= t.log <= u.log
    ensures Happened(s, u, call) <==> Happened(s, t, call) || Happened(t, u, call)
  {
    if Happened(s, t, call) {
      var k :| |s.log| <= k < |t.log| && t.log[k] == call;
      assert u.log[k] == call;
    }
    if Happened(s, u, call) {
      var k :| |s.log| <= k < |u.log| && u.log[k] == call;
      assert k < |t.log| ==> t.log[k] == call;
    }
  }

  lemma HappenedAmong(s: Snap, t: Snap, calls: seq<Call>, call: Call)
    requires t.log == s.log + calls
    ensures Happened(s, t, call) <==> call in calls
  {
    if call in calls {
      var k :| 0 <= k < |calls| && calls[k] == call;
      assert t.log[|s.log| + k] == call;
    }
  }

  /** Between `s` and `t` no past path outside `touched` was asked to be unlinked. */
  ghost predicate Removes(s: Snap, t: Snap, touched: set<Path>) {
    forall k :: |s.log| <= k < |t.log| && t.log[k].kind == Unlinking ==>
      t.log[k].path in touched || !Past(t.log[k].path, s.clock)
  }

  /** From `s` to `t`, at every intermediate moment, no past path outside `touched` changed, and
      a power failure could do no more to it than before. */
  ghost predicate Evolves(s: Snap, t: Snap, touched: set<Path>) {
    && s.clock <= t.clock
    && s.faults <= t.faults
    && s.trace <= t.trace
    && s.log <= t.log
    && Agree(t.Now(), s.Now(), s.clock, touched)
    && Removes(s, t, touched)
    && forall k :: |s.trace| <= k < |t.trace| ==> Agree(t.trace[k], s.Now(), s.clock, touched)
  }

  /** Looking at the disk changes nothing on it. */
  lemma Looked(s: Snap, t: Snap)
    requires Observed(s, t)
    ensures Evolves(s, t, {})
  {
  }

  ghost predicate Recovers(now: Moment, before: Moment, p: Path, values: set<Option<Node>>) {
    forall v: Option<Node> :: MayRecover(now, p, v) ==> v in values || MayRecover(before, p, v)
  }

  /** From `s` to `t`, at every intermediate moment, path `p` holds one of `values`, and can
      recover to nothing else unless it could do so from the start. */
  ghost predicate Shows(s: Snap, t: Snap, p: Path, values: set<Option<Node>>) {
    && (forall k :: |s.trace| <= k < |t.trace| ==> At(t.trace[k].files, p) in values)
    && Recovers(t.Now(), s.Now(), p, values)
    && forall k :: |s.trace| <= k < |t.trace| ==> Recovers(t.trace[k], s.Now(), p, values)
  }

  lemma AgreeChain(now: Moment, mid: Moment, before: Moment, midClock: nat, clock: nat,
                   first: set<Path>, second: set<Path>, touched: set<Path>)
    requires clock <= midClock
    requires Agree(mid, before, clock, first) && Agree(now, mid, midClock, second)
    requires forall p :: p in first + second ==> p in touched || !Past(p, clock)
    ensures Agree(now, before, clock, touched)
  {
    forall p: Path | Past(p, clock) && p !in touched
      ensures At(now.files, p) == At(before.files, p)
      ensures p in now.dirty ==> p in before.dirty
      ensures p in now.names ==> p in before.names && now.names[p] <= before.names[p]
    {
      assert p !in first + second;
    }
  }

  lemma Chain(s: Snap, t: Snap, u: Snap, first: set<Path>, second: set<Path>, touched: set<Path>)
    requires Evolves(s, t, first) && Evolves(t, u, second)
    requires forall p :: p in first + second ==> p in touched || !Past(p, s.clock)
    ensures Evolves(s, u, touched)
  {
    forall k | |s.trace| <= k < |u.trace|
      ensures Agree(u.trace[k], s.Now(), s.clock, touched)
    {
      if k < |t.trace| {
        assert u.trace[k] == t.trace[k];
      } else {
        AgreeChain(u.trace[k], t.Now(), s.Now(), t.clock, s.clock, first, second, touched);
      }
    }
    AgreeChain(u.Now(), t.Now(), s.Now(), t.clock, s.clock, first, second, touched);
    forall k | |s.log| <= k < |u.log| && u.log[k].kind == Unlinking
      ensures u.log[k].path in touched || !Past(u.log[k].path, s.clock)
    {
      if k < |t.log| { assert u.log[k] == t.log[k]; }
      assert u.log[k].path in first + second || !Past(u.log[k].path, s.clock);
    }
  }

  /** Of the files that are new, only those in `kept` and those whose removal was refused are left. */
  ghost predicate LeavesOnly(s: Snap, t: Snap, kept: set<Path>) {
    forall p :: p in t.files ==> p in s.files || p in kept || Happened(s, t, Call(Unlinking, p, true))
  }

  /** Without a new tick every new file is one that was worked on. */
  lemma LeavesTouched(s: Snap, t: Snap, touched: set<Path>)
    requires Evolves(s, t, touched) && t.clock == s.clock && t.Valid()
    ensures LeavesOnly(s, t, touched)
  {
    forall p | p in t.files && p !in touched ensures p in s.files {
      assert At(t.Now().files, p) == At(s.Now().files, p);
    }
  }

  lemma LeavesChain(s: Snap, t: Snap, u: Snap, first: set<Path>, second: set<Path>, kept: set<Path>)
    requires s.log <= t.log <= u.log && LeavesOnly(s, t, first) && LeavesOnly(t, u, second)
    requires forall p :: p in first + second && p in u.files ==>
      p in kept || p in s.files || Happened(s, u, Call(Unlinking, p, true))
    ensures LeavesOnly(s, u, kept)
  {
    forall p | p in u.files && p !in s.files && p !in kept ensures Happened(s, u, Call(Unlinking, p, true)) {
      HappenedChain(s, t, u, Call(Unlinking, p, true));
      if p in first + second { assert p in first + second && p in u.files; }
    }
  }

  lemma RecoversChain(now: Moment, mid: Moment, before: Moment, p: Path, values: set<Option<Node>>)
    requires Recovers(mid, before, p, values) && Recovers(now, mid, p, values)
    ensures Recovers(now, before, p, values)
  {
  }

  lemma ShowsChain(s: Snap, t: Snap, u: Snap, p: Path, values: set<Option<Node>>)
    requires s.trace <= t.trace <= u.trace
    requires Shows(s, t, p, values) && Shows(t, u, p, values)
    ensures Shows(s, u, p, values)
  {
    forall k | |s.trace| <= k < |u.trace|
      ensures At(u.trace[k].files, p) in values && Recovers(u.trace[k], s.Now(), p, values)
    {
      if k < |t.trace| {
        assert u.trace[k] == t.trace[k];
      } else {
        RecoversChain(u.trace[k], t.Now(), s.Now(), p, values);
      }
    }
    RecoversChain(u.Now(), t.Now(), s.Now(), p, values);
  }

  /** A path outside the touched set shows only its old value. */
  lemma ShowsUntouched(s: Snap, t: Snap, p: Path, touched: set<Path>, values: set<Option<Node>>)
    requires Evolves(s, t, touched) && Past(p, s.clock) && p !in touched
    requires At(s.files, p) in values
    ensures Shows(s, t, p, values) && At(t.files, p) == At(s.files, p)
  {
  }

  /** What is done outside `p` does not change whether a removal of `p` was refused. */
  lemma RefusedBefore(s: Snap, t: Snap, u: Snap, touched: set<Path>, p: Path)
    requires s.log <= t.log && Evolves(t, u, touched) && Past(p, t.clock) && p !in touched
    ensures Happened(s, u, Call(Unlinking, p, true)) <==> Happened(s, t, Call(Unlinking, p, true))
  {
    HappenedChain(s, t, u, Call(Unlinking, p, true));
  }

  /** From `s` to `t` nothing but `p` changed, and at every state `p` held one of `values`. */
  ghost predicate Guarded(s: Snap, t: Snap, p: Path, values: set<Option<Node>>) {
    && Evolves(s, t, {p})
    && Shows(s, t, p, values)
    && At(t.files, p) in values
  }

  /** A guarded stretch that begins with looking at the disk. */
  lemma GuardedFrom(s: Snap, t: Snap, u: Snap, p: Path, values: set<Option<Node>>)
    requires Observed(s, t) && Guarded(t, u, p, values)
    ensures Guarded(s, u, p, values)
  {
    Looked(s, t);
    Chain(s, t, u, {}, {p}, {p});
  }

  /** A guarded stretch extended by an operation on files generated during it. */
  lemma GuardedBeside(s: Snap, t: Snap, u: Snap, touched: set<Path>, p: Path, values: set<Option<Node>>)
    requires Guarded(s, t, p, values) && Evolves(t, u, touched)
    requires Past(p, t.clock) && p !in touched
    requires forall q :: q in touched ==> !Past(q, s.clock)
    ensures Guarded(s, u, p, values)
  {
    Chain(s, t, u, {p}, touched, {p});
    ShowsUntouched(t, u, p, touched, values);
    ShowsChain(s, t, u, p, values);
  }

  /** A guarded stretch extended by an operation on `p` itself. */
  lemma GuardedChain(s: Snap, t: Snap, u: Snap, touched: set<Path>, p: Path, values: set<Option<Node>>)
    requires Guarded(s, t, p, values) && Evolves(t, u, touched)
    requires Shows(t, u, p, values) && At(u.files, p) in values
    requires forall q :: q in touched ==> q == p || !Past(q, s.clock)
    ensures Guarded(s, u, p, values)
  {
    Chain(s, t, u, {p}, touched, {p});
    ShowsChain(s, t, u, p, values);
  }

  lemma WrittenStep(front: string, data: string, from: nat, to: nat)
    requires from <= to <= |data|
    ensures front + data[..from] + data[from..to] == front + data[..to]
  {
    assert data[..from] + data[from..to] == data[..to];
  }

  /** What a rename does to the medium: the content moves with its state, and the entries of both
      names are no longer synchronised. */
  ghost function Renamed(m: Moment, source: Path, destination: Path): Moment
    requires source in m.files
  {
    Moment(m.files[destination := m.files[source]] - {source},
           m.dirty - {source, destination} + (if source in m.dirty then {destination} else {}),
           m.names[source := Possible(m, source)][destination := Possible(m, destination)])
  }

  class Disk {
    var files: Files
    var clock: nat
    var faults: nat
    var calls: nat
    ghost var trace: seq<Moment>
    ghost var dirty: set<Path>
    ghost var names: map<Path, iset<Option<Node>>>
    ghost var log: seq<Call>
    ghost var confirmed: Option<(Path, string)>   // the last file read back, and what was delivered
    const euid: nat                               // the owner of the files this process creates
    const egid: nat
    const schedule: (nat, Kind, Path) -> bool     // which calls the oracle lets fail

    constructor (tree: Files, now: nat, uid: nat, gid: nat, schedule: (nat, Kind, Path) -> bool)
      requires forall p: Path :: p in tree ==> Past(p, now)
      ensures Valid() && State() == Snap(tree, now, 0, [Moment(tree, {}, map[])], {}, map[], [])
      ensures euid == uid && egid == gid && this.schedule == schedule
    {
      files, clock, faults, calls := tree, now, 0, 0;
      trace, dirty, names, log := [Moment(tree, {}, map[])], {}, map[], [];
      euid, egid, confirmed, this.schedule := uid, gid, None, schedule;
    }

    ghost function State(): Snap
      reads this
    {
      Snap(files, clock, faults, trace, dirty, names, log)
    }

    ghost function Now(): Moment
      reads this
    {
      Moment(files, dirty, names)
    }

    /** Every call so far had the answer the schedule holds for it. */
    ghost predicate Valid()
      reads this
    {
      && State().Valid()
      && calls == |log|
      && forall k :: 0 <= k < |log| ==> log[k].fault == schedule(k, log[k].kind, log[k].path)
    }

    /** The oracle: any call may fail, as the schedule has it. */
    method Fails(kind: Kind, path: Path) returns (fault: bool)
      requires Valid()
      modifies this`faults, this`calls, this`log
      ensures Valid() && State() == old(State()).Logged(kind, path, fault)
    {
      fault := schedule(calls, kind, path);
      calls, log := calls + 1, log + [Call(kind, path, fault)];
      if fault { faults := faults + 1; }
    }

    /** `unique_sibling_path`: a name no file has had before. */
    method UniquePath(of: Path, suffix: string) returns (p: Path)
      requires Valid()
      modifies this`clock
      ensures Valid() && p == Generated(of, suffix, old(clock)) && clock == old(clock) + 1
      ensures p !in files
    {
      p := Generated(of, suffix, clock);
      assert p !in files by { assert !Past(p, clock); }
      clock := clock + 1;
    }

    method Unlink(p: Path) returns (ok: bool)
      requires Valid()
      modifies this
      ensures Valid()
      ensures ok ==> p in old(files)
      ensures State() ==
        (if p in old(files) then old(State()).Logged(Unlinking, p, !ok) else old(State()))
          .Becomes(if ok then old(Moment(files - {p}, dirty - {p}, names[p := Possible(Now(), p)])) else old(Now()))
      ensures Evolves(old(State()), State(), {p})
    {
      ok := false;
      if p in files {
        var fault := Fails(Unlinking, p);
        if !fault {
          names := names[p := Possible(Now(), p)];
          ok, files, dirty := true, files - {p}, dirty - {p};
        }
      }
      trace := trace + [Now()];
    }

    /** `rename`: the destination is replaced atomically, or nothing happens. If the source is not
        synchronised, the destination is not either, and a power failure may tear it. */
    method Rename(source: Path, destination: Path) returns (ok: bool)
      requires Valid() && source != destination && Past(destination, clock)
      modifies this
      ensures Valid()
      ensures ok ==> source in old(files)
      ensures State() ==
        (if source in old(files) then old(State()).Logged(Renaming, destination, !ok) else old(State()))
          .Becomes(if ok then old(Renamed(Now(), source, destination)) else old(Now()))
      ensures Evolves(old(State()), State(), {source, destination})
    {
      ok := false;
      if source in files {
        var fault := Fails(Renaming, destination);
        if !fault {
          ghost var m := Renamed(Now(), source, destination);
          ok, files := true, files[destination := files[source]] - {source};
          dirty, names := m.dirty, m.names;
        }
      }
      trace := trace + [Now()];
    }

    /** `open` with `O_CREAT | O_EXCL`: the umask and the directory decide mode and owner. */
    method CreateExclusive(p: Path, mode: nat) returns (ok: bool)
      requires Valid() && Past(p, clock)
      modifies this
      ensures Valid()
      ensures ok ==> p !in old(files) && p in files && files[p].Regular? && files[p].bytes == []
      ensures State() ==
        (if p !in old(files) then old(State()).Logged(Creating, p, !ok) else old(State()))
          .Becomes(if ok then Moment(old(files)[p := files[p]], old(dirty) + {p}, old(names[p := Possible(Now(), p)]))
                   else old(Now()))
      ensures Evolves(old(State()), State(), {p})
    {
      ok := false;
      if p !in files {
        var fault := Fails(Creating, p);
        if !fault {
          var created: nat, uid: nat, gid: nat := *, *, *;
          names := names[p := Possible(Now(), p)];
          ok, files, dirty := true, files[p := Regular([], created, uid, gid)], dirty + {p};
        }
      }
      trace := trace + [Now()];
    }

    /** A call on an open file that replaces its node (`write`, `fchmod`, `fchown`) or fails. */
    method Update(p: Path, node: Node) returns (ok: bool)
      requires Valid() && p in files
      modifies this
      ensures Valid()
      ensures State() ==
        old(State()).Logged(Writing, p, !ok)
          .Becomes(Moment(if ok then old(files)[p := node] else old(files), old(dirty) + {p}, old(names)))
      ensures Evolves(old(State()), State(), {p})
    {
      var fault := Fails(Writing, p);
      ok := !fault;
      if ok { files := files[p := node]; }
      dirty := dirty + {p};
      trace := trace + [Now()];
    }

    /** `fsync` of an open file: its content is on the medium, or the call fails. */
    method FsyncFile(p: Path) returns (ok: bool)
      requires Valid()
      modifies this
      ensures Valid()
      ensures State() ==
        old(State()).Logged(Syncing, p, !ok)
          .Becomes(old(Now()).(dirty := if ok then old(dirty) - {p} else old(dirty)))
      ensures Evolves(old(State()), State(), {})
      ensures ok ==> p !in dirty
    {
      var fault := Fails(Syncing, p);
      ok := !fault;
      if ok { dirty := dirty - {p}; }
      trace := trace + [Now()];
    }

    /** `fsync_directory` on the directory of `p`: its entry is on the medium, or the call fails. */
    method FsyncDirectoryOf(p: Path) returns (ok: bool)
      requires Valid()
      modifies this
      ensures Valid()
      ensures State() ==
        old(State()).Logged(SyncingDirectory, p, !ok)
          .Becomes(old(Now()).(names := if ok then old(names) - {p} else old(names)))
      ensures Evolves(old(State()), State(), {})
      ensures ok ==> p !in names
    {
      var fault := Fails(SyncingDirectory, p);
      ok := !fault;
      if ok { names := names - {p}; }
      trace := trace + [Now()];
    }

    /** `lstat`: the node, `None` for a missing file, or a failure other than `ENOENT`. */
    method Lstat(p: Path) returns (ok: bool, node: Option<Node>)
      requires Valid()
      modifies this`faults, this`calls, this`log
      ensures Valid() && State() == old(State()).Logged(Inspecting, p, !ok)
      ensures ok ==> node == At(files, p)
    {
      var fault := Fails(Inspecting, p);
      ok, node := !fault, At(files, p);
    }

    /** `write_all`: short writes and interruptions are retried until all data is written.
        `interruptions` is the arbitrary finite number of calls that make no progress. */
    method WriteAll(p: Path, data: string) returns (ok: bool)
      requires Valid() && p in files && files[p].Regular?
      modifies this
      ensures Valid() && clock == old(clock)
      ensures Evolves(old(State()), State(), {p}) && Concerns(old(State()), State(), p)
      ensures p in files && files[p].Regular? && files == old(files)[p := files[p]]
      ensures ok ==> files[p] == old(files[p]).(bytes := old(files[p]).bytes + data)
      ensures ok <==> faults == old(faults)
      ensures !ok ==> EndsInFault(old(State()), State())
    {
      var interruptions: nat := *;
      var offset := 0;
      ghost var start := State();
      while offset < |data|
        invariant 0 <= offset <= |data|
        invariant Valid() && clock == old(clock) && faults == old(faults)
        invariant Evolves(start, State(), {p}) && Concerns(start, State(), p)
        invariant p in files && files == old(files)[p := files[p]]
        invariant files[p] == old(files[p]).(bytes := old(files[p]).bytes + data[..offset])
        decreases interruptions, |data| - offset
      {
        if interruptions > 0 {
          interruptions := interruptions - 1;   // EINTR, or a write of zero bytes
          continue;
        }
        var more: nat := *;
        var written := if 0 < more <= |data| - offset then more else |data| - offset;
        ghost var before := State();
        ok := Update(p, files[p].(bytes := files[p].bytes + data[offset..offset + written]));
        Chain(start, before, State(), {p}, {p}, {p});
        if !ok { return; }
        WrittenStep(old(files[p]).bytes, data, offset, offset + written);
        offset := offset + written;
      }
      assert data[..offset] == data;
      ok := true;
    }

    /** `read_all` on an open file: blocks of at most 8192 bytes until the end of the file. */
    method ReadAll(p: Path) returns (content: Option<string>)
      requires Valid() && p in files && files[p].Regular?
      modifies this`faults, this`calls, this`log
      ensures Valid() && Observed(old(State()), State()) && OnlyReads(old(State()), State(), p)
      ensures faults == old(faults) + (if content.Some? then 0 else 1)
      ensures content.Some? ==> content.value == files[p].bytes
    {
      var interruptions: nat := *;
      var bytes := files[p].bytes;
      var result: string := [];
      while true
        invariant |result| <= |bytes| && result == bytes[..|result|]
        invariant Valid() && faults == old(faults) && Observed(old(State()), State())
        invariant OnlyReads(old(State()), State(), p)
        decreases interruptions, |bytes| - |result|
      {
        if interruptions > 0 {
          interruptions := interruptions - 1;   // EINTR
          continue;
        }
        var fault := Fails(Reading, p);
        if fault { return None; }
        var rest := |bytes| - |result|;
        if rest == 0 { break; }
        var more: nat := *;
        var count := if 0 < more <= rest && more <= 8192 then more else if rest <= 8192 then rest else 8192;
        result := result + bytes[|result|..|result| + count];
      }
      content := Some(result);
    }

    /** `open` without following links, then `read_all`: only a regular file can be read. */
    method ReadFile(p: Path) returns (content: Option<string>)
      requires Valid()
      modifies this`faults, this`calls, this`log
      ensures Valid() && Observed(old(State()), State()) && OnlyReads(old(State()), State(), p)
      ensures content.Some? ==>
        && faults == old(faults) && p in files && files[p].Regular? && content.value == files[p].bytes
        && Happened(old(State()), State(), Call(Reading, p, false))
      ensures content.None? && p in files && files[p].Regular? ==> faults == old(faults) + 1
    {
      var fault := Fails(Reading, p);
      if fault || p !in files || files[p].Special? { return None; }
      assert State().log[|old(State()).log|] == Call(Reading, p, false);
      content := ReadAll(p);
    }
  }
}
