/** The Btrfs top level: where each subvolume is, and what the client's operations do to it.
    Moving a subvolume carries along the subvolumes nested below it. */
module BtrfsTopology {
  import opened Wrappers

  /** Subvolume id to path below the top level. */
  type Topology = map<nat, string>

  predicate AtOrBelow(p: string, root: string) {
    p == root || (|p| > |root| && p[..|root|] == root && p[|root|] == '/')
  }

  predicate Has(t: Topology, p: string) {
    exists id :: id in t && t[id] == p
  }

  /** Nothing is at the path or below it. */
  predicate Free(t: Topology, p: string) {
    forall id :: id in t ==> !AtOrBelow(t[id], p)
  }

  /** No two subvolumes share a path. */
  ghost predicate Injective(t: Topology) {
    forall a, b :: a in t && b in t && t[a] == t[b] ==> a == b
  }

  function Rebase(p: string, source: string, destination: string): string {
    if AtOrBelow(p, source) then destination + p[|source|..] else p
  }

  function Moved(t: Topology, source: string, destination: string): Topology {
    map id | id in t :: Rebase(t[id], source, destination)
  }

  /** Two paths neither of which is at or below the other. */
  predicate Unrelated(p: string, q: string) {
    !AtOrBelow(p, q) && !AtOrBelow(q, p)
  }

  lemma RebaseIsBelow(p: string, source: string, destination: string)
    requires AtOrBelow(p, source)
    ensures AtOrBelow(Rebase(p, source, destination), destination)
    ensures Rebase(Rebase(p, source, destination), destination, source) == p
  {
    var q := destination + p[|source|..];
    assert q[..|destination|] == destination && q[|destination|..] == p[|source|..];
    assert p == source + p[|source|..];
    if p != source { assert q[|destination|] == p[|source|]; }
  }

  /** A path below two roots puts one of them below the other. */
  lemma BelowOne(p: string, a: string, b: string)
    requires AtOrBelow(p, a) && AtOrBelow(p, b)
    ensures AtOrBelow(a, b) || AtOrBelow(b, a)
  {
    if |a| <= |b| {
      assert b[..|a|] == p[..|b|][..|a|] == p[..|a|] == a;
      if |a| < |b| { assert b[|a|] == p[|a|]; }
    } else {
      assert a[..|b|] == p[..|a|][..|b|] == p[..|b|] == b;
      assert a[|b|] == p[|b|];
    }
  }

  /** A move to a free path keeps paths distinct, and moving back restores every path. */
  lemma MovedIsReversible(t: Topology, source: string, destination: string)
    requires Injective(t) && Free(t, destination) && !AtOrBelow(destination, source)
    ensures Injective(Moved(t, source, destination))
    ensures Moved(Moved(t, source, destination), destination, source) == t
    ensures !AtOrBelow(source, destination) ==> Free(Moved(t, source, destination), source)
  {
    var m := Moved(t, source, destination);
    forall id | id in t
      ensures Rebase(m[id], destination, source) == t[id]
      ensures AtOrBelow(t[id], source) <==> AtOrBelow(m[id], destination)
    {
      if AtOrBelow(t[id], source) { RebaseIsBelow(t[id], source, destination); }
    }
    forall a, b | a in m && b in m && m[a] == m[b] ensures a == b {
      assert t[a] == Rebase(m[a], destination, source) && t[b] == Rebase(m[b], destination, source);
    }
    if !AtOrBelow(source, destination) {
      forall id | id in m ensures !AtOrBelow(m[id], source) {
        if AtOrBelow(t[id], source) {
          RebaseIsBelow(t[id], source, destination);
          if AtOrBelow(m[id], source) { BelowOne(m[id], source, destination); }
        }
      }
    }
  }

  /** Moving a path that only one subvolume uses. */
  lemma MovedAlone(t: Topology, id: nat, source: string, destination: string)
    requires id !in t && Free(t, source)
    ensures Moved(t[id := source], source, destination) == t[id := destination]
  {
    assert destination + source[|source|..] == destination;
  }

  /** A subvolume outside the source is unaffected by a move. */
  lemma MovedBeside(t: Topology, id: nat, p: string, source: string, destination: string)
    requires id !in t && !AtOrBelow(p, source)
    ensures Moved(t[id := p], source, destination) == Moved(t, source, destination)[id := p]
  {
  }

  lemma FreeAfterMove(t: Topology, source: string, destination: string, p: string)
    requires Free(t, p) && Unrelated(destination, p)
    ensures Free(Moved(t, source, destination), p)
  {
    forall id | id in t ensures !AtOrBelow(Rebase(t[id], source, destination), p) {
      if AtOrBelow(t[id], source) {
        RebaseIsBelow(t[id], source, destination);
        if AtOrBelow(Rebase(t[id], source, destination), p) {
          BelowOne(Rebase(t[id], source, destination), destination, p);
        }
      }
    }
  }

  predicate Movable(t: Topology, source: string, destination: string) {
    Has(t, source) && Free(t, destination) && !AtOrBelow(destination, source)
  }

  /** The client on a mounted top level. */
  class BtrfsClient {
    var located: Topology
    var copiedFrom: map<nat, nat>    // writable snapshots and their sources
    var nextId: nat
    var mounted: bool
    var locked: bool                 // the rollback lock is held
    var faults: nat
    ghost var trace: seq<Topology>
    ghost var synced: bool                  // nothing changed since the last sync
    ghost var shown: Option<set<string>>    // the last listing, if nothing changed since

    constructor (topology: Topology, nextId: nat)
      requires Injective(topology) && forall id :: id in topology ==> id < nextId
      ensures Valid() && located == topology && !mounted && !locked && faults == 0 && copiedFrom == map[]
    {
      located, this.nextId, mounted, locked, faults := topology, nextId, false, false, 0;
      copiedFrom, trace, synced, shown := map[], [topology], true, None;
    }

    ghost predicate Valid()
      reads this
    {
      && Injective(located)
      && (forall id :: id in located ==> id < nextId)
      && |trace| > 0 && trace[|trace| - 1] == located
      && forall k :: 0 <= k < |trace| ==> trace[k].Keys <= located.Keys   // nothing that ever was is gone
    }

    method Fails() returns (fault: bool)
      modifies this`faults
      ensures faults == old(faults) + (if fault then 1 else 0)
    {
      fault := *;
      if fault { faults := faults + 1; }
    }

    /** Runtime directory, lock file and `flock`. */
    method Lock() returns (ok: bool)
      requires Valid()
      modifies this`faults, this`locked
      ensures Valid() && locked == ok && faults == old(faults) + (if ok then 0 else 1)
    {
      var fault := Fails();
      ok, locked := !fault, !fault;
    }

    method MountTopLevel() returns (ok: bool)
      requires Valid()
      modifies this`faults, this`mounted
      ensures Valid() && mounted == (old(mounted) || ok)
      ensures faults == old(faults) + (if ok then 0 else 1)
    {
      var fault := Fails();
      ok := !fault;
      if ok { mounted := true; }
    }

    method Unmount() returns (ok: bool)
      requires Valid()
      modifies this`faults, this`mounted
      ensures Valid() && mounted == (old(mounted) && !ok)
      ensures faults == old(faults) + (if ok then 0 else 1)
    {
      var fault := Fails();
      ok := !fault;
      if ok { mounted := false; }
    }

    method SyncFilesystem() returns (ok: bool)
      requires Valid()
      modifies this`faults, this`synced
      ensures Valid() && faults == old(faults) + (if ok then 0 else 1) && synced == (old(synced) || ok)
    {
      var fault := Fails();
      ok := !fault;
      if ok { synced := true; }
    }

    /** A writable snapshot of a present source at a free destination. */
    method CreateWritableSnapshot(source: string, destination: string) returns (ok: bool, ghost id: nat)
      requires Valid()
      modifies this
      ensures Valid() && mounted == old(mounted) && trace == old(trace) + [located]
      ensures faults == old(faults) || (!ok && faults == old(faults) + 1)
      ensures !ok && faults == old(faults) ==> !old(Has(located, source)) || !old(Free(located, destination))
      ensures ok ==>
        && old(Has(located, source)) && old(Free(located, destination))
        && id == old(nextId) && id !in old(located) && located == old(located)[id := destination]
        && id in copiedFrom && copiedFrom[id] in old(located) && old(located)[copiedFrom[id]] == source
      ensures !ok ==> located == old(located)
      ensures synced == (old(synced) && !ok) && shown == None
    {
      ok, id := false, nextId;
      shown := None;
      if Has(located, source) && Free(located, destination) {
        var fault := Fails();
        if !fault {
          ok := true;
          var origin :| origin in located && located[origin] == source;
          located, copiedFrom := located[nextId := destination], copiedFrom[nextId := origin];
          nextId, synced := nextId + 1, false;
        }
      }
      trace := trace + [located];
    }

    /** `rename` of a subvolume, with everything below it. */
    method MoveSubvolume(source: string, destination: string) returns (ok: bool)
      requires Valid()
      modifies this
      ensures Valid() && mounted == old(mounted) && trace == old(trace) + [located]
      ensures copiedFrom == old(copiedFrom) && nextId == old(nextId)
      ensures faults == old(faults) || (!ok && faults == old(faults) + 1)
      ensures !ok && faults == old(faults) ==> !old(Movable(located, source, destination))
      ensures located == if ok then Moved(old(located), source, destination) else old(located)
      ensures ok ==> old(Movable(located, source, destination))
      ensures synced == (old(synced) && !ok) && shown == None
    {
      ok := false;
      shown := None;
      if Movable(located, source, destination) {
        var fault := Fails();
        if !fault {
          assert Injective(Moved(located, source, destination)) by { MovedIsReversible(located, source, destination); }
          ok, located, synced := true, Moved(located, source, destination), false;
        }
      }
      trace := trace + [located];
    }

    /** The subvolume paths; a faulty listing fails or shows anything. */
    method ListSubvolumes() returns (paths: Option<set<string>>)
      requires Valid()
      modifies this`faults, this`shown
      ensures Valid() && (faults == old(faults) || faults == old(faults) + 1) && shown == paths
      ensures faults == old(faults) ==> paths == Some(set id | id in located :: located[id])
    {
      var fault := Fails();
      if fault {
        paths := *;
      } else {
        paths := Some(set id | id in located :: located[id]);
      }
      shown := paths;
    }
  }
}
