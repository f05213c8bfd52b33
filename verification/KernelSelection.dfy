/** `select_kernels` in `preview_service.cpp`: which kernels the menu shows, and in which order. */
module KernelSelection {
  import opened Sorting
  import opened Text

  datatype Kernel = Kernel(packageBase: string, running: bool, image: string)

  datatype Selection = Selection(included: seq<string>, excluded: seq<string>, order: seq<string>)

  predicate Selected(kernel: Kernel, config: Selection) {
    && (config.included == [] || kernel.packageBase in config.included)
    && kernel.packageBase !in config.excluded
  }

  function Filter(kernels: seq<Kernel>, config: Selection): seq<Kernel> {
    if kernels == [] then []
    else
      var n := |kernels| - 1;
      Filter(kernels[..n], config) + (if Selected(kernels[n], config) then [kernels[n]] else [])
  }

  /** Position of the first occurrence, or the length of the list. */
  function Rank(name: string, order: seq<string>): nat {
    if order == [] || order[0] == name then 0 else 1 + Rank(name, order[1..])
  }

  /** The rank map: each listed name at its first position (`emplace` keeps the first). */
  function RankMap(order: seq<string>): map<string, nat> {
    map name | name in order :: Rank(name, order)
  }

  /** The comparator: listed kernels by rank and before all others, which come running first and
      then by name. */
  predicate Precedes(rank: map<string, nat>, l: Kernel, r: Kernel) {
    if l.packageBase in rank || r.packageBase in rank then
      if l.packageBase !in rank then false
      else if r.packageBase !in rank then true
      else rank[l.packageBase] < rank[r.packageBase]
    else if l.running != r.running then l.running
    else StringLess(l.packageBase, r.packageBase)
  }

  function Comparator(rank: map<string, nat>): (Kernel, Kernel) -> bool {
    (l, r) => Precedes(rank, l, r)
  }

  lemma {:induction false} RankBound(name: string, order: seq<string>)
    ensures Rank(name, order) <= |order|
    ensures Rank(name, order) == |order| <==> name !in order
    ensures Rank(name, order) < |order| ==> order[Rank(name, order)] == name
    ensures forall i :: 0 <= i < Rank(name, order) ==> order[i] != name
  {
    if order != [] {
      RankBound(name, order[1..]);
      assert order == [order[0]] + order[1..];
    }
  }

  /** The comparator is a strict weak order, whatever is listed, listed twice or not listed. */
  lemma PrecedesIsStrictWeakOrder(rank: map<string, nat>)
    ensures StrictWeakOrder(Comparator(rank))
  {
    var less := Comparator(rank);
    forall x: Kernel ensures !less(x, x) {
      LessIsIrreflexive(x.packageBase);
    }
    forall x: Kernel, y: Kernel, z: Kernel | less(x, y) && less(y, z) ensures less(x, z) {
      if StringLess(x.packageBase, y.packageBase) && StringLess(y.packageBase, z.packageBase) {
        LessIsTransitive(x.packageBase, y.packageBase, z.packageBase);
      }
    }
    forall x: Kernel, y: Kernel, z: Kernel | less(x, z) ensures less(x, y) || less(y, z) {
      LessIsTotal(x.packageBase, y.packageBase);
      LessIsTotal(y.packageBase, z.packageBase);
      if StringLess(y.packageBase, x.packageBase) && StringLess(x.packageBase, z.packageBase) {
        LessIsTransitive(y.packageBase, x.packageBase, z.packageBase);
      }
    }
  }

  lemma FirstPosition(order: seq<string>, i: nat)
    requires i < |order| && order[i] !in order[..i]
    ensures Rank(order[i], order) == i
  {
    RankBound(order[i], order);
    assert forall k :: 0 <= k < i ==> order[..i][k] == order[k];
  }

  /** The loop over the configured order. */
  method BuildRank(order: seq<string>) returns (rank: map<string, nat>)
    ensures rank == RankMap(order)
  {
    rank := map[];
    for i := 0 to |order|
      invariant rank == map name | name in order[..i] :: Rank(name, order)
    {
      assert order[..i + 1] == order[..i] + [order[i]];
      if order[i] !in rank {
        FirstPosition(order, i);
        rank := rank[order[i] := i];
      }
    }
    assert order[..|order|] == order;
  }

  /** How often each kernel is selected. */
  lemma {:induction false} FilterCounts(kernels: seq<Kernel>, config: Selection, k: Kernel)
    ensures multiset(Filter(kernels, config))[k] == if Selected(k, config) then multiset(kernels)[k] else 0
  {
    if kernels != [] {
      var n := |kernels| - 1;
      FilterCounts(kernels[..n], config, k);
      assert kernels == kernels[..n] + [kernels[n]];
    }
  }

  /** `select_kernels`: a stable sorted permutation of the kernels that are included and not
      excluded. */
  method SelectKernels(kernels: seq<Kernel>, config: Selection) returns (selected: seq<Kernel>)
    ensures Sorted(selected, Comparator(RankMap(config.order)))
    ensures StablePermutation(Filter(kernels, config), selected, Comparator(RankMap(config.order)))
    ensures forall k: Kernel ::
      if (config.included == [] || k.packageBase in config.included) && k.packageBase !in config.excluded
      then multiset(selected)[k] == multiset(kernels)[k] else multiset(selected)[k] == 0
  {
    var kept: seq<Kernel> := [];
    for i := 0 to |kernels|
      invariant kept == Filter(kernels[..i], config)
    {
      assert kernels[..i + 1][..i] == kernels[..i];
      if config.included != [] && kernels[i].packageBase !in config.included { continue; }
      if kernels[i].packageBase in config.excluded { continue; }
      kept := kept + [kernels[i]];
    }
    assert kernels[..|kernels|] == kernels;
    forall k: Kernel ensures multiset(kept)[k] == if Selected(k, config) then multiset(kernels)[k] else 0 {
      FilterCounts(kernels, config, k);
    }
    var rank := BuildRank(config.order);
    PrecedesIsStrictWeakOrder(rank);
    SortIsStable(kept, Comparator(rank));
    selected := Sort(kept, Comparator(rank));
  }

  /** The order a reader of the configuration expects: listed kernels first, in the order of the
      list; then the running one; then by name. */
  lemma SelectionOrder(selected: seq<Kernel>, order: seq<string>, i: nat, j: nat)
    requires Sorted(selected, Comparator(RankMap(order))) && i < j < |selected|
    ensures
      var a, b := selected[i], selected[j];
      && (b.packageBase in order ==> a.packageBase in order && Rank(a.packageBase, order) <= Rank(b.packageBase, order))
      && (a.packageBase !in order && b.running ==> a.running)
      && (a.packageBase !in order && a.running == b.running ==>
            a.packageBase == b.packageBase || exists n: nat :: LessAt(a.packageBase, b.packageBase, n))
  {
    var a, b := selected[i], selected[j];
    RankBound(a.packageBase, order);
    RankBound(b.packageBase, order);
    assert !Comparator(RankMap(order))(b, a);
    LessIsTotal(a.packageBase, b.packageBase);
    LessIsLexicographic(a.packageBase, b.packageBase);
  }
}
