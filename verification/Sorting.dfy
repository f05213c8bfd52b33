/** The sorting of `std::sort` and `std::stable_sort` under a comparator: the contract the
    services rely on, with an insertion sort behind it. */
module Sorting {

  ghost predicate StrictWeakOrder<T(!new)>(less: (T, T) -> bool) {
    && (forall x :: !less(x, x))
    && (forall x, y, z :: less(x, y) && less(y, z) ==> less(x, z))
    && (forall x, y, z :: less(x, z) ==> less(x, y) || less(y, z))
  }

  ghost predicate Sorted<T>(s: seq<T>, less: (T, T) -> bool) {
    forall i, j :: 0 <= i < j < |s| ==> !less(s[j], s[i])
  }

  /** The elements the comparator does not tell from `x`, in their order. */
  ghost function Class<T>(s: seq<T>, x: T, less: (T, T) -> bool): seq<T> {
    if s == [] then []
    else (if !less(s[0], x) && !less(x, s[0]) then [s[0]] else []) + Class(s[1..], x, less)
  }

  /** The same elements, with elements that compare equal in their old order. */
  ghost predicate StablePermutation<T(!new)>(s: seq<T>, r: seq<T>, less: (T, T) -> bool) {
    && multiset(s) == multiset(r)
    && forall x :: Class(r, x, less) == Class(s, x, less)
  }

  function Insert<T>(x: T, s: seq<T>, less: (T, T) -> bool): seq<T> {
    if s == [] || !less(s[0], x) then [x] + s else [s[0]] + Insert(x, s[1..], less)
  }

  function Sort<T>(s: seq<T>, less: (T, T) -> bool): seq<T> {
    if s == [] then [] else Insert(s[0], Sort(s[1..], less), less)
  }

  lemma {:induction false} InsertPermutes<T>(x: T, s: seq<T>, less: (T, T) -> bool)
    ensures multiset(Insert(x, s, less)) == multiset(s) + multiset{x}
  {
    if s != [] && less(s[0], x) {
      InsertPermutes(x, s[1..], less);
      assert s == [s[0]] + s[1..];
    }
  }

  lemma {:induction false} InsertSorted<T(!new)>(x: T, s: seq<T>, less: (T, T) -> bool)
    requires StrictWeakOrder(less) && Sorted(s, less)
    ensures Sorted(Insert(x, s, less), less)
  {
    if s != [] && less(s[0], x) {
      var rest := Insert(x, s[1..], less);
      InsertSorted(x, s[1..], less);
      InsertPermutes(x, s[1..], less);
      forall j | 0 <= j < |rest| ensures !less(rest[j], s[0]) {
        assert rest[j] in multiset(rest);
        if rest[j] != x {
          assert rest[j] in s[1..];
        }
      }
    } else if s != [] {
      forall j | 0 <= j < |s| ensures !less(s[j], x) {
        assert j == 0 || !less(s[j], s[0]);
      }
    }
  }

  lemma {:induction false} InsertStable<T(!new)>(x: T, s: seq<T>, y: T, less: (T, T) -> bool)
    requires StrictWeakOrder(less)
    ensures Class(Insert(x, s, less), y, less) == Class([x] + s, y, less)
  {
    assert ([x] + s)[1..] == s;
    if s != [] && less(s[0], x) {
      var rest := Insert(x, s[1..], less);
      InsertStable(x, s[1..], y, less);
      assert ([s[0]] + rest)[1..] == rest && ([x] + s[1..])[1..] == s[1..];
    }
  }

  /** What the library promises: a sorted stable permutation. */
  lemma {:induction false} SortIsStable<T(!new)>(s: seq<T>, less: (T, T) -> bool)
    requires StrictWeakOrder(less)
    ensures Sorted(Sort(s, less), less) && StablePermutation(s, Sort(s, less), less)
  {
    if s != [] {
      var rest := Sort(s[1..], less);
      SortIsStable(s[1..], less);
      InsertSorted(s[0], rest, less);
      InsertPermutes(s[0], rest, less);
      assert s == [s[0]] + s[1..];
      forall y ensures Class(Sort(s, less), y, less) == Class(s, y, less) {
        InsertStable(s[0], rest, y, less);
        assert ([s[0]] + rest)[1..] == rest;
      }
    }
  }
}
